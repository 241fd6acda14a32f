/** A YAML document as a tree, the shape kyaml's RNode wraps. Mapping keys are
    unique, so a mapping is a map from key to child. */
module Yaml {

  datatype Node =
    | Mapping(fields: map<string, Node>)
    | Sequence(items: seq<Node>)
    | Scalar(text: string)
    | Null
}
