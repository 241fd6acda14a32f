/** pkg/filter/filter.go: the registry of kyaml filters that a filter
    configuration may name, and the YAML decoding of one configured filter.
    The YAML decoder itself (the `unmarshal` callback) is a parameter. */
module FilterRegistry {
  import opened Wrappers
  import opened Yaml
  import opened GoStrings

  /** The kio filter types the registry can create. */
  datatype FilterKind = FileSetter | FormatFilter | GrepFilter | MatchModifyFilter | Modifier

  /** The registry: the name a configuration uses and the filter type it creates. */
  const Filters: map<string, FilterKind> := map[
    "FileSetter" := FileSetter,
    "FormatFilter" := FormatFilter,
    "GrepFilter" := GrepFilter,
    "MatchModifier" := MatchModifyFilter,
    "Modifier" := Modifier]

  /** The registry's names in ascending order. */
  const SortedNames: seq<string> := ["FileSetter", "FormatFilter", "GrepFilter", "MatchModifier", "Modifier"]

  /** A filter instance: its type and the fields decoded into it (a fresh
      instance has none). */
  datatype KioFilter = KioFilter(kind: FilterKind, fields: map<string, Node>)

  /** yaml.ResourceMeta, of which only the kind is read. */
  datatype ResourceMeta = ResourceMeta(apiVersion: string, kind: string, name: string)

  /** What decoding fields into an instance yields: the instance's fields
      afterwards, and an error or none. */
  datatype Decoded = Decoded(fields: map<string, Node>, error: Option<string>)

  /** The `unmarshal` callback, for each target it is called with, and the
      `%v` formatting of the metadata. */
  datatype Decoder = Decoder(
    toMap: Node -> Option<string>,
    toMeta: Node -> Result<ResourceMeta>,
    toFilter: (KioFilter, Node) -> Decoded,
    showMeta: ResourceMeta -> string)

  /** The message for an unregistered kind. */
  function UnknownKindMessage(meta: string, known: seq<string>): string {
    "unsupported filter Kind " + meta + ":  may be one of: [" + Join(known, ",") + "]"
  }

  /** SortedNames is in ascending order. */
  lemma SortedNamesAscending()
    ensures Sorted(SortedNames)
  {
    var s := SortedNames;
    assert LessEq(s[0], s[1]) by {
      assert s[0][1..] == "ileSetter" && s[1][1..] == "ormatFilter";
    }
    assert LessEq(s[1], s[2]);
    assert LessEq(s[2], s[3]);
    assert LessEq(s[3], s[4]) by {
      assert s[3][1..] == "atchModifier" && s[4][1..] == "odifier";
    }
    forall i, j | 0 <= i < j < |s| ensures LessEq(s[i], s[j]) {
      var k := i + 1;
      while k < j
        invariant i < k <= j
        invariant LessEq(s[i], s[k])
      {
        LessEqTransitive(s[i], s[k], s[k + 1]);
        k := k + 1;
      }
    }
  }

  /** The registry holds exactly the five names of SortedNames; LabelRemover
      is not among them. */
  lemma RegistryNames()
    ensures multiset(SortedNames) == multiset(Filters.Keys)
    ensures "LabelRemover" !in Filters
  {
    assert Filters.Keys == {"FileSetter", "FormatFilter", "GrepFilter", "MatchModifier", "Modifier"};
  }

  /** The registry's names collected from the map, in whatever order the map
      gives them, then sorted. */
  method KnownFilters() returns (known: seq<string>)
    ensures known == SortedNames
  {
    var names := CollectNames(Filters.Keys);
    known := SortStrings(names);
    RegistryNames();
    SortedNamesAscending();
    SortedUnique(known, SortedNames);
  }

  /** The loop over the registry: every name once, in an unspecified order. */
  method CollectNames(keys: set<string>) returns (names: seq<string>)
    ensures multiset(names) == multiset(keys)
  {
    names := [];
    var rest := keys;
    while rest != {}
      invariant rest <= keys
      invariant multiset(names) + multiset(rest) == multiset(keys)
      decreases |rest|
    {
      var k :| k in rest;
      names := names + [k];
      assert multiset(rest) == multiset(rest - {k}) + multiset{k};
      rest := rest - {k};
    }
  }

  /** UnmarshalYAML as a function of the held filter: both decodings are tried
      before the registry is consulted; an unknown kind leaves the filter
      alone; a known kind replaces it with a fresh instance of its type and
      decodes into that. */
  function UnmarshalStep(held: Option<KioFilter>, node: Node, dec: Decoder): (r: (Option<KioFilter>, Option<string>))
    ensures dec.toMap(node).Some? ==> r == (held, dec.toMap(node))
    ensures dec.toMap(node).None? && dec.toMeta(node).Err? ==> r == (held, Some(dec.toMeta(node).error))
    ensures dec.toMap(node).None? && dec.toMeta(node).Ok? && dec.toMeta(node).value.kind !in Filters ==>
      r == (held, Some(UnknownKindMessage(dec.showMeta(dec.toMeta(node).value), SortedNames)))
    ensures r.0 != held ==>
      && r.0.Some? && dec.toMeta(node).Ok? && dec.toMeta(node).value.kind in Filters
      && r.0.value.kind == Filters[dec.toMeta(node).value.kind]
  {
    match dec.toMap(node)
    case Some(e) => (held, Some(e))
    case None =>
      match dec.toMeta(node)
      case Err(e) => (held, Some(e))
      case Ok(meta) =>
        if meta.kind !in Filters then (held, Some(UnknownKindMessage(dec.showMeta(meta), SortedNames)))
        else
          var blank := KioFilter(Filters[meta.kind], map[]);
          var d := dec.toFilter(blank, node);
          (Some(KioFilter(blank.kind, d.fields)), d.error)
  }

  /** KFilter: a configured filter wrapping a kio filter instance. */
  class KFilter {
    var filter: Option<KioFilter>

    constructor ()
      ensures filter == None
    {
      filter := None;
    }

    /** MarshalYAML: the wrapped filter itself. */
    method MarshalYAML() returns (out: Option<KioFilter>)
      ensures out == filter
    {
      out := filter;
    }

    method UnmarshalYAML(node: Node, dec: Decoder) returns (err: Option<string>)
      modifies this
      ensures (filter, err) == UnmarshalStep(old(filter), node, dec)
    {
      err := dec.toMap(node);
      if err.Some? {
        return;
      }
      var meta := dec.toMeta(node);
      if meta.Err? {
        return Some(meta.error);
      }
      if meta.value.kind !in Filters {
        var known := KnownFilters();
        return Some(UnknownKindMessage(dec.showMeta(meta.value), known));
      }
      filter := Some(KioFilter(Filters[meta.value.kind], map[]));
      var d := dec.toFilter(filter.value, node);
      filter := Some(KioFilter(filter.value.kind, d.fields));
      err := d.error;
    }
  }

  /** A known kind always yields an instance of its own type, whether or not
      decoding its fields succeeds, and that instance holds the decoded fields. */
  lemma KnownKindInstance(held: Option<KioFilter>, node: Node, dec: Decoder)
    requires dec.toMap(node).None? && dec.toMeta(node).Ok?
    requires dec.toMeta(node).value.kind in Filters
    ensures var kind := Filters[dec.toMeta(node).value.kind];
      var d := dec.toFilter(KioFilter(kind, map[]), node);
      UnmarshalStep(held, node, dec) == (Some(KioFilter(kind, d.fields)), d.error)
  {
  }
}
