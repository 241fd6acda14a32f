/** pkg/diff: aligns the documents of two stores by identity and writes one
    unified-diff block per identity. The writer's output is modelled as the
    sequence of blocks handed to it: each block carries the two labels and the
    two texts that the Myers edit script and the unified formatter receive.
    The formatter itself, the YAML serialiser (MustYaml) and the identity's
    string form are parameters. */
module Diff {
  import opened Wrappers
  import opened Resources
  import opened Yaml
  import Seqs

  /** One call of ToUnified(fromLabel, toLabel, fromText, edits(fromText, toText)). */
  datatype Block = Block(fromLabel: string, toLabel: string, fromText: string, toText: string)

  /** Identities of `a` that `b` lacks, in the order of `a`. */
  function Deleted(a: Store, b: Store): seq<ResId> {
    Seqs.Filter(Ids(a), id => id !in Ids(b))
  }

  /** Identities of `a` that `b` also holds, in the order of `a`. */
  function Modified(a: Store, b: Store): seq<ResId> {
    Seqs.Filter(Ids(a), id => id in Ids(b))
  }

  /** Identities of `b` that `a` lacks, in the order of `b`. */
  function Added(a: Store, b: Store): seq<ResId> {
    Seqs.Filter(Ids(b), id => id !in Ids(a))
  }

  /** The serialised document with identity `id` (empty where there is none). */
  function YamlOf(s: Store, id: ResId, yaml: Node -> string): string {
    match Get(s, id)
    case Some(r) => yaml(r.body)
    case None => ""
  }

  function AddedBlock(b: Store, id: ResId, show: ResId -> string, yaml: Node -> string): Block {
    Block(show(id), show(id), "", YamlOf(b, id, yaml))
  }

  function DeletedBlock(a: Store, id: ResId, show: ResId -> string, yaml: Node -> string): Block {
    Block(show(id), show(id), YamlOf(a, id, yaml), "")
  }

  function ModifiedBlock(a: Store, b: Store, id: ResId, show: ResId -> string, yaml: Node -> string): Block {
    Block(show(id), show(id), YamlOf(a, id, yaml), YamlOf(b, id, yaml))
  }

  /** The two classification loops of Diff: one pass over `a`, one over `b`. */
  method Classify(a: Store, b: Store) returns (added: seq<ResId>, deleted: seq<ResId>, modified: seq<ResId>)
    ensures added == Added(a, b) && deleted == Deleted(a, b) && modified == Modified(a, b)
  {
    added, deleted, modified := [], [], [];
    for i := 0 to |a|
      invariant deleted == Seqs.Filter(Ids(a)[..i], id => id !in Ids(b))
      invariant modified == Seqs.Filter(Ids(a)[..i], id => id in Ids(b))
    {
      assert Ids(a)[..i + 1] == Ids(a)[..i] + [a[i].id];
      Seqs.FilterSnoc(Ids(a)[..i], a[i].id, id => id !in Ids(b));
      Seqs.FilterSnoc(Ids(a)[..i], a[i].id, id => id in Ids(b));
      if Get(b, a[i].id).None? {
        deleted := deleted + [a[i].id];
      } else {
        modified := modified + [a[i].id];
      }
    }
    assert Ids(a)[..|a|] == Ids(a);
    for i := 0 to |b|
      invariant added == Seqs.Filter(Ids(b)[..i], id => id !in Ids(a))
    {
      assert Ids(b)[..i + 1] == Ids(b)[..i] + [b[i].id];
      Seqs.FilterSnoc(Ids(b)[..i], b[i].id, id => id !in Ids(a));
      if Get(a, b[i].id).None? {
        added := added + [b[i].id];
      }
    }
    assert Ids(b)[..|b|] == Ids(b);
  }

  /** Diff: added blocks, then deleted blocks, then modified blocks; each block
      is labelled with the identity's string form on both sides; an added
      document is diffed from empty text, a deleted one to empty text, a
      modified one from its text in `a` to its text in `b`. Never an error. */
  method Diff(a: Store, b: Store, show: ResId -> string, yaml: Node -> string)
    returns (out: seq<Block>, err: Option<string>)
    ensures err == None
    ensures |out| == |Added(a, b)| + |Deleted(a, b)| + |Modified(a, b)|
    ensures forall k :: 0 <= k < |Added(a, b)| ==>
              out[k] == AddedBlock(b, Added(a, b)[k], show, yaml)
    ensures forall k :: 0 <= k < |Deleted(a, b)| ==>
              out[|Added(a, b)| + k] == DeletedBlock(a, Deleted(a, b)[k], show, yaml)
    ensures forall k :: 0 <= k < |Modified(a, b)| ==>
              out[|Added(a, b)| + |Deleted(a, b)| + k] == ModifiedBlock(a, b, Modified(a, b)[k], show, yaml)
  {
    var added, deleted, modified := Classify(a, b);
    var addedBlocks := WriteAdded(b, added, show, yaml);
    var deletedBlocks := WriteDeleted(a, deleted, show, yaml);
    var modifiedBlocks := WriteModified(a, b, modified, show, yaml);
    out := addedBlocks + deletedBlocks + modifiedBlocks;
    err := None;
  }

  /** The first writer loop: one block per added identity, in order. */
  method WriteAdded(b: Store, added: seq<ResId>, show: ResId -> string, yaml: Node -> string) returns (out: seq<Block>)
    ensures |out| == |added|
    ensures forall j :: 0 <= j < |added| ==> out[j] == AddedBlock(b, added[j], show, yaml)
  {
    out := [];
    for k := 0 to |added|
      invariant |out| == k
      invariant forall j :: 0 <= j < k ==> out[j] == AddedBlock(b, added[j], show, yaml)
    {
      out := out + [AddedBlock(b, added[k], show, yaml)];
    }
  }

  /** The second writer loop: one block per deleted identity, in order. */
  method WriteDeleted(a: Store, deleted: seq<ResId>, show: ResId -> string, yaml: Node -> string) returns (out: seq<Block>)
    ensures |out| == |deleted|
    ensures forall j :: 0 <= j < |deleted| ==> out[j] == DeletedBlock(a, deleted[j], show, yaml)
  {
    out := [];
    for k := 0 to |deleted|
      invariant |out| == k
      invariant forall j :: 0 <= j < k ==> out[j] == DeletedBlock(a, deleted[j], show, yaml)
    {
      out := out + [DeletedBlock(a, deleted[k], show, yaml)];
    }
  }

  /** The third writer loop: one block per modified identity, in order. */
  method WriteModified(a: Store, b: Store, modified: seq<ResId>, show: ResId -> string, yaml: Node -> string)
    returns (out: seq<Block>)
    ensures |out| == |modified|
    ensures forall j :: 0 <= j < |modified| ==> out[j] == ModifiedBlock(a, b, modified[j], show, yaml)
  {
    out := [];
    for k := 0 to |modified|
      invariant |out| == k
      invariant forall j :: 0 <= j < k ==> out[j] == ModifiedBlock(a, b, modified[j], show, yaml)
    {
      out := out + [ModifiedBlock(a, b, modified[k], show, yaml)];
    }
  }

  /** Every identity of `a` is either deleted (absent from `b`) or modified
      (present in `b`), never both. */
  lemma ClassifyBefore(a: Store, b: Store, id: ResId)
    requires id in Ids(a)
    ensures id in Deleted(a, b) <==> id !in Ids(b)
    ensures id in Modified(a, b) <==> id in Ids(b)
  {
    Seqs.FilterMember(Ids(a), id => id !in Ids(b), id);
    Seqs.FilterMember(Ids(a), id => id in Ids(b), id);
  }

  /** Added is exactly the identities of `b` that `a` lacks. */
  lemma AddedExactly(a: Store, b: Store, id: ResId)
    ensures id in Added(a, b) <==> id in Ids(b) && id !in Ids(a)
  {
    Seqs.FilterMember(Ids(b), id => id !in Ids(a), id);
  }

  /** The three categories partition the identities of both stores: each
      identity of either store lands in exactly one of them, and nothing else does. */
  lemma Partition(a: Store, b: Store, id: ResId)
    ensures (id in Added(a, b) || id in Deleted(a, b) || id in Modified(a, b))
            <==> (id in Ids(a) || id in Ids(b))
    ensures !(id in Added(a, b) && id in Deleted(a, b))
    ensures !(id in Added(a, b) && id in Modified(a, b))
    ensures !(id in Deleted(a, b) && id in Modified(a, b))
  {
    AddedExactly(a, b, id);
    Seqs.FilterMember(Ids(a), id => id !in Ids(b), id);
    Seqs.FilterMember(Ids(a), id => id in Ids(b), id);
  }

  /** Within each category identities keep the order of the store they were
      read from (`a` for deleted and modified, `b` for added) and none repeats. */
  lemma CategoryOrder(a: Store, b: Store, i: nat, j: nat)
    ensures i < j < |Deleted(a, b)| ==>
              Deleted(a, b)[i] in Ids(a) && Deleted(a, b)[j] in Ids(a) &&
              Seqs.Pos(Ids(a), Deleted(a, b)[i]) < Seqs.Pos(Ids(a), Deleted(a, b)[j])
    ensures i < j < |Modified(a, b)| ==>
              Modified(a, b)[i] in Ids(a) && Modified(a, b)[j] in Ids(a) &&
              Seqs.Pos(Ids(a), Modified(a, b)[i]) < Seqs.Pos(Ids(a), Modified(a, b)[j])
    ensures i < j < |Added(a, b)| ==>
              Added(a, b)[i] in Ids(b) && Added(a, b)[j] in Ids(b) &&
              Seqs.Pos(Ids(b), Added(a, b)[i]) < Seqs.Pos(Ids(b), Added(a, b)[j])
  {
    StoreIdsDistinct(a);
    StoreIdsDistinct(b);
    if i < j < |Deleted(a, b)| {
      Seqs.FilterKeepsOrder(Ids(a), id => id !in Ids(b), i, j);
    }
    if i < j < |Modified(a, b)| {
      Seqs.FilterKeepsOrder(Ids(a), id => id in Ids(b), i, j);
    }
    if i < j < |Added(a, b)| {
      Seqs.FilterKeepsOrder(Ids(b), id => id !in Ids(a), i, j);
    }
  }

  /** Diffing a store against itself: nothing added, nothing deleted, every
      identity modified, in store order, and each block compares a text with
      itself (an empty edit script). */
  lemma SelfDiff(a: Store, show: ResId -> string, yaml: Node -> string)
    ensures Added(a, a) == [] && Deleted(a, a) == []
    ensures Modified(a, a) == Ids(a)
    ensures forall k :: 0 <= k < |a| ==>
              ModifiedBlock(a, a, Modified(a, a)[k], show, yaml).fromText == yaml(a[k].body)
              && ModifiedBlock(a, a, Modified(a, a)[k], show, yaml).toText == yaml(a[k].body)
  {
    Seqs.FilterNone(Ids(a), id => id !in Ids(a));
    Seqs.FilterAll(Ids(a), id => id in Ids(a));
  }

  /** A = {X, Y}, B = {Y, Z}: Z is added, X deleted, Y modified. */
  lemma ThreeDocuments(x: Resource, y: Resource, y': Resource, z: Resource)
    requires x.id != y.id && y.id != z.id && x.id != z.id && y'.id == y.id
    ensures Added([x, y], [y', z]) == [z.id]
    ensures Deleted([x, y], [y', z]) == [x.id]
    ensures Modified([x, y], [y', z]) == [y.id]
  {
    var a: Store := [x, y];
    var b: Store := [y', z];
    assert Ids(a) == [x.id, y.id] && Ids(a)[1..] == [y.id] && Ids(a)[2..] == [];
    assert Ids(b) == [y.id, z.id] && Ids(b)[1..] == [z.id] && Ids(b)[2..] == [];
    assert Deleted(a, b) == [x.id] + Seqs.Filter([y.id], id => id !in Ids(b));
    assert Modified(a, b) == Seqs.Filter([y.id], id => id in Ids(b));
    assert Added(a, b) == Seqs.Filter([z.id], id => id !in Ids(a));
  }
}
