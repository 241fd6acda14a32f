/** pkg/filter/labels.go: LabelRemover clears named label keys at a list of
    field paths in every document. A path step is a mapping field name; the
    clear is kyaml's PathGetter followed by FieldClearer, and both insist on a
    mapping wherever they look: a missing field or a null node along the way
    ends the pipe without change, a null target is left alone, and a scalar or
    sequence met anywhere along the path, the target included, is an error. */
module LabelRemover {
  import opened Wrappers
  import opened Yaml
  import Seqs

  /** The configured filter: the label keys and the search paths. */
  datatype LabelRemoverConfig = LabelRemoverConfig(kind: string, labels: seq<string>, paths: seq<seq<string>>)

  /** The search paths used when none are configured. */
  const DefaultPaths: seq<seq<string>> := [["metadata", "labels"], ["spec", "template", "metadata", "labels"]]

  function SearchPaths(lr: LabelRemoverConfig): (ps: seq<seq<string>>)
    ensures |lr.paths| == 0 ==> ps == [["metadata", "labels"], ["spec", "template", "metadata", "labels"]]
    ensures |lr.paths| != 0 ==> ps == lr.paths
  {
    if |lr.paths| == 0 then DefaultPaths else lr.paths
  }

  /** The node at a path, if every field along it exists (PathGetter's
      result when it succeeds). */
  function Walk(n: Node, path: seq<string>): Option<Node>
    decreases |path|
  {
    if path == [] then Some(n)
    else
      match n
      case Mapping(f) => if path[0] in f then Walk(f[path[0]], path[1..]) else None
      case _ => None
  }

  /** The walk along `path` meets a scalar or a sequence before it reaches a
      missing field or a null: at a step still to be taken, where PathGetter's
      field lookup refuses it, or as the target, where FieldClearer does. */
  predicate Fails(n: Node, path: seq<string>)
    decreases |path|
  {
    match n
    case Mapping(f) => path != [] && path[0] in f && Fails(f[path[0]], path[1..])
    case Null => false
    case _ => true
  }

  /** kyaml's complaint about a node that is not a mapping. */
  function KindError(n: Node): string {
    "wrong node kind: expected MappingNode but got " + (if n.Sequence? then "SequenceNode" else "ScalarNode")
  }

  /** One pipe: the document with `key` removed from the mapping at `path`. */
  function Clear(n: Node, path: seq<string>, key: string): Result<Node>
    decreases |path|
  {
    if path == [] then
      match n
      case Mapping(f) => Ok(Mapping(f - {key}))
      case Null => Ok(n)
      case _ => Err(KindError(n))
    else
      match n
      case Mapping(f) =>
        if path[0] in f then
          match Clear(f[path[0]], path[1..], key)
          case Err(e) => Err(e)
          case Ok(c) => Ok(Mapping(f[path[0] := c]))
        else Ok(n)
      case Null => Ok(n)
      case _ => Err(KindError(n))
  }

  /** `m` is `n` with zero or more mapping keys removed, at any depth. */
  predicate Sub(m: Node, n: Node)
    decreases n
  {
    m == n
    || (&& m.Mapping? && n.Mapping?
        && m.fields.Keys <= n.fields.Keys
        && forall k :: k in m.fields ==> Sub(m.fields[k], n.fields[k]))
  }

  /** Clearing `key` at `path` would change nothing: the walk meets no scalar
      or sequence, and the path is missing, ends at null, or ends at a mapping
      without the key. */
  predicate Settled(n: Node, path: seq<string>, key: string) {
    !Fails(n, path) &&
    match Walk(n, path)
    case None => true
    case Some(x) => x.Null? || (x.Mapping? && key !in x.fields)
  }

  // ----- one pipe -----

  /** The pipe fails exactly when the walk meets a scalar or sequence, at the
      target or before it, with kyaml's wrong-kind message; otherwise the key
      is gone from the target mapping, every other key there is kept, a
      missing path or a null target leaves the document as it was, and the
      result only lacks keys the document had. */
  lemma {:induction false} ClearSpec(n: Node, path: seq<string>, key: string)
    ensures Clear(n, path, key).Err? <==> Fails(n, path)
    ensures Clear(n, path, key).Err? ==> Clear(n, path, key).error in {KindError(Scalar("")), KindError(Sequence([]))}
    ensures Walk(n, path).Some? && (Walk(n, path).value.Scalar? || Walk(n, path).value.Sequence?) ==> Fails(n, path)
    ensures Walk(n, path).None? && !Fails(n, path) ==> Clear(n, path, key) == Ok(n)
    ensures Walk(n, path) == Some(Null) ==> Clear(n, path, key) == Ok(n)
    ensures Walk(n, path).Some? && Walk(n, path).value.Mapping? ==>
      Clear(n, path, key).Ok? && Walk(Clear(n, path, key).value, path) == Some(Mapping(Walk(n, path).value.fields - {key}))
    ensures Clear(n, path, key).Ok? ==> Sub(Clear(n, path, key).value, n)
    decreases |path|
  {
    if path != [] && n.Mapping? && path[0] in n.fields {
      var f := n.fields;
      var child := f[path[0]];
      ClearSpec(child, path[1..], key);
      match Clear(child, path[1..], key)
      case Err(e) =>
      case Ok(c) =>
        var m := Mapping(f[path[0] := c]);
        assert Walk(m, path) == Walk(c, path[1..]);
        if c == child {
          assert f[path[0] := c] == f;
        }
        forall k | k in m.fields ensures Sub(m.fields[k], f[k]) {
          if k != path[0] {
            assert m.fields[k] == f[k];
          }
        }
    } else if path == [] && n.Mapping? {
      var m := Mapping(n.fields - {key});
      forall k | k in m.fields ensures Sub(m.fields[k], n.fields[k]) {
        assert m.fields[k] == n.fields[k];
      }
    }
  }

  lemma {:induction false} SubTransitive(a: Node, b: Node, c: Node)
    requires Sub(a, b) && Sub(b, c)
    ensures Sub(a, c)
    decreases c
  {
    if a != b && b != c {
      forall k | k in a.fields ensures Sub(a.fields[k], c.fields[k]) {
        SubTransitive(a.fields[k], b.fields[k], c.fields[k]);
      }
    }
  }

  /** Removing keys never brings a path back: walking the smaller document
      finds nothing or a smaller node, and meets a scalar or sequence only
      where the larger one does. */
  lemma {:induction false} SubWalk(m: Node, n: Node, path: seq<string>)
    requires Sub(m, n)
    ensures Walk(m, path).None? || (Walk(n, path).Some? && Sub(Walk(m, path).value, Walk(n, path).value))
    ensures Fails(m, path) ==> Fails(n, path)
    decreases |path|
  {
    if path != [] && m.Mapping? && path[0] in m.fields {
      if m == n {
        assert Sub(m.fields[path[0]], n.fields[path[0]]);
      }
      SubWalk(m.fields[path[0]], n.fields[path[0]], path[1..]);
    }
  }

  /** A settled path stays settled while keys are removed anywhere. */
  lemma SubKeepsSettled(m: Node, n: Node, path: seq<string>, key: string)
    requires Sub(m, n) && Settled(n, path, key)
    ensures Settled(m, path, key)
  {
    SubWalk(m, n, path);
  }

  /** A successful pipe settles its own path. */
  lemma ClearSettles(n: Node, path: seq<string>, key: string)
    requires Clear(n, path, key).Ok?
    ensures Settled(Clear(n, path, key).value, path, key)
  {
    ClearSpec(n, path, key);
    if Walk(n, path).None? || Walk(n, path) == Some(Null) {
      assert Clear(n, path, key).value == n;
    }
  }

  /** On a settled path the pipe changes nothing. */
  lemma SettledClearIsNoop(n: Node, path: seq<string>, key: string)
    requires Settled(n, path, key)
    ensures Clear(n, path, key) == Ok(n)
  {
    ClearSpec(n, path, key);
    if Walk(n, path).Some? && Walk(n, path).value.Mapping? {
      var f := Walk(n, path).value.fields;
      assert f - {key} == f;
      SettledMappingNoop(n, path, key);
    }
  }

  lemma {:induction false} SettledMappingNoop(n: Node, path: seq<string>, key: string)
    requires Walk(n, path).Some? && Walk(n, path).value.Mapping? && key !in Walk(n, path).value.fields
    ensures Clear(n, path, key) == Ok(n)
    decreases |path|
  {
    if path == [] {
      assert n.fields - {key} == n.fields;
    } else {
      var f := n.fields;
      SettledMappingNoop(f[path[0]], path[1..], key);
      assert f[path[0] := f[path[0]]] == f;
    }
  }

  // ----- one document: every key at every path -----

  /** The pipes for one key over the paths in order: the document as far as
      it got, and the first error. */
  function ClearPaths(n: Node, key: string, paths: seq<seq<string>>): (Node, Option<string>)
    decreases |paths|
  {
    if paths == [] then (n, None)
    else
      var (m, err) := ClearPaths(n, key, paths[..|paths| - 1]);
      if err.Some? then (m, err)
      else
        match Clear(m, paths[|paths| - 1], key)
        case Err(e) => (m, Some(e))
        case Ok(m2) => (m2, None)
  }

  /** Every key in order, each over all paths. */
  function ClearLabels(n: Node, labels: seq<string>, paths: seq<seq<string>>): (Node, Option<string>)
    decreases |labels|
  {
    if labels == [] then (n, None)
    else
      var (m, err) := ClearLabels(n, labels[..|labels| - 1], paths);
      if err.Some? then (m, err)
      else ClearPaths(m, labels[|labels| - 1], paths)
  }

  /** Every key is settled at every path. */
  predicate AllSettled(n: Node, labels: seq<string>, paths: seq<seq<string>>) {
    forall i, j :: 0 <= i < |labels| && 0 <= j < |paths| ==> Settled(n, paths[j], labels[i])
  }

  lemma {:induction false} ClearPathsSettles(n: Node, key: string, paths: seq<seq<string>>)
    requires ClearPaths(n, key, paths).1.None?
    ensures Sub(ClearPaths(n, key, paths).0, n)
    ensures forall j :: 0 <= j < |paths| ==> Settled(ClearPaths(n, key, paths).0, paths[j], key)
    decreases |paths|
  {
    if paths != [] {
      var init := paths[..|paths| - 1];
      var p := paths[|paths| - 1];
      ClearPathsSettles(n, key, init);
      var m := ClearPaths(n, key, init).0;
      var m2 := Clear(m, p, key).value;
      ClearSpec(m, p, key);
      ClearSettles(m, p, key);
      SubTransitive(m2, m, n);
      forall j | 0 <= j < |paths| ensures Settled(m2, paths[j], key) {
        if j < |paths| - 1 {
          assert paths[j] == init[j];
          SubKeepsSettled(m2, m, paths[j], key);
        }
      }
    }
  }

  lemma {:induction false} ClearLabelsSettles(n: Node, labels: seq<string>, paths: seq<seq<string>>)
    requires ClearLabels(n, labels, paths).1.None?
    ensures Sub(ClearLabels(n, labels, paths).0, n)
    ensures AllSettled(ClearLabels(n, labels, paths).0, labels, paths)
    decreases |labels|
  {
    if labels != [] {
      var init := labels[..|labels| - 1];
      var l := labels[|labels| - 1];
      ClearLabelsSettles(n, init, paths);
      var m := ClearLabels(n, init, paths).0;
      ClearPathsSettles(m, l, paths);
      var m2 := ClearPaths(m, l, paths).0;
      SubTransitive(m2, m, n);
      forall i, j | 0 <= i < |labels| && 0 <= j < |paths| ensures Settled(m2, paths[j], labels[i]) {
        if i < |labels| - 1 {
          assert labels[i] == init[i];
          SubKeepsSettled(m2, m, paths[j], labels[i]);
        }
      }
    }
  }

  lemma {:induction false} SettledClearPathsIsNoop(n: Node, key: string, paths: seq<seq<string>>)
    requires forall j :: 0 <= j < |paths| ==> Settled(n, paths[j], key)
    ensures ClearPaths(n, key, paths) == (n, None)
    decreases |paths|
  {
    if paths != [] {
      SettledClearPathsIsNoop(n, key, paths[..|paths| - 1]);
      SettledClearIsNoop(n, paths[|paths| - 1], key);
    }
  }

  lemma {:induction false} SettledClearLabelsIsNoop(n: Node, labels: seq<string>, paths: seq<seq<string>>)
    requires AllSettled(n, labels, paths)
    ensures ClearLabels(n, labels, paths) == (n, None)
    decreases |labels|
  {
    if labels != [] {
      var init := labels[..|labels| - 1];
      assert AllSettled(n, init, paths) by {
        forall i, j | 0 <= i < |init| && 0 <= j < |paths| ensures Settled(n, paths[j], init[i]) {
          assert init[i] == labels[i];
        }
      }
      SettledClearLabelsIsNoop(n, init, paths);
      SettledClearPathsIsNoop(n, labels[|labels| - 1], paths);
    }
  }

  // ----- the document list -----

  /** The documents in order, each with every key cleared at every path;
      the first error stops the run, leaving the failing document as far as
      it got and the later ones untouched. */
  function ClearDocs(docs: seq<Node>, labels: seq<string>, paths: seq<seq<string>>): (r: (seq<Node>, Option<string>))
    ensures |r.0| == |docs|
    decreases |docs|
  {
    if docs == [] then ([], None)
    else
      var (ds, err) := ClearDocs(docs[..|docs| - 1], labels, paths);
      if err.Some? then (ds + [docs[|docs| - 1]], err)
      else
        var (m, e) := ClearLabels(docs[|docs| - 1], labels, paths);
        (ds + [m], e)
  }

  lemma ClearDocsStep(docs: seq<Node>, i: nat, labels: seq<string>, paths: seq<seq<string>>)
    requires i < |docs| && ClearDocs(docs[..i], labels, paths).1.None?
    ensures ClearDocs(docs[..i + 1], labels, paths)
         == (ClearDocs(docs[..i], labels, paths).0 + [ClearLabels(docs[i], labels, paths).0], ClearLabels(docs[i], labels, paths).1)
  {
    assert docs[..i + 1][..i] == docs[..i];
  }

  /** LabelRemover.Filter: clears in place and, on success, returns the same
      list; on an error it returns the error (and the documents before the
      failing one have already been changed). */
  method Filter(lr: LabelRemoverConfig, input: array<Node>) returns (r: Result<array<Node>>)
    modifies input
    ensures input[..] == ClearDocs(old(input[..]), lr.labels, SearchPaths(lr)).0
    ensures r.Ok? <==> ClearDocs(old(input[..]), lr.labels, SearchPaths(lr)).1.None?
    ensures r.Ok? ==> r.value == input
    ensures r.Err? ==> Some(r.error) == ClearDocs(old(input[..]), lr.labels, SearchPaths(lr)).1
  {
    var lps := lr.paths;
    if |lps| == 0 {
      lps := [["metadata", "labels"], ["spec", "template", "metadata", "labels"]];
    }
    var err := ClearAll(input, lr.labels, lps);
    if err.Some? {
      return Err(err.value);
    }
    return Ok(input);
  }

  /** The outer loop of Filter: the documents in order, stopping at the
      first error. */
  method ClearAll(input: array<Node>, labels: seq<string>, paths: seq<seq<string>>) returns (err: Option<string>)
    modifies input
    ensures (input[..], err) == ClearDocs(old(input[..]), labels, paths)
  {
    ghost var docs := input[..];
    for i := 0 to input.Length
      invariant input[..i] == ClearDocs(docs[..i], labels, paths).0
      invariant ClearDocs(docs[..i], labels, paths).1.None?
      invariant input[i..] == docs[i..]
    {
      ClearDocsStep(docs, i, labels, paths);
      assert input[i + 1..] == input[i..][1..] == docs[i + 1..];
      err := ClearDocument(input, i, labels, paths);
      assert input[..i + 1] == input[..i] + [input[i]];
      if err.Some? {
        ClearDocsErrorSticks(docs, i + 1, labels, paths);
        Seqs.SplitAt(input[..], i + 1);
        return;
      }
    }
    assert docs[..input.Length] == docs && input[..input.Length] == input[..];
    return None;
  }

  /** The two inner loops of Filter on document i. */
  method ClearDocument(input: array<Node>, i: int, labels: seq<string>, paths: seq<seq<string>>) returns (err: Option<string>)
    requires 0 <= i < input.Length
    modifies input
    ensures input[..i] == old(input[..i]) && input[i + 1..] == old(input[i + 1..])
    ensures (input[i], err) == ClearLabels(old(input[i]), labels, paths)
  {
    ghost var doc := input[i];
    for li := 0 to |labels|
      invariant input[..i] == old(input[..i]) && input[i + 1..] == old(input[i + 1..])
      invariant ClearLabels(doc, labels[..li], paths) == (input[i], None)
    {
      assert labels[..li + 1][..li] == labels[..li];
      ghost var start := input[i];
      for pi := 0 to |paths|
        invariant input[..i] == old(input[..i]) && input[i + 1..] == old(input[i + 1..])
        invariant ClearPaths(start, labels[li], paths[..pi]) == (input[i], None)
      {
        assert paths[..pi + 1][..pi] == paths[..pi];
        var res := Clear(input[i], paths[pi], labels[li]);
        if res.Err? {
          ClearPathsErrorSticks(start, labels[li], paths, pi + 1);
          ClearLabelsErrorSticks(doc, labels, paths, li + 1);
          return Some(res.error);
        }
        input[i] := res.value;
      }
      assert paths[..|paths|] == paths;
    }
    assert labels[..|labels|] == labels;
    return None;
  }

  lemma {:induction false} ClearPathsErrorSticks(n: Node, key: string, paths: seq<seq<string>>, k: nat)
    requires k <= |paths|
    requires ClearPaths(n, key, paths[..k]).1.Some?
    ensures ClearPaths(n, key, paths) == ClearPaths(n, key, paths[..k])
    decreases |paths| - k
  {
    if k < |paths| {
      assert paths[..|paths| - 1][..k] == paths[..k];
      ClearPathsErrorSticks(n, key, paths[..|paths| - 1], k);
    } else {
      assert paths[..k] == paths;
    }
  }

  lemma {:induction false} ClearLabelsErrorSticks(n: Node, labels: seq<string>, paths: seq<seq<string>>, k: nat)
    requires k <= |labels|
    requires ClearLabels(n, labels[..k], paths).1.Some?
    ensures ClearLabels(n, labels, paths) == ClearLabels(n, labels[..k], paths)
    decreases |labels| - k
  {
    if k < |labels| {
      assert labels[..|labels| - 1][..k] == labels[..k];
      ClearLabelsErrorSticks(n, labels[..|labels| - 1], paths, k);
    } else {
      assert labels[..k] == labels;
    }
  }

  lemma {:induction false} ClearDocsErrorSticks(docs: seq<Node>, k: nat, labels: seq<string>, paths: seq<seq<string>>)
    requires k <= |docs|
    requires ClearDocs(docs[..k], labels, paths).1.Some?
    ensures ClearDocs(docs, labels, paths).1 == ClearDocs(docs[..k], labels, paths).1
    ensures ClearDocs(docs, labels, paths).0 == ClearDocs(docs[..k], labels, paths).0 + docs[k..]
    decreases |docs| - k
  {
    if k < |docs| {
      assert docs[..|docs| - 1][..k] == docs[..k];
      ClearDocsErrorSticks(docs[..|docs| - 1], k, labels, paths);
      assert docs[..|docs| - 1][k..] + [docs[|docs| - 1]] == docs[k..];
    } else {
      assert docs[..k] == docs;
    }
  }

  /** When the run succeeds, no listed label is left at any search path of
      any document, and every document only lost keys. */
  lemma {:induction false} ClearDocsRemovesLabels(docs: seq<Node>, labels: seq<string>, paths: seq<seq<string>>)
    requires ClearDocs(docs, labels, paths).1.None?
    ensures forall d :: 0 <= d < |docs| ==>
      && AllSettled(ClearDocs(docs, labels, paths).0[d], labels, paths)
      && Sub(ClearDocs(docs, labels, paths).0[d], docs[d])
    decreases |docs|
  {
    if docs != [] {
      var init := docs[..|docs| - 1];
      ClearDocsRemovesLabels(init, labels, paths);
      ClearLabelsSettles(docs[|docs| - 1], labels, paths);
      var out := ClearDocs(docs, labels, paths).0;
      assert out == ClearDocs(init, labels, paths).0 + [ClearLabels(docs[|docs| - 1], labels, paths).0];
      forall d | 0 <= d < |docs| - 1 ensures docs[d] == init[d] { }
    }
  }

  /** Running the filter again on its successful output changes nothing and
      reports no error. */
  lemma {:induction false} ClearDocsIdempotent(docs: seq<Node>, labels: seq<string>, paths: seq<seq<string>>)
    requires ClearDocs(docs, labels, paths).1.None?
    ensures ClearDocs(ClearDocs(docs, labels, paths).0, labels, paths) == ClearDocs(docs, labels, paths)
  {
    var out := ClearDocs(docs, labels, paths).0;
    ClearDocsRemovesLabels(docs, labels, paths);
    SettledDocsUnchanged(out, labels, paths);
  }

  lemma {:induction false} SettledDocsUnchanged(docs: seq<Node>, labels: seq<string>, paths: seq<seq<string>>)
    requires forall d :: 0 <= d < |docs| ==> AllSettled(docs[d], labels, paths)
    ensures ClearDocs(docs, labels, paths) == (docs, None)
    decreases |docs|
  {
    if docs != [] {
      var init := docs[..|docs| - 1];
      forall d | 0 <= d < |init| ensures AllSettled(init[d], labels, paths) {
        assert init[d] == docs[d];
      }
      SettledDocsUnchanged(init, labels, paths);
      SettledClearLabelsIsNoop(docs[|docs| - 1], labels, paths);
      assert init + [docs[|docs| - 1]] == docs;
    }
  }

  /** With no labels configured nothing changes and nothing fails. */
  lemma NoLabelsNoChange(docs: seq<Node>, paths: seq<seq<string>>)
    ensures ClearDocs(docs, [], paths) == (docs, None)
  {
    SettledDocsUnchanged(docs, [], paths);
  }

  // ----- keys that are not cleared -----

  /** The node at `path` is a mapping holding `k`. */
  predicate Holds(n: Node, path: seq<string>, k: string) {
    Walk(n, path).Some? && Walk(n, path).value.Mapping? && k in Walk(n, path).value.fields
  }

  /** `p` leads through the field `key` of the node at `q`, which clearing
      `key` at `q` removes. */
  predicate Through(p: seq<string>, q: seq<string>, key: string) {
    |p| > |q| && p[..|q| + 1] == q + [key]
  }

  /** A pipe keeps every key it does not clear: a mapping at `p` holding `k`
      still holds it afterwards, unless the pipe clears `k` at `p` itself or
      removes a field on the way to `p`. */
  lemma {:induction false} ClearKeepsKey(n: Node, q: seq<string>, key: string, p: seq<string>, k: string)
    requires Clear(n, q, key).Ok? && Holds(n, p, k)
    requires !(p == q && k == key) && !Through(p, q, key)
    ensures Holds(Clear(n, q, key).value, p, k)
    decreases |q|
  {
    var f := n.fields;
    if q == [] {
      if p != [] {
        assert p[..1] == [p[0]];
        assert Walk(Mapping(f - {key}), p) == Walk(f[p[0]], p[1..]) == Walk(n, p);
      }
    } else if q[0] in f {
      var c := Clear(f[q[0]], q[1..], key).value;
      var m := Mapping(f[q[0] := c]);
      if p != [] && p[0] == q[0] {
        if |p| > |q| {
          assert p[1..][..|q[1..]| + 1] == p[..|q| + 1][1..];
          assert (q + [key])[1..] == q[1..] + [key];
        }
        assert !(p[1..] == q[1..] && k == key) by {
          if p[1..] == q[1..] { assert p == [p[0]] + p[1..] && q == [q[0]] + q[1..]; }
        }
        ClearKeepsKey(f[q[0]], q[1..], key, p[1..], k);
        assert Walk(m, p) == Walk(c, p[1..]);
      } else if p != [] {
        assert Walk(m, p) == Walk(f[p[0]], p[1..]);
      }
    }
  }

  lemma {:induction false} ClearPathsKeepsKey(n: Node, key: string, paths: seq<seq<string>>, p: seq<string>, k: string)
    requires ClearPaths(n, key, paths).1.None? && Holds(n, p, k)
    requires k != key && forall j :: 0 <= j < |paths| ==> !Through(p, paths[j], key)
    ensures Holds(ClearPaths(n, key, paths).0, p, k)
    decreases |paths|
  {
    if paths != [] {
      var init := paths[..|paths| - 1];
      assert forall j :: 0 <= j < |init| ==> init[j] == paths[j];
      ClearPathsKeepsKey(n, key, init, p, k);
      ClearKeepsKey(ClearPaths(n, key, init).0, paths[|paths| - 1], key, p, k);
    }
  }

  lemma {:induction false} ClearLabelsKeepsKey(n: Node, labels: seq<string>, paths: seq<seq<string>>, p: seq<string>, k: string)
    requires ClearLabels(n, labels, paths).1.None? && Holds(n, p, k) && k !in labels
    requires forall i, j :: 0 <= i < |labels| && 0 <= j < |paths| ==> !Through(p, paths[j], labels[i])
    ensures Holds(ClearLabels(n, labels, paths).0, p, k)
    decreases |labels|
  {
    if labels != [] {
      var init := labels[..|labels| - 1];
      var l := labels[|labels| - 1];
      assert forall i :: 0 <= i < |init| ==> init[i] == labels[i];
      ClearLabelsKeepsKey(n, init, paths, p, k);
      ClearPathsKeepsKey(ClearLabels(n, init, paths).0, l, paths, p, k);
    }
  }

  /** When the run succeeds, a key that is not a listed label stays in the
      mapping at a search path of every document that held it there, as long
      as no search path leads through a listed label at another search path. */
  lemma {:induction false} ClearDocsKeepsOtherKeys(docs: seq<Node>, labels: seq<string>, paths: seq<seq<string>>,
                                                   d: nat, p: seq<string>, k: string)
    requires ClearDocs(docs, labels, paths).1.None?
    requires d < |docs| && Holds(docs[d], p, k) && k !in labels
    requires forall i, j :: 0 <= i < |labels| && 0 <= j < |paths| ==> !Through(p, paths[j], labels[i])
    ensures Holds(ClearDocs(docs, labels, paths).0[d], p, k)
    decreases |docs|
  {
    var init := docs[..|docs| - 1];
    var last := docs[|docs| - 1];
    assert ClearDocs(init, labels, paths).1.None?;
    if d < |docs| - 1 {
      assert init[d] == docs[d];
      ClearDocsKeepsOtherKeys(init, labels, paths, d, p, k);
    } else {
      ClearLabelsKeepsKey(last, labels, paths, p, k);
    }
  }

  /** No default search path leads through a field at another one, whatever
      the label. */
  lemma DefaultPathsApart(p: seq<string>, key: string)
    requires p in DefaultPaths
    ensures forall j :: 0 <= j < |DefaultPaths| ==> !Through(p, DefaultPaths[j], key)
  {
    var a, b := DefaultPaths[0], DefaultPaths[1];
    assert !Through(a, a, key) && !Through(a, b, key) && !Through(b, b, key);
    assert !Through(b, a, key) by {
      assert b[..3] == ["spec", "template", "metadata"];
      assert (a + [key])[0] == "metadata";
    }
  }

  /** A label key that is a scalar at a search path makes the run fail: on a
      document `metadata: {labels: "x"}` clearing any label fails. */
  lemma ScalarLabelsFail(key: string)
    ensures var doc := Mapping(map["metadata" := Mapping(map["labels" := Scalar("x")])]);
            ClearDocs([doc], [key], DefaultPaths).1.Some?
  {
    var doc := Mapping(map["metadata" := Mapping(map["labels" := Scalar("x")])]);
    assert Walk(doc, ["metadata", "labels"]) == Some(Scalar("x"));
    ClearSpec(doc, ["metadata", "labels"], key);
    assert DefaultPaths[..1] == [["metadata", "labels"]];
    assert ClearPaths(doc, key, DefaultPaths[..1]).1.Some?;
    ClearPathsErrorSticks(doc, key, DefaultPaths, 1);
    assert ClearPaths(doc, key, DefaultPaths).1.Some?;
    assert [key][..0] == [];
    assert ClearLabels(doc, [key], DefaultPaths) == ClearPaths(doc, key, DefaultPaths);
    assert [doc][..0] == [];
  }

  /** A scalar met before the end of a search path fails the run too: on a
      document `spec: "x"` the default path spec.template.metadata.labels
      cannot be followed, whatever the label. */
  lemma ScalarOnPathFails(key: string)
    ensures var doc := Mapping(map["spec" := Scalar("x")]);
            ClearDocs([doc], [key], DefaultPaths).1.Some?
  {
    var doc := Mapping(map["spec" := Scalar("x")]);
    var p0, p1 := DefaultPaths[0], DefaultPaths[1];
    assert Clear(doc, p0, key) == Ok(doc);
    assert DefaultPaths[..1] == [p0] && [p0][..0] == [];
    assert ClearPaths(doc, key, DefaultPaths[..1]) == (doc, None);
    assert Clear(Scalar("x"), p1[1..], key).Err?;
    assert Clear(doc, p1, key).Err?;
    assert DefaultPaths[..2] == DefaultPaths;
    assert ClearPaths(doc, key, DefaultPaths).1.Some?;
    assert [key][..0] == [];
    assert ClearLabels(doc, [key], DefaultPaths) == ClearPaths(doc, key, DefaultPaths);
    assert [doc][..0] == [];
  }
}
