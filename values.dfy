/** Helm chart values (chartutil.Values): a map from keys to YAML values, and
    the key-wise deep merge that Flux's transform.MergeMaps performs. */
module Values {

  datatype Value =
    | VMap(m: map<string, Value>)
    | VList(items: seq<Value>)
    | VString(s: string)
    | VBool(b: bool)
    | VNumber(n: int)
    | VNull

  type Values = map<string, Value>

  /** transform.MergeMaps(a, b): every key of either side; where both sides hold
      a map under a key the two maps are merged recursively, otherwise `b`'s
      value wins over `a`'s. */
  function MergeMaps(a: Values, b: Values): (r: Values)
    ensures r.Keys == a.Keys + b.Keys
    decreases VMap(b), 1
  {
    map k | k in a.Keys + b.Keys ::
      if k in b then (if k in a then MergeValue(a[k], b[k]) else b[k]) else a[k]
  }

  /** The value MergeMaps stores under a key both sides hold. */
  function MergeValue(x: Value, y: Value): Value
    decreases y, 2
  {
    if x.VMap? && y.VMap? then VMap(MergeMaps(x.m, y.m)) else y
  }

  /** Right side wins: a key of `b` keeps `b`'s value unless both sides hold a
      map there; a key only `a` holds keeps `a`'s value. */
  lemma MergeRightWins(a: Values, b: Values, k: string)
    ensures k in b && !(k in a && a[k].VMap? && b[k].VMap?) ==> MergeMaps(a, b)[k] == b[k]
    ensures k in a && k !in b ==> MergeMaps(a, b)[k] == a[k]
    ensures k in a && k in b && a[k].VMap? && b[k].VMap? ==>
              MergeMaps(a, b)[k] == VMap(MergeMaps(a[k].m, b[k].m))
  {
  }

  /** `r` holds every leaf of `v`: every key of `v` is in `r`, maps inside `v`
      are maps in `r` that hold their leaves, and every other value is equal. */
  predicate Subsumes(r: Values, v: Values)
    decreases VMap(v)
  {
    forall k :: k in v ==>
      k in r && (if v[k].VMap? then r[k].VMap? && Subsumes(r[k].m, v[k].m) else r[k] == v[k])
  }

  /** The later side of a merge wins everywhere it says something: whatever
      `a` holds, the merge holds every leaf of `b`. */
  lemma {:induction false} MergeSubsumesRight(a: Values, b: Values)
    ensures Subsumes(MergeMaps(a, b), b)
    decreases VMap(b)
  {
    var r := MergeMaps(a, b);
    forall k | k in b
      ensures k in r && (if b[k].VMap? then r[k].VMap? && Subsumes(r[k].m, b[k].m) else r[k] == b[k])
    {
      assert r[k] == if k in a then MergeValue(a[k], b[k]) else b[k];
      if b[k].VMap? {
        if k in a && a[k].VMap? {
          MergeSubsumesRight(a[k].m, b[k].m);
        } else {
          SubsumesReflexive(b[k].m);
        }
      }
    }
  }

  lemma {:induction false} SubsumesReflexive(v: Values)
    ensures Subsumes(v, v)
    decreases VMap(v)
  {
    forall k | k in v && v[k].VMap? ensures Subsumes(v[k].m, v[k].m) {
      SubsumesReflexive(v[k].m);
    }
  }

  /** An empty map is a neutral element on either side. */
  lemma MergeEmpty(a: Values)
    ensures MergeMaps(map[], a) == a
    ensures MergeMaps(a, map[]) == a
  {
  }

  /** Merging the same source again changes nothing. */
  lemma {:induction false} MergeIdempotentRight(a: Values, b: Values)
    ensures MergeMaps(MergeMaps(a, b), b) == MergeMaps(a, b)
    decreases VMap(b)
  {
    var r := MergeMaps(a, b);
    forall k | k in b ensures MergeValue(r[k], b[k]) == r[k] {
      if k in a && a[k].VMap? && b[k].VMap? {
        MergeIdempotentRight(a[k].m, b[k].m);
      } else if b[k].VMap? {
        MergeSelf(b[k].m);
      }
    }
  }

  /** Merging a map with itself gives it back. */
  lemma {:induction false} MergeSelf(a: Values)
    ensures MergeMaps(a, a) == a
    decreases VMap(a)
  {
    forall k | k in a ensures MergeValue(a[k], a[k]) == a[k] {
      if a[k].VMap? {
        MergeSelf(a[k].m);
      }
    }
  }

  /** The merge is not associative, so the order in which sources are folded
      matters: a map, then a scalar, then a map keeps only the last map when
      folded left to right, and both maps when the last two are merged first. */
  lemma MergeNotAssociative()
    ensures var x, y, z := map["k" := VMap(map["a" := VNumber(1)])], map["k" := VNumber(5)],
                         map["k" := VMap(map["b" := VNumber(2)])];
            MergeMaps(MergeMaps(x, y), z) != MergeMaps(x, MergeMaps(y, z))
  {
    var x, y, z := map["k" := VMap(map["a" := VNumber(1)])], map["k" := VNumber(5)],
                   map["k" := VMap(map["b" := VNumber(2)])];
    assert MergeMaps(x, y)["k"] == VNumber(5);
    assert MergeMaps(MergeMaps(x, y), z)["k"] == VMap(map["b" := VNumber(2)]);
    assert MergeMaps(y, z)["k"] == VMap(map["b" := VNumber(2)]);
    var yz := MergeMaps(y, z);
    var r := MergeMaps(x, yz);
    assert "k" in x && "k" in yz;
    assert r["k"] == MergeValue(x["k"], yz["k"]);
    assert r["k"] == VMap(MergeMaps(map["a" := VNumber(1)], map["b" := VNumber(2)]));
    assert "a" in r["k"].m;
  }
}
