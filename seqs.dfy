/** Order-preserving selection over sequences, used wherever the source appends
    the elements of a slice that pass a test to a new slice. */
module Seqs {

  /** The elements of `s` that satisfy `p`, in the order of `s`. */
  function Filter<T>(s: seq<T>, p: T -> bool): (r: seq<T>)
    ensures |r| <= |s|
  {
    if s == [] then [] else (if p(s[0]) then [s[0]] else []) + Filter(s[1..], p)
  }

  lemma {:induction false} FilterMember<T>(s: seq<T>, p: T -> bool, x: T)
    ensures x in Filter(s, p) <==> x in s && p(x)
  {
    if s != [] {
      FilterMember(s[1..], p, x);
      assert s == [s[0]] + s[1..];
    }
  }

  /** Selection distributes over concatenation: what comes first in the input
      comes first in the output. */
  lemma {:induction false} FilterConcat<T>(s: seq<T>, t: seq<T>, p: T -> bool)
    ensures Filter(s + t, p) == Filter(s, p) + Filter(t, p)
  {
    if s == [] {
      assert s + t == t;
    } else {
      var st := s + t;
      assert st[0] == s[0];
      assert st[1..] == s[1..] + t;
      calc {
        Filter(st, p);
        (if p(s[0]) then [s[0]] else []) + Filter(s[1..] + t, p);
        { FilterConcat(s[1..], t, p); }
        (if p(s[0]) then [s[0]] else []) + (Filter(s[1..], p) + Filter(t, p));
      }
    }
  }

  lemma {:induction false} FilterAll<T>(s: seq<T>, p: T -> bool)
    requires forall i :: 0 <= i < |s| ==> p(s[i])
    ensures Filter(s, p) == s
  {
    if s != [] {
      FilterAll(s[1..], p);
    }
  }

  lemma {:induction false} FilterNone<T>(s: seq<T>, p: T -> bool)
    requires forall i :: 0 <= i < |s| ==> !p(s[i])
    ensures Filter(s, p) == []
  {
    if s != [] {
      FilterNone(s[1..], p);
    }
  }

  /** Appending one element extends the selection by that element or by nothing. */
  lemma FilterSnoc<T>(s: seq<T>, x: T, p: T -> bool)
    ensures Filter(s + [x], p) == Filter(s, p) + (if p(x) then [x] else [])
  {
    FilterConcat(s, [x], p);
  }

  predicate NoDuplicates<T(==)>(s: seq<T>) {
    forall i, j :: 0 <= i < j < |s| ==> s[i] != s[j]
  }

  lemma {:induction false} FilterNoDuplicates<T>(s: seq<T>, p: T -> bool)
    requires NoDuplicates(s)
    ensures NoDuplicates(Filter(s, p))
  {
    if s != [] {
      FilterNoDuplicates(s[1..], p);
      FilterMember(s[1..], p, s[0]);
    }
  }

  /** The position of the first occurrence of `x` in `s`. */
  function Pos<T(==)>(s: seq<T>, x: T): (i: nat)
    requires x in s
    ensures i < |s| && s[i] == x
    ensures forall j :: 0 <= j < i ==> s[j] != x
  {
    if s[0] == x then 0 else 1 + Pos(s[1..], x)
  }

  /** Selection keeps the relative order of the input: of two selected
      elements, the earlier one stands earlier in the input. */
  lemma {:induction false} FilterKeepsOrder<T>(s: seq<T>, p: T -> bool, i: nat, j: nat)
    requires NoDuplicates(s)
    requires i < j < |Filter(s, p)|
    ensures Filter(s, p)[i] in s && Filter(s, p)[j] in s
    ensures Pos(s, Filter(s, p)[i]) < Pos(s, Filter(s, p)[j])
  {
    var r := Filter(s, p);
    var t := Filter(s[1..], p);
    assert NoDuplicates(s[1..]);
    if p(s[0]) {
      assert r == [s[0]] + t;
      FilteredTail(s, p, j - 1);
      if i > 0 {
        FilteredTail(s, p, i - 1);
        FilterKeepsOrder(s[1..], p, i - 1, j - 1);
      }
    } else {
      assert r == t;
      FilteredTail(s, p, i);
      FilteredTail(s, p, j);
      FilterKeepsOrder(s[1..], p, i, j);
    }
  }

  /** A selected element of the tail is not the head, and stands one place
      further in `s` than in the tail. */
  lemma FilteredTail<T>(s: seq<T>, p: T -> bool, k: nat)
    requires NoDuplicates(s) && s != []
    requires k < |Filter(s[1..], p)|
    ensures var x := Filter(s[1..], p)[k];
            x in s[1..] && x in s && x != s[0] && Pos(s, x) == 1 + Pos(s[1..], x)
  {
    var x := Filter(s[1..], p)[k];
    FilterMember(s[1..], p, x);
    var m := Pos(s[1..], x);
    assert s[m + 1] == x;
  }

  /** A sequence is its prefix followed by its suffix. */
  lemma SplitAt<T>(s: seq<T>, k: nat)
    requires k <= |s|
    ensures s == s[..k] + s[k..]
  {
  }
}
