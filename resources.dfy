/** The resource store the whole tool works on: kustomize's ResMap, an ordered
    collection of documents that is unique by identity (group/version/kind,
    namespace, name). Only the operations the core uses are modelled: lookup by
    identity, Append/AppendAll (a duplicate identity is an error) and
    AbsorbAll (a duplicate identity without a merge or replace behaviour is
    refused, and absorbing stops there). */
module Resources {
  import opened Wrappers
  import opened Yaml
  import Seqs

  datatype Gvk = Gvk(group: string, version: string, kind: string)

  /** The apiVersion field a Gvk is written as. */
  function ApiVersion(g: Gvk): string {
    if g.group == "" then g.version else g.group + "/" + g.version
  }

  datatype ResId = ResId(gvk: Gvk, namespace: string, name: string)

  datatype Resource = Resource(id: ResId, body: Node)

  function Ids(s: seq<Resource>): (ids: seq<ResId>)
    ensures |ids| == |s| && forall i :: 0 <= i < |s| ==> ids[i] == s[i].id
  {
    seq(|s|, i requires 0 <= i < |s| => s[i].id)
  }

  predicate UniqueIds(s: seq<Resource>) {
    forall i, j :: 0 <= i < j < |s| ==> s[i].id != s[j].id
  }

  /** A store never holds two documents with one identity. */
  type Store = s: seq<Resource> | UniqueIds(s) witness []

  lemma StoreIdsDistinct(s: Store)
    ensures Seqs.NoDuplicates(Ids(s))
  {
  }

  /** The position of the document with identity `id`. */
  function IndexOfId(s: seq<Resource>, id: ResId): (i: nat)
    requires id in Ids(s)
    ensures i < |s| && s[i].id == id
    ensures forall j :: 0 <= j < i ==> s[j].id != id
  {
    if s[0].id == id then 0
    else
      assert Ids(s) == [s[0].id] + Ids(s[1..]);
      1 + IndexOfId(s[1..], id)
  }

  /** GetById / GetByCurrentId: the document with that identity, or None where
      the store reports "not found". */
  function Get(s: Store, id: ResId): (r: Option<Resource>)
    ensures r.None? <==> id !in Ids(s)
    ensures forall i :: 0 <= i < |s| && s[i].id == id ==> r == Some(s[i])
  {
    if id in Ids(s) then Some(s[IndexOfId(s, id)]) else None
  }

  /** Append: a new identity goes at the end; a known identity is refused. */
  function Append(s: Store, r: Resource): (out: Result<Store>)
    ensures out.Ok? <==> r.id !in Ids(s)
    ensures out.Ok? ==> out.value == s + [r]
  {
    if r.id in Ids(s) then Result<Store>.Err("may not add resource with an already registered id")
    else
      var t := s + [r];
      assert UniqueIds(t) by {
        forall i, j | 0 <= i < j < |t| ensures t[i].id != t[j].id {
          if j == |s| { assert Ids(s)[i] == s[i].id; }
        }
      }
      Result<Store>.Ok(t)
  }

  /** AppendAll: appends every document of `t` in order, stopping at the first
      identity that is already present. */
  function AppendAll(s: Store, t: Store): (out: Result<Store>)
    decreases |t|
  {
    if t == [] then Ok(s)
    else
      match Append(s, t[0])
      case Err(e) => Err(e)
      case Ok(s') => AppendAll(s', t[1..])
  }

  /** AppendAll succeeds exactly when the two stores share no identity, and then
      it is concatenation. */
  lemma {:induction false} AppendAllDisjoint(s: Store, t: Store)
    ensures AppendAll(s, t).Ok? <==> (forall i :: 0 <= i < |t| ==> t[i].id !in Ids(s))
    ensures AppendAll(s, t).Ok? ==> AppendAll(s, t).value == s + t
    decreases |t|
  {
    if t != [] {
      if t[0].id !in Ids(s) {
        var s' := s + [t[0]];
        AppendAllDisjoint(s', t[1..]);
        assert Ids(s') == Ids(s) + [t[0].id];
        forall i | 1 <= i < |t| ensures t[i].id != t[0].id { }
        assert s' + t[1..] == s + t;
        assert (forall i :: 0 <= i < |t| ==> t[i].id !in Ids(s))
          <==> (forall i :: 0 <= i < |t[1..]| ==> t[1..][i].id !in Ids(s'));
      }
    }
  }

  /** The error AbsorbAll gives for a document whose identity the store already
      holds and which asks for neither merging nor replacing. */
  const ABSORB_COLLISION := "exists; behavior must be merge or replace"

  /** Absorb one document that carries no merge or replace behaviour: a new
      identity is appended; a known identity is refused, and the store keeps
      the document it holds. */
  function Absorb(s: Store, r: Resource): (out: Result<Store>)
    ensures out.Err? <==> r.id in Ids(s)
    ensures out.Ok? ==> out.value == s + [r]
  {
    if r.id in Ids(s) then Err("id " + ABSORB_COLLISION) else Append(s, r)
  }

  /** Absorbing a new identity makes it find `r`, and every other identity
      finds what it found before; absorbing a known identity is refused while
      that identity still finds the stored document. */
  lemma AbsorbGet(s: Store, r: Resource, id: ResId)
    ensures Absorb(s, r).Err? <==> Get(s, r.id).Some?
    ensures Absorb(s, r).Ok? ==>
      Get(Absorb(s, r).value, id) == if id == r.id then Some(r) else Get(s, id)
  {
    if r.id !in Ids(s) {
      var out := Absorb(s, r).value;
      assert Ids(out) == Ids(s) + [r.id];
      if id == r.id {
        assert out[|s|].id == id;
      } else if id in Ids(s) {
        var i := IndexOfId(s, id);
        assert out[i] == s[i];
      }
    }
  }

  /** AbsorbAll: absorbs the documents of `t` one by one, in order, and stops at
      the first one refused; what was absorbed before it stays in the store. */
  function AbsorbAll(s: Store, t: Store): (Store, Option<string>)
    decreases |t|
  {
    if t == [] then (s, None)
    else
      match Absorb(s, t[0])
      case Err(e) => (s, Some(e))
      case Ok(s') => AbsorbAll(s', t[1..])
  }

  /** The position of the first document of `t` whose identity `s` holds, or
      the length of `t` when there is none. */
  function FirstCollision(s: Store, t: seq<Resource>): (k: nat)
    ensures k <= |t|
    ensures k < |t| ==> t[k].id in Ids(s)
    ensures forall j :: 0 <= j < k ==> t[j].id !in Ids(s)
    decreases |t|
  {
    if t == [] then 0
    else if t[0].id in Ids(s) then 0
    else 1 + FirstCollision(s, t[1..])
  }

  /** AbsorbAll keeps the whole of `s` and appends the documents of `t` up to
      its first collision with `s`, after which nothing more is absorbed; the
      error is reported exactly when there was a collision. */
  lemma {:induction false} AbsorbAllPrefix(s: Store, t: Store)
    ensures var k := FirstCollision(s, t);
      AbsorbAll(s, t) == (s + t[..k], if k < |t| then Some("id " + ABSORB_COLLISION) else None)
    decreases |t|
  {
    if t != [] && t[0].id !in Ids(s) {
      var s': Store := s + [t[0]];
      var rest: Store := t[1..];
      AbsorbAllPrefix(s', rest);
      assert Ids(s') == Ids(s) + [t[0].id];
      forall j | 0 <= j < |rest| ensures rest[j].id in Ids(s') <==> rest[j].id in Ids(s) {
        assert rest[j] == t[j + 1];
      }
      FirstCollisionSame(s', s, rest);
      var k := FirstCollision(s, t);
      assert k == 1 + FirstCollision(s', rest);
      assert AbsorbAll(s, t) == AbsorbAll(s', rest);
      assert s' + rest[..k - 1] == s + t[..k];
    } else {
      assert s + t[..0] == s;
    }
  }

  lemma {:induction false} FirstCollisionSame(s1: Store, s2: Store, t: seq<Resource>)
    requires forall j :: 0 <= j < |t| ==> (t[j].id in Ids(s1) <==> t[j].id in Ids(s2))
    ensures FirstCollision(s1, t) == FirstCollision(s2, t)
    decreases |t|
  {
    if t != [] && t[0].id !in Ids(s1) {
      FirstCollisionSame(s1, s2, t[1..]);
    }
  }

  /** After AbsorbAll, an identity `s` held still finds the document of `s`; an
      identity among the documents of `t` before the first collision finds
      `t`'s document; every other identity, those of `t` after the collision
      included, is not found. */
  lemma AbsorbAllGet(s: Store, t: Store, id: ResId)
    ensures var k := FirstCollision(s, t);
      Get(AbsorbAll(s, t).0, id) ==
        if id in Ids(s) then Get(s, id) else if id in Ids(t[..k]) then Get(t, id) else None
  {
    AbsorbAllPrefix(s, t);
    var k := FirstCollision(s, t);
    var out := AbsorbAll(s, t).0;
    assert Ids(out) == Ids(s) + Ids(t[..k]);
    if id in Ids(s) {
      var i := IndexOfId(s, id);
      assert out[i] == s[i];
    } else if id in Ids(t[..k]) {
      var i := IndexOfId(t[..k], id);
      assert out[|s| + i] == t[i];
    }
  }

  /** The identities after AbsorbAll are those of `s` and those of `t` before
      its first collision with `s`. */
  lemma AbsorbAllIds(s: Store, t: Store, id: ResId)
    ensures id in Ids(AbsorbAll(s, t).0) <==> id in Ids(s) || id in Ids(t[..FirstCollision(s, t)])
  {
    AbsorbAllPrefix(s, t);
    assert Ids(AbsorbAll(s, t).0) == Ids(s) + Ids(t[..FirstCollision(s, t)]);
  }
}
