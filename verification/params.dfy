/**
 * Parameter sets (private.c, sdb_params_*): a fixed-capacity, append-only
 * sequence of key/value pairs. Every pair records the set that owns its
 * strings: pairs added one by one are copies owned by the set itself,
 * pairs taken over from another set stay owned by that set, and freeing a
 * set releases only the strings it owns.
 */
module Params {
  import opened Wrappers
  import opened Errors

  /** A key/value pair and the identity of the set whose copy it is. */
  datatype Pair = Pair(key: string, value: string, owner: nat)

  /**
   * A parameter set: its identity (the C pointer), its pairs and the
   * capacity it was allocated with.
   */
  datatype ParamSet = ParamSet(id: nat, pairs: seq<Pair>, capacity: nat)
  {
    /** Every way of building a set keeps it within its capacity. */
    predicate Valid()
    {
      |pairs| <= capacity
    }
  }

  /** A status code together with the set it leaves behind. */
  datatype Step = Step(code: int, params: ParamSet)

  /** The keys and values of a pair sequence, forgetting ownership. */
  function Entries(ps: seq<Pair>): (r: seq<(string, string)>)
    ensures |r| == |ps|
  {
    seq(|ps|, i requires 0 <= i < |ps| => (ps[i].key, ps[i].value))
  }

  lemma EntriesAppend(a: seq<Pair>, b: seq<Pair>)
    ensures Entries(a + b) == Entries(a) + Entries(b)
  {
  }

  /** sdb_params_alloc. */
  function Alloc(id: nat, capacity: nat): (r: ParamSet)
    ensures r.Valid() && r.pairs == [] && r.id == id && r.capacity == capacity
  {
    ParamSet(id, [], capacity)
  }

  /**
   * sdb_params_add: refuses a full set and leaves it untouched; otherwise
   * appends a copy owned by the set.
   */
  function Add(ps: ParamSet, key: string, value: string): (r: Step)
    ensures |ps.pairs| >= ps.capacity ==> r == Step(CAPACITY_TOO_SMALL, ps)
    ensures |ps.pairs| < ps.capacity ==>
      r.code == OK && r.params.id == ps.id && r.params.capacity == ps.capacity
      && |r.params.pairs| == |ps.pairs| + 1
      && r.params.pairs[..|ps.pairs|] == ps.pairs
      && r.params.pairs[|ps.pairs|] == Pair(key, value, ps.id)
    ensures ps.Valid() ==> r.params.Valid()
  {
    if ps.capacity <= |ps.pairs| then Step(CAPACITY_TOO_SMALL, ps)
    else Step(OK, ps.(pairs := ps.pairs + [Pair(key, value, ps.id)]))
  }

  /** other's pairs as they appear once borrowed: same strings, owned by other. */
  function Borrowed(other: ParamSet): (r: seq<Pair>)
    ensures Entries(r) == Entries(other.pairs)
    ensures forall i :: 0 <= i < |r| ==> r[i].owner == other.id
  {
    seq(|other.pairs|, i requires 0 <= i < |other.pairs| => other.pairs[i].(owner := other.id))
  }

  /**
   * sdb_params_add_all: refuses when the combined size exceeds the
   * capacity; otherwise appends other's pairs, in order, without copying.
   */
  function AddAll(ps: ParamSet, other: ParamSet): (r: Step)
    ensures ps.capacity < |ps.pairs| + |other.pairs| ==> r == Step(CAPACITY_TOO_SMALL, ps)
    ensures |ps.pairs| + |other.pairs| <= ps.capacity ==>
      r.code == OK && r.params.id == ps.id && r.params.capacity == ps.capacity
      && Entries(r.params.pairs) == Entries(ps.pairs) + Entries(other.pairs)
      && r.params.pairs[..|ps.pairs|] == ps.pairs
      && (forall i :: |ps.pairs| <= i < |r.params.pairs| ==> r.params.pairs[i].owner == other.id)
    ensures ps.Valid() ==> r.params.Valid()
  {
    if ps.capacity < |ps.pairs| + |other.pairs| then Step(CAPACITY_TOO_SMALL, ps)
    else
      var r := ps.(pairs := ps.pairs + Borrowed(other));
      EntriesAppend(ps.pairs, Borrowed(other));
      assert r.pairs[..|ps.pairs|] == ps.pairs;
      Step(OK, r)
  }

  /** The pairs of a sequence owned by id, in order. */
  function OwnedBy(ps: seq<Pair>, id: nat): (r: seq<Pair>)
    ensures forall p :: p in r <==> p in ps && p.owner == id
    ensures |r| <= |ps|
  {
    if |ps| == 0 then []
    else (if ps[0].owner == id then [ps[0]] else []) + OwnedBy(ps[1..], id)
  }

  lemma {:induction false} OwnedByAppend(a: seq<Pair>, b: seq<Pair>, id: nat)
    ensures OwnedBy(a + b, id) == OwnedBy(a, id) + OwnedBy(b, id)
  {
    if |a| == 0 {
      assert a + b == b;
    } else {
      assert (a + b)[1..] == a[1..] + b;
      OwnedByAppend(a[1..], b, id);
    }
  }

  /** sdb_params_free: the pairs whose strings are released. */
  function Free(ps: ParamSet): (freed: seq<Pair>)
    ensures forall p :: p in freed <==> p in ps.pairs && p.owner == ps.id
  {
    OwnedBy(ps.pairs, ps.id)
  }

  /**
   * Adding a pair makes it the last pair freed; taking over another set's
   * pairs frees nothing more, so neither set's strings are released twice.
   */
  lemma FreeAfterAdd(ps: ParamSet, key: string, value: string)
    requires |ps.pairs| < ps.capacity
    ensures Free(Add(ps, key, value).params) == Free(ps) + [Pair(key, value, ps.id)]
  {
    OwnedByAppend(ps.pairs, [Pair(key, value, ps.id)], ps.id);
  }

  lemma FreeAfterAddAll(ps: ParamSet, other: ParamSet)
    requires other.id != ps.id
    ensures Free(AddAll(ps, other).params) == Free(ps)
    ensures forall p :: p in Free(AddAll(ps, other).params) ==> p !in Free(other)
  {
    if |ps.pairs| + |other.pairs| <= ps.capacity {
      OwnedByAppend(ps.pairs, Borrowed(other), ps.id);
      OwnedByNone(Borrowed(other), ps.id);
    }
  }

  lemma {:induction false} OwnedByNone(ps: seq<Pair>, id: nat)
    requires forall i :: 0 <= i < |ps| ==> ps[i].owner != id
    ensures OwnedBy(ps, id) == []
  {
    if |ps| > 0 {
      OwnedByNone(ps[1..], id);
    }
  }

  /** The loop of sdb_params_deep_copy: add every pair, ignoring refusals. */
  function AddEach(acc: ParamSet, ps: seq<Pair>): (r: ParamSet)
    ensures r.id == acc.id && r.capacity == acc.capacity
    ensures acc.Valid() ==> r.Valid()
    decreases |ps|
  {
    if |ps| == 0 then acc
    else AddEach(Add(acc, ps[0].key, ps[0].value).params, ps[1..])
  }

  /** sdb_params_deep_copy: NULL stays NULL; otherwise a fresh set, id, of the same capacity. */
  function DeepCopy(p: Option<ParamSet>, id: nat): (r: Option<ParamSet>)
    ensures p.None? <==> r.None?
    ensures p.Some? ==> r.value.id == id && r.value.capacity == p.value.capacity
  {
    match p
    case None => None
    case Some(ps) => Some(AddEach(Alloc(id, ps.capacity), ps.pairs))
  }

  lemma {:induction false} AddEachCopies(acc: ParamSet, ps: seq<Pair>)
    requires |acc.pairs| + |ps| <= acc.capacity
    ensures Entries(AddEach(acc, ps).pairs) == Entries(acc.pairs) + Entries(ps)
    ensures AddEach(acc, ps).pairs[..|acc.pairs|] == acc.pairs
    ensures forall i :: |acc.pairs| <= i < |AddEach(acc, ps).pairs| ==> AddEach(acc, ps).pairs[i].owner == acc.id
    decreases |ps|
  {
    if |ps| > 0 {
      var next := Add(acc, ps[0].key, ps[0].value).params;
      AddEachCopies(next, ps[1..]);
      assert ps == [ps[0]] + ps[1..];
      EntriesAppend([ps[0]], ps[1..]);
      EntriesAppend(acc.pairs, [next.pairs[|acc.pairs|]]);
      assert next.pairs == acc.pairs + [next.pairs[|acc.pairs|]];
    }
  }

  /**
   * A deep copy of a valid set has the same capacity and the same
   * key/value sequence, and owns every one of its pairs.
   */
  lemma DeepCopyFaithful(ps: ParamSet, id: nat)
    requires ps.Valid()
    ensures DeepCopy(Some(ps), id).Some?
    ensures Entries(DeepCopy(Some(ps), id).value.pairs) == Entries(ps.pairs)
    ensures Free(DeepCopy(Some(ps), id).value) == DeepCopy(Some(ps), id).value.pairs
  {
    var c := DeepCopy(Some(ps), id).value;
    AddEachCopies(Alloc(id, ps.capacity), ps.pairs);
    OwnedByAll(c.pairs, id);
  }

  lemma {:induction false} OwnedByAll(ps: seq<Pair>, id: nat)
    requires forall i :: 0 <= i < |ps| ==> ps[i].owner == id
    ensures OwnedBy(ps, id) == ps
  {
    if |ps| > 0 {
      OwnedByAll(ps[1..], id);
      assert ps == [ps[0]] + ps[1..];
    }
  }

  /**
   * sdb_params_add_required: SignatureVersion, Version and AWSAccessKeyId,
   * stopping at the first refusal.
   */
  function AddRequired(ps: ParamSet, sigVersion: string, accessKey: string): (r: Step)
    ensures |ps.pairs| + 3 <= ps.capacity ==>
      r.code == OK && r.params.id == ps.id && r.params.capacity == ps.capacity
      && Entries(r.params.pairs) == Entries(ps.pairs)
        + [("SignatureVersion", sigVersion), ("Version", "2007-11-07"), ("AWSAccessKeyId", accessKey)]
    ensures ps.capacity < |ps.pairs| + 3 ==> r.code == CAPACITY_TOO_SMALL
    ensures ps.Valid() ==> r.params.Valid()
  {
    var s1 := Add(ps, "SignatureVersion", sigVersion);
    if Failed(s1.code) then s1
    else
      var s2 := Add(s1.params, "Version", "2007-11-07");
      if Failed(s2.code) then s2
      else
        var s3 := Add(s2.params, "AWSAccessKeyId", accessKey);
        if Failed(s3.code) then s3
        else
          assert s3.params.pairs == ps.pairs + s3.params.pairs[|ps.pairs|..];
          EntriesAppend(ps.pairs, s3.params.pairs[|ps.pairs|..]);
          s3
  }
}
