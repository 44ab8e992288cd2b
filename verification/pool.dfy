/**
 * The multi-call handle pool (private.c sdb_multi_alloc,
 * sdb_multi_free_one, sdb_multi_free_chain, sdb_multi_find): the chain
 * of handles in use, and a bounded free list of cleaned handles kept for
 * reuse. A curl easy handle is represented by a number; a fresh one is
 * taken from a counter.
 */
module Pool {
  import opened Wrappers
  import opened Params
  import opened Receive

  /** At most this many handles are kept for reuse (SDB_MAX_MULTI_FREE). */
  const MAX_FREE: nat := 256

  /**
   * One deferred call: its curl handle, its post body and size, what is
   * kept for a retry (command and parameters), the received data, and the
   * two user pointers sdb_multi_run uses: the result slot a retried call
   * fills (target) and the handle first issued for it (origin).
   */
  datatype Slot = Slot(handle: nat, post: Option<string>, command: string, params: Option<ParamSet>, rec: Buffer,
                       target: Option<nat>, origin: Option<nat>, postSize: nat)

  /** A handle ready for reuse: nothing of its last call remains. */
  predicate Clean(m: Slot)
  {
    m.post.None? && m.command == "" && m.params.None? && m.rec.data == [] && m.rec.Valid()
  }

  predicate DistinctHandles(s: seq<Slot>)
  {
    forall i, j :: 0 <= i < j < |s| ==> s[i].handle != s[j].handle
  }

  function Handles(s: seq<Slot>): set<nat>
  {
    set m | m in s :: m.handle
  }

  lemma DistinctCons(m: Slot, s: seq<Slot>)
    ensures DistinctHandles([m] + s) <==> m.handle !in Handles(s) && DistinctHandles(s)
    ensures Handles([m] + s) == {m.handle} + Handles(s)
  {
    var t := [m] + s;
    assert forall k :: 0 <= k < |s| ==> t[k + 1] == s[k];
    assert forall x :: x in t <==> x == m || x in s;
    if DistinctHandles(t) {
      forall k | 0 <= k < |s| ensures s[k].handle != m.handle {
        assert t[0].handle != t[k + 1].handle;
      }
      forall i, j | 0 <= i < j < |s| ensures s[i].handle != s[j].handle {
        assert t[i + 1].handle != t[j + 1].handle;
      }
    }
    if m.handle !in Handles(s) && DistinctHandles(s) {
      forall i, j | 0 <= i < j < |t| ensures t[i].handle != t[j].handle {
        if i == 0 {
          assert t[j] in s;
        } else {
          assert t[i] == s[i - 1] && t[j] == s[j - 1];
        }
      }
    }
  }

  datatype Pool = Pool(chain: seq<Slot>, free: seq<Slot>, freeSize: nat, nextHandle: nat)
  {
    /**
     * The free list's size is tracked exactly and bounded, its handles are
     * clean, no handle is in two places, and every handle was issued.
     */
    predicate Valid()
    {
      freeSize == |free| <= MAX_FREE
      && (forall i :: 0 <= i < |free| ==> Clean(free[i]))
      && DistinctHandles(chain) && DistinctHandles(free) && Handles(chain) !! Handles(free)
      && (forall h | h in Handles(chain) :: h < nextHandle)
      && (forall h | h in Handles(free) :: h < nextHandle)
    }
  }

  function Empty(): (p: Pool)
    ensures p.Valid() && p.chain == [] && p.free == []
  {
    Pool([], [], 0, 0)
  }

  /**
   * sdb_multi_alloc: reuse the head of the free list, or make a fresh
   * handle; either way the handle starts with no command and no
   * parameters and is pushed at the head of the chain.
   */
  function Alloc(p: Pool): (r: (Pool, Slot))
    requires p.Valid()
    ensures r.0.Valid()
    ensures r.0.chain == [r.1] + p.chain
    ensures r.1.command == "" && r.1.params.None? && r.1.post.None? && r.1.rec.data == []
    ensures r.1.handle !in Handles(p.chain)
    ensures |p.free| > 0 ==> r.1 == p.free[0] && r.0.free == p.free[1..] && r.0.nextHandle == p.nextHandle
    ensures |p.free| == 0 ==> r.1.handle == p.nextHandle && r.0.free == [] && r.0.nextHandle == p.nextHandle + 1
  {
    if |p.free| > 0 then
      var m := p.free[0];
      assert p.free == [m] + p.free[1..];
      DistinctCons(m, p.free[1..]);
      DistinctCons(m, p.chain);
      (Pool([m] + p.chain, p.free[1..], p.freeSize - 1, p.nextHandle), m)
    else
      var m := Slot(p.nextHandle, None, "", None, Fresh(), None, None, 0);
      DistinctCons(m, p.chain);
      (Pool([m] + p.chain, [], 0, p.nextHandle + 1), m)
  }

  /** A handle with its post, command, parameters and received data dropped. */
  function Cleaned(m: Slot): (c: Slot)
    ensures Clean(c) && c.handle == m.handle && c.rec.capacity >= m.rec.capacity
  {
    m.(post := None, command := "", params := None, rec := Buffer([], m.rec.capacity))
  }

  /**
   * sdb_multi_free_one: clean a handle and keep it for reuse, unless the
   * free list is full, in which case it is destroyed. The chain is not
   * touched; callers drop it afterwards.
   */
  function FreeOne(p: Pool, m: Option<Slot>): (r: Pool)
    ensures m.None? ==> r == p
    ensures r.chain == p.chain && r.nextHandle == p.nextHandle
    ensures m.Some? && p.freeSize >= MAX_FREE ==> r == p
    ensures m.Some? && p.freeSize < MAX_FREE ==>
      r.free == [Cleaned(m.value)] + p.free && r.freeSize == p.freeSize + 1
  {
    match m
    case None => p
    case Some(s) =>
      if p.freeSize >= MAX_FREE then p
      else p.(free := [Cleaned(s)] + p.free, freeSize := p.freeSize + 1)
  }

  /** Freeing an issued handle that is in neither list keeps the pool valid. */
  lemma FreeOneValid(p: Pool, m: Slot)
    requires p.Valid()
    requires m.handle < p.nextHandle && m.handle !in Handles(p.chain) && m.handle !in Handles(p.free)
    ensures FreeOne(p, Some(m)).Valid()
  {
    if p.freeSize < MAX_FREE {
      DistinctCons(Cleaned(m), p.free);
      var r := FreeOne(p, Some(m));
      assert forall k :: 0 <= k < |r.free| ==> Clean(r.free[k]) by {
        assert forall k :: 1 <= k < |r.free| ==> r.free[k] == p.free[k - 1];
      }
    }
  }

  /**
   * Reference definition of sdb_multi_free_chain followed by dropping the
   * chain: each handle of the chain, in order, freed with FreeOne.
   */
  function Released(p: Pool): (q: Pool)
    ensures q.chain == [] && q.nextHandle == p.nextHandle
    decreases |p.chain|
  {
    if |p.chain| == 0 then p
    else Released(FreeOne(p.(chain := p.chain[1..]), Some(p.chain[0])))
  }

  /**
   * sdb_multi_free_chain followed by dropping the chain: the loop over the
   * chain, freeing each handle in turn.
   */
  method FreeChain(p: Pool) returns (q: Pool)
    requires p.Valid()
    ensures q == Released(p) && q.Valid()
  {
    q := p;
    var i := 0;
    while i < |p.chain|
      invariant 0 <= i <= |p.chain|
      invariant q.chain == p.chain[i..]
      invariant Released(q) == Released(p)
    {
      var m := p.chain[i];
      var rest := q.(chain := p.chain[i + 1..]);
      ReleasedStep(q, rest, m);
      q := FreeOne(rest, Some(m));
      i := i + 1;
    }
    ReleasedValid(p);
  }

  /**
   * Releasing frees the handles in chain order: the free list grows by as
   * many as fit, and its size stays tracked exactly.
   */
  lemma {:induction false} ReleasedFreeSize(p: Pool)
    requires p.freeSize == |p.free| <= MAX_FREE
    ensures Released(p).freeSize == |Released(p).free|
    ensures Released(p).freeSize == if p.freeSize + |p.chain| <= MAX_FREE then p.freeSize + |p.chain| else MAX_FREE
    decreases |p.chain|
  {
    if |p.chain| > 0 {
      ReleasedFreeSize(FreeOne(p.(chain := p.chain[1..]), Some(p.chain[0])));
    }
  }

  /** The handles already free stay at the end of the free list, most recently freed first. */
  lemma {:induction false} ReleasedKeepsFreeList(p: Pool)
    requires p.freeSize == |p.free| <= MAX_FREE
    ensures |Released(p).free| >= |p.free|
    ensures Released(p).free[|Released(p).free| - |p.free|..] == p.free
    decreases |p.chain|
  {
    if |p.chain| > 0 {
      var r := FreeOne(p.(chain := p.chain[1..]), Some(p.chain[0]));
      ReleasedKeepsFreeList(r);
      var q := Released(p);
      assert q == Released(r);
      if p.freeSize < MAX_FREE {
        assert r.free == [Cleaned(p.chain[0])] + p.free;
        assert q.free[|q.free| - |p.free|..] == r.free[1..];
      }
    }
  }

  /** Releasing the chain is freeing its first handle, then releasing the rest. */
  lemma ReleasedStep(p: Pool, rest: Pool, m: Slot)
    requires p.chain == [m] + rest.chain && rest == p.(chain := rest.chain)
    ensures Released(p) == Released(FreeOne(rest, Some(m)))
  {
    assert p.(chain := p.chain[1..]) == rest;
  }

  /** Releasing a valid pool's chain keeps the pool valid. */
  lemma {:induction false} ReleasedValid(p: Pool)
    requires p.Valid()
    ensures Released(p).Valid()
    decreases |p.chain|
  {
    if |p.chain| > 0 {
      var m := p.chain[0];
      assert p.chain == [m] + p.chain[1..];
      DistinctCons(m, p.chain[1..]);
      var rest := p.(chain := p.chain[1..]);
      FreeOneValid(rest, m);
      ReleasedValid(FreeOne(rest, Some(m)));
    }
  }

  /**
   * Filling in the call just pushed on the chain: the head slot is
   * replaced by one with the same handle, and the pool stays valid.
   */
  function Fill(p: Pool, m: Slot): (q: Pool)
    requires p.Valid() && |p.chain| > 0 && m.handle == p.chain[0].handle
    ensures q.Valid() && q.chain == [m] + p.chain[1..] && q.free == p.free && q.nextHandle == p.nextHandle
    ensures Handles(q.chain) == Handles(p.chain)
  {
    assert p.chain == [p.chain[0]] + p.chain[1..];
    DistinctCons(p.chain[0], p.chain[1..]);
    DistinctCons(m, p.chain[1..]);
    p.(chain := [m] + p.chain[1..])
  }

  /**
   * sdb_multi_find: the first handle in the chain with the given curl
   * handle, or None.
   */
  function Find(chain: seq<Slot>, handle: nat): (r: Option<nat>)
    ensures r.Some? ==>
      r.value < |chain| && chain[r.value].handle == handle && forall j :: 0 <= j < r.value ==> chain[j].handle != handle
    ensures r.None? <==> forall j :: 0 <= j < |chain| ==> chain[j].handle != handle
  {
    if |chain| == 0 then None
    else if chain[0].handle == handle then Some(0)
    else
      match Find(chain[1..], handle)
      case None => None
      case Some(k) => Some(k + 1)
  }

  /** In a valid pool each handle of the chain is found at its own position. */
  lemma FindInValidChain(p: Pool, i: nat)
    requires p.Valid() && i < |p.chain|
    ensures Find(p.chain, p.chain[i].handle) == Some(i)
  {
  }

  /**
   * The failure path of sdb_execute_multi as written (private.c lines
   * 910-936): when curl refuses the handle just pushed on the chain, it
   * is freed without being unlinked. Freeing rewrites its link to point
   * at the free list, so the chain becomes that handle followed by the
   * free list, and the calls deferred before it drop out of the chain.
   */
  function AbandonAsWritten(p: Pool): (r: Pool)
    requires p.Valid()
    ensures r.chain == r.free
    ensures Handles(r.chain) !! Handles(p.chain)
  {
    var (q, m) := Alloc(p);
    var freed := FreeOne(q, Some(m));
    assert freed.free == [Cleaned(m)] + q.free;
    freed.(chain := freed.free)
  }

  /**
   * As written, the chain and the free list share every handle, and none
   * of the previously deferred calls is left in the chain.
   */
  lemma AbandonAsWrittenBreaksPool(p: Pool)
    requires p.Valid()
    ensures AbandonAsWritten(p).chain == AbandonAsWritten(p).free
    ensures !AbandonAsWritten(p).Valid()
    ensures Handles(AbandonAsWritten(p).chain) !! Handles(p.chain)
  {
    var (q, m) := Alloc(p);
    var r := AbandonAsWritten(p);
    assert r.free == [Cleaned(m)] + q.free;
    DistinctCons(Cleaned(m), q.free);
    assert m.handle in Handles(r.chain) && m.handle in Handles(r.free);
  }

  /**
   * The corrected failure path: unlink the handle, then free it. The
   * chain is as before the call, and the pool stays valid.
   */
  function Abandon(p: Pool): (r: Pool)
    requires p.Valid()
    ensures r.Valid() && r.chain == p.chain
    ensures |r.free| == |p.free| || |r.free| == |p.free| + 1
  {
    var (q, m) := Alloc(p);
    DistinctCons(m, p.chain);
    assert m.handle !in Handles(q.free) by {
      if |p.free| > 0 {
        assert p.free == [m] + p.free[1..];
        DistinctCons(m, p.free[1..]);
      }
    }
    var unlinked := q.(chain := p.chain);
    FreeOneValid(unlinked, m);
    FreeOne(unlinked, Some(m))
  }
}
