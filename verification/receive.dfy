/**
 * The receive buffer curl writes a response body into (private.c
 * sdb_write_callback). The buffer's bytes beyond its size are not
 * modelled; data is what has been received since the last reset.
 */
module Receive {
  /** The initial capacity of a handle's receive buffer (sdb.c, private.c). */
  const INITIAL_CAPACITY: nat := 64 * 1024

  datatype Buffer = Buffer(data: string, capacity: nat)
  {
    predicate Valid()
    {
      |data| <= capacity
    }
  }

  function Fresh(): (b: Buffer)
    ensures b.Valid() && b.data == [] && b.capacity == INITIAL_CAPACITY
  {
    Buffer([], INITIAL_CAPACITY)
  }

  /** Reset before a transfer: the size returns to 0, the capacity is kept. */
  function Reset(b: Buffer): (a: Buffer)
    ensures a.Valid() && a.data == [] && a.capacity == b.capacity
  {
    b.(data := [])
  }

  /**
   * sdb_write_callback: append a chunk, first growing the buffer to
   * twice the needed size plus 4096 when it does not fit; every byte is
   * taken.
   */
  function Write(b: Buffer, chunk: string): (r: (Buffer, nat))
    requires b.Valid()
    ensures r.0.Valid() && r.0.data == b.data + chunk && r.1 == |chunk|
    ensures |b.data| + |chunk| <= b.capacity ==> r.0.capacity == b.capacity
    ensures |b.data| + |chunk| > b.capacity ==> r.0.capacity == 2 * |r.0.data| + 4096
  {
    var needed := |b.data| + |chunk|;
    var capacity := if needed > b.capacity then 2 * needed + 4096 else b.capacity;
    (Buffer(b.data + chunk, capacity), |chunk|)
  }

  function Concat(chunks: seq<string>): string
  {
    if |chunks| == 0 then [] else Concat(chunks[..|chunks| - 1]) + chunks[|chunks| - 1]
  }

  /**
   * A transfer delivering chunks one callback at a time: the buffer ends
   * with exactly the concatenated chunks, and it never grows beyond
   * about twice what it holds.
   */
  method ReceiveAll(chunks: seq<string>, start: Buffer) returns (b: Buffer, taken: nat)
    requires start.Valid()
    ensures b.Valid() && b.data == start.data + Concat(chunks)
    ensures taken == |Concat(chunks)|
    ensures b.capacity == start.capacity || b.capacity <= 2 * |b.data| + 4096
    ensures b.capacity >= start.capacity
  {
    b, taken := start, 0;
    var i := 0;
    while i < |chunks|
      invariant 0 <= i <= |chunks|
      invariant b.Valid() && b.data == start.data + Concat(chunks[..i])
      invariant taken == |Concat(chunks[..i])|
      invariant b.capacity == start.capacity || b.capacity <= 2 * |b.data| + 4096
      invariant b.capacity >= start.capacity
    {
      var r := Write(b, chunks[i]);
      assert chunks[..i + 1][..i] == chunks[..i];
      b, taken := r.0, taken + r.1;
      i := i + 1;
    }
    assert chunks[..i] == chunks;
  }
}
