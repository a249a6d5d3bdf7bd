/**
 The byte queue made of separately allocated chunks, popped lazily: a used-up chunk
 stays in front until the next read finds it empty.
 */
module ChunkQueue {
  import opened Bytes

  // One chunk: its own copy of the bytes, and how much of it is unread.
  class Buffer {
    const data: seq<byte>
    var offset: nat
    var size: nat

    ghost predicate Valid()
      reads this
    {
      offset + size == |data|
    }

    function Unread(): seq<byte>
      reads this
    {
      if offset <= |data| then data[offset..] else []
    }

    constructor (bytes: array<byte>, n: nat)
      requires n <= bytes.Length
      ensures Valid() && offset == 0 && data == bytes[..n]
    {
      data := bytes[..n];
      offset, size := 0, n;
    }

    // Copies at most n bytes to dst[at..].
    method Read(dst: array<byte>, at: nat, n: nat) returns (copied: nat)
      requires Valid() && at + n <= dst.Length
      modifies this, dst
      ensures Valid() && copied == if n < |old(Unread())| then n else |old(Unread())|
      ensures Unread() == old(Unread())[copied..]
      ensures dst[..] == old(dst[..at]) + old(Unread())[..copied] + old(dst[at + copied..])
    {
      if size == 0 { return 0; }
      copied := n;
      if copied > size { copied := size; }
      size := size - copied;
      var i := 0;
      while i < copied
        invariant 0 <= i <= copied && offset == old(offset) && size == old(size) - copied
        invariant forall k :: 0 <= k < dst.Length ==>
          dst[k] == if at <= k < at + i then data[offset + k - at] else old(dst[k])
      {
        dst[at + i] := data[offset + i];
        i := i + 1;
      }
      offset := offset + copied;
    }
  }

  lemma UsedUp(front: seq<byte>, rest: seq<byte>, n: nat)
    requires n <= |front|
    ensures (front + rest)[..n] == front[..n] && (front + rest)[n..] == front[n..] + rest
  {
  }

  function ChunksOf(q: seq<Buffer>): seq<seq<byte>>
    reads q
  {
    if q == [] then [] else [q[0].Unread()] + ChunksOf(q[1..])
  }

  ghost predicate Distinct(q: seq<Buffer>) {
    forall i, j :: 0 <= i < j < |q| ==> q[i] != q[j]
  }

  lemma {:induction false} ChunksOfAppend(q: seq<Buffer>, b: Buffer)
    ensures ChunksOf(q + [b]) == ChunksOf(q) + [b.Unread()]
  {
    if q == [] {
      assert q + [b] == [b];
    } else {
      assert (q + [b])[1..] == q[1..] + [b];
      ChunksOfAppend(q[1..], b);
    }
  }

  class MemoryBuffer {
    var size: int
    var queue: seq<Buffer>
    ghost var Repr: set<Buffer>

    ghost predicate ValidQueue()
      reads this, Repr
    {
      Distinct(queue) && forall b :: b in queue ==> b in Repr && b.Valid()
    }

    // The unread bytes.
    ghost function Contents(): seq<byte>
      requires ValidQueue()
      reads this, Repr
    {
      Flatten(ChunksOf(queue))
    }

    ghost predicate Valid()
      reads this, Repr
    {
      ValidQueue() && size == |Contents()|
    }

    constructor ()
      ensures Valid() && fresh(Repr) && Contents() == []
    {
      size, queue, Repr := 0, [], {};
    }

    method Clear()
      requires Valid()
      modifies this
      ensures Valid() && Repr == old(Repr) && Contents() == []
    {
      while queue != []
        invariant Repr == old(Repr)
        decreases |queue|
      {
        queue := queue[1..];
      }
      size := 0;
    }

    method Write(data: array<byte>, n: nat)
      requires Valid() && n <= data.Length
      modifies this
      ensures Valid() && fresh(Repr - old(Repr))
      ensures Contents() == old(Contents()) + data[..n]
    {
      ghost var before := ChunksOf(queue);
      var b := new Buffer(data, n);
      ChunksOfAppend(queue, b);
      FlattenAppend(before, b.Unread());
      queue := queue + [b];
      Repr := Repr + {b};
      size := size + n;
    }

    // One round of the read loop: copy from the front chunk, or drop it if nothing came.
    method Round(dst: array<byte>, at: nat, n: nat) returns (copied: nat)
      requires ValidQueue() && queue != [] && at + n <= dst.Length
      modifies `queue, queue[0], dst
      ensures ValidQueue() && |queue| == |old(queue)| - if copied == 0 then 1 else 0
      ensures copied <= n && copied <= |old(Contents())|
      ensures dst[..at + copied] == old(dst[..at]) + old(Contents())[..copied]
      ensures copied == 0 && 0 < n ==> Contents() == old(Contents())
      ensures 0 < copied ==> Contents() == old(Contents())[copied..]
      ensures n == 0 ==> copied == 0
    {
      var buffer, others := queue[0], queue[1..];
      assert buffer in queue && buffer !in others;
      ghost var front, rest := buffer.Unread(), Flatten(ChunksOf(others));
      assert Contents() == front + rest;
      copied := buffer.Read(dst, at, n);
      UsedUp(front, rest, copied);
      assert dst[..at + copied] == old(dst[..at]) + front[..copied];
      if copied == 0 { queue := others; } else { assert Contents() == front[copied..] + rest; }
    }

    // The loop of Read: fills copy from the chunks.
    method Collect(copy: array<byte>)
      requires ValidQueue() && copy.Length <= |Contents()|
      modifies `queue, Repr, copy
      ensures ValidQueue()
      ensures copy[..] == old(Contents())[..copy.Length]
      ensures if copy.Length == 0 then queue == [] else Contents() == old(Contents())[copy.Length..]
    {
      ghost var all := Contents();
      var toCopy: nat, at: nat := copy.Length, 0;
      while queue != []
        invariant at + toCopy == copy.Length && (toCopy == 0 ==> copy.Length == 0)
        invariant ValidQueue()
        invariant copy[..at] == all[..at]
        invariant 0 < copy.Length ==> Contents() == all[at..]
        decreases |queue|, toCopy
      {
        assert queue[0] in Repr;
        var copied := Round(copy, at, toCopy);
        if copied != 0 {
          TakeMore(all, at, copied);
          toCopy := toCopy - copied;
          at := at + copied;
          if toCopy == 0 { break; }
        }
      }
      assert at == copy.Length && copy[..at] == copy[..];
    }

    // The next n bytes in memory of their own, or null if there are not so many. The others
    // stay exactly when at least one byte is asked for, or there are none: asked for
    // nothing, the loop finds no chunk that gives anything and throws them all away.
    method Read(n: nat) returns (result: array?<byte>)
      requires Valid()
      modifies this, Repr
      ensures ValidQueue() && Repr == old(Repr)
      ensures result == null <==> |old(Contents())| < n
      ensures result == null ==> Valid() && Contents() == old(Contents())
      ensures result != null ==> fresh(result) && result[..] == old(Contents())[..n] && size == old(size) - n
      ensures result != null ==> (Valid() && Contents() == old(Contents())[n..] <==> 0 < n || old(Contents()) == [])
      ensures result != null && n == 0 ==> Contents() == []
    {
      if n > size { return null; }
      size := size - n;
      var copy := new byte[n];
      Collect(copy);
      result := copy;
    }
  }
}
