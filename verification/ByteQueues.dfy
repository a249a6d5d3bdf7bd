/** Both byte queues against one byte sequence. */
module ByteQueues {
  import opened Bytes
  import opened Wrappers
  import ChunkQueue
  import FlatReader

  datatype Op = Put(bytes: seq<byte>) | Get(n: nat)

  // The queue as nothing but the sequence of unread bytes: what an operation answers ...
  function Answer(op: Op, unread: seq<byte>): seq<Option<seq<byte>>> {
    match op
    case Put(_) => []
    case Get(n) => [if n > |unread| then None else Some(unread[..n])]
  }

  // ... and what it leaves.
  function Next(op: Op, unread: seq<byte>): seq<byte> {
    match op
    case Put(bytes) => unread + bytes
    case Get(n) => if n > |unread| then unread else unread[n..]
  }

  function Answers(ops: seq<Op>, unread: seq<byte>): seq<Option<seq<byte>>> {
    if ops == [] then [] else Answer(ops[0], unread) + Answers(ops[1..], Next(ops[0], unread))
  }

  // Reads ask for something, and the flat buffer never overflows.
  predicate Fits(ops: seq<Op>, unread: seq<byte>) {
    ops == [] || (FitsNow(ops[0], unread) && Fits(ops[1..], Next(ops[0], unread)))
  }

  predicate FitsNow(op: Op, unread: seq<byte>) {
    match op
    case Put(bytes) => |unread| + |bytes| <= FlatReader.PACKETREADER_BUFFER_SIZE
    case Get(n) => 0 < n
  }

  method Perform(c: ChunkQueue.MemoryBuffer, f: FlatReader.PacketReader, op: Op)
    returns (chunked: seq<Option<seq<byte>>>, flat: seq<Option<seq<byte>>>)
    requires c.Valid() && f.Valid() && c.Contents() == f.Contents() && FitsNow(op, c.Contents())
    modifies c, c.Repr, f, f.buffer, f.data
    ensures c.Valid() && f.Valid() && fresh(c.Repr - old(c.Repr))
    ensures c.Contents() == f.Contents() == Next(op, old(c.Contents()))
    ensures chunked == flat == Answer(op, old(c.Contents()))
  {
    match op
    case Put(bytes) =>
      var a := new byte[|bytes|](i requires 0 <= i < |bytes| => bytes[i]);
      assert a[..|bytes|] == bytes;
      c.Write(a, a.Length);
      f.Write(a, a.Length);
      chunked, flat := [], [];
    case Get(n) =>
      var r := c.Read(n);
      var ok := f.Read(n);
      chunked := [if r == null then None else Some(r[..])];
      flat := [if ok then Some(f.data[..n]) else None];
  }

  lemma NextOp(ops: seq<Op>, i: nat, unread: seq<byte>)
    requires i < |ops| && Fits(ops[i..], unread)
    ensures FitsNow(ops[i], unread) && Fits(ops[i + 1..], Next(ops[i], unread))
    ensures Answers(ops[i..], unread) == Answer(ops[i], unread) + Answers(ops[i + 1..], Next(ops[i], unread))
  {
    assert ops[i..][0] == ops[i] && ops[i..][1..] == ops[i + 1..];
  }

  // On every sequence of writes and positive reads that fits, the lazily popped chunks and
  // the shifted array give the same answers: those of one byte sequence.
  method RunBoth(ops: seq<Op>) returns (chunked: seq<Option<seq<byte>>>, flat: seq<Option<seq<byte>>>)
    requires Fits(ops, [])
    ensures chunked == flat == Answers(ops, [])
  {
    var c := new ChunkQueue.MemoryBuffer();
    var f := new FlatReader.PacketReader();
    chunked, flat := [], [];
    for i := 0 to |ops|
      invariant c.Valid() && f.Valid() && fresh(c) && fresh(c.Repr) && fresh(f) && fresh(f.buffer) && fresh(f.data)
      invariant c.Contents() == f.Contents() && Fits(ops[i..], c.Contents())
      invariant chunked == flat && chunked + Answers(ops[i..], c.Contents()) == Answers(ops, [])
    {
      NextOp(ops, i, c.Contents());
      ghost var unread := c.Contents();
      Assoc(chunked, Answer(ops[i], unread), Answers(ops[i + 1..], Next(ops[i], unread)));
      var x, y := Perform(c, f, ops[i]);
      chunked, flat := chunked + x, flat + y;
    }
  }
}
