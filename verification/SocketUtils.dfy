/**
 Length-prefixed packets over a byte stream: the packet writer and the reader that
 reassembles packets in a flat buffer it shifts left in place.
 */
module SocketUtils {
  import opened Bytes
  import opened Wrappers

  const HEADER_SIZE := 3
  const PACKET_LIMIT := 32 * 1024

  datatype Message = Message(kind: byte, payload: seq<byte>)

  // The bytes of a packet. The length field is an unsigned short: it wraps.
  function Serialize(m: Message): seq<byte> {
    var size := (|m.payload| + HEADER_SIZE) % 0x10000;
    [size % 256, size / 256, m.kind] + m.payload
  }

  // packet_size of a packet that starts at the first byte.
  function SizeField(s: seq<byte>): nat
    requires 2 <= |s|
  {
    s[0] as int + 256 * s[1] as int
  }

  function Decode(p: seq<byte>): Message
    requires HEADER_SIZE <= |p|
  {
    Message(p[2], p[HEADER_SIZE..])
  }

  predicate WellFormed(p: seq<byte>) {
    HEADER_SIZE <= |p| <= PACKET_LIMIT && SizeField(p) == |p|
  }

  method CreatePacket(kind: byte, data: array<byte>, size: nat) returns (packet: array<byte>)
    requires size <= data.Length
    ensures fresh(packet) && packet[..] == Serialize(Message(kind, data[..size]))
    ensures packet[0] as int + 256 * packet[1] as int == (size + 3) % 0x10000 && packet[2] == kind
    ensures packet[3..] == data[..size]
  {
    packet := new byte[size + HEADER_SIZE];
    var field := (size + HEADER_SIZE) % 0x10000;
    packet[2] := kind;
    packet[0], packet[1] := field % 256, field / 256;
    if size > 0 { MemCopy(packet, HEADER_SIZE, data, 0, size); }
    assert packet[..] == packet[..HEADER_SIZE] + packet[HEADER_SIZE..];
  }

  // A packet announces its own length, and so can be read back, exactly when the payload
  // leaves room for the header in 16 bits.
  lemma SizeFieldFits(m: Message)
    ensures SizeField(Serialize(m)) == |Serialize(m)| <==> |m.payload| <= 0xFFFF - HEADER_SIZE
    ensures Decode(Serialize(m)) == m
  {
    var size := (|m.payload| + HEADER_SIZE) % 0x10000;
    assert size == size % 256 + 256 * (size / 256);
    assert Serialize(m)[HEADER_SIZE..] == m.payload;
  }

  predicate CanReadFrom(s: seq<byte>) {
    HEADER_SIZE <= |s| && SizeField(s) <= |s|
  }

  datatype ReadResult = Nothing | Packet(size: nat) | Overrun

  class PacketReader {
    const buffer: array<byte>
    const data: array<byte>
    var size: nat

    ghost predicate Valid()
      reads this
    {
      buffer.Length == 2 * PACKET_LIMIT && data.Length == PACKET_LIMIT + 4 && buffer != data && size <= buffer.Length
    }

    // The bytes received and not yet read.
    ghost function Contents(): seq<byte>
      requires Valid()
      reads this, buffer
    {
      buffer[..size]
    }

    constructor ()
      ensures Valid() && fresh(buffer) && fresh(data) && Contents() == []
    {
      buffer := new byte[2 * PACKET_LIMIT];
      data := new byte[PACKET_LIMIT + 4];
      size := 0;
    }

    method Clear()
      requires Valid()
      modifies this
      ensures Valid() && Contents() == []
    {
      size := 0;
    }

    method Write(src: array<byte>, n: int)
      requires Valid() && n <= src.Length && src != buffer
      requires size + n <= buffer.Length
      modifies this, buffer
      ensures Valid() && Contents() == old(Contents()) + if n <= 0 then [] else src[..n]
    {
      if n <= 0 { return; }
      var tail := size;
      size := size + n;
      MemCopy(buffer, tail, src, 0, n);
    }

    predicate CanRead()
      requires Valid()
      reads this, buffer
      ensures CanRead() == CanReadFrom(Contents())
    {
      size >= HEADER_SIZE && buffer[0] as int + 256 * buffer[1] as int <= size
    }

    // The next packet, in data[..n], or nothing. Overrun: the packet announces more bytes
    // than data_ has room for, and would be copied past its end.
    method Read() returns (r: ReadResult)
      requires Valid()
      modifies this, buffer, data
      ensures Valid()
      ensures r.Nothing? <==> !old(CanReadFrom(Contents()))
      ensures r.Overrun? <==> old(CanReadFrom(Contents()) && data.Length < SizeField(Contents()))
      ensures r.Nothing? ==> Contents() == old(Contents()) && data[..] == old(data[..])
      ensures r.Packet? ==>
        && r.size == SizeField(old(Contents())) <= data.Length
        && data[..r.size] == old(Contents())[..r.size]
        && Contents() == old(Contents())[r.size..]
    {
      if !CanRead() { return Nothing; }
      var packetSize: nat := buffer[0] as int + 256 * buffer[1] as int;
      if packetSize > data.Length { return Overrun; }
      MemCopy(data, 0, buffer, 0, packetSize);
      size := size - packetSize;
      if size > 0 { MemCopy(buffer, 0, buffer, packetSize, size); }
      r := Packet(packetSize);
    }
  }

  // ---- Any schedule of writes and reads, on values ----

  datatype Op = Write(fragment: seq<byte>) | Read

  // The packets read so far and the bytes still in the buffer.
  function Run(ops: seq<Op>): (seq<seq<byte>>, seq<byte>) {
    if ops == [] then ([], [])
    else
      var (out, rest) := Run(ops[..|ops| - 1]);
      match ops[|ops| - 1]
      case Write(f) => (out, rest + f)
      case Read => if CanReadFrom(rest) then (out + [rest[..SizeField(rest)]], rest[SizeField(rest)..]) else (out, rest)
  }

  function Written(ops: seq<Op>): seq<byte> {
    if ops == [] then []
    else Written(ops[..|ops| - 1]) + match ops[|ops| - 1] case Write(f) => f case Read => []
  }

  predicate AllWellFormed(ps: seq<seq<byte>>) { forall p :: p in ps ==> WellFormed(p) }

  // What has arrived is the beginning of the packets sent.
  ghost predicate Received(ps: seq<seq<byte>>, ops: seq<Op>) {
    AllWellFormed(ps) && Written(ops) <= Flatten(ps)
  }

  lemma {:induction false} NothingLost(ops: seq<Op>)
    ensures Flatten(Run(ops).0) + Run(ops).1 == Written(ops)
  {
    if ops != [] {
      var front := ops[..|ops| - 1];
      NothingLost(front);
      var (out, rest) := Run(front);
      if ops[|ops| - 1].Read? && CanReadFrom(rest) {
        FlattenAppend(out, rest[..SizeField(rest)]);
      }
    }
  }

  // When the buffer holds the beginning of the packets ps, the bytes a read would return
  // are the first packet; and it can be read as soon as it is all there.
  lemma NextPacket(ps: seq<seq<byte>>, rest: seq<byte>)
    requires AllWellFormed(ps) && rest <= Flatten(ps)
    ensures CanReadFrom(rest) ==> ps != [] && SizeField(rest) == |ps[0]| && rest[..|ps[0]|] == ps[0]
    ensures !CanReadFrom(rest) ==> if ps == [] then rest == [] else rest < ps[0]
  {
    if ps != [] {
      var p, all := ps[0], Flatten(ps);
      assert WellFormed(p) && all[..|p|] == p;
      if |rest| >= HEADER_SIZE {
        assert rest[0] == all[0] == p[0] && rest[1] == all[1] == p[1];
      }
      if |p| <= |rest| { assert rest[..|p|] == all[..|p|]; } else { assert rest == all[..|rest|] == p[..|rest|]; }
    }
  }

  // Bytes that follow the first packets are the beginning of the other packets.
  lemma RestIsPrefix(ps: seq<seq<byte>>, out: seq<seq<byte>>, rest: seq<byte>)
    requires out <= ps && Flatten(out) + rest <= Flatten(ps)
    ensures rest <= Flatten(ps[|out|..])
  {
    assert out == ps[..|out|];
    FlattenPrefix(ps, |out|);
    CutPrefix(Flatten(out), rest, Flatten(ps[|out|..]));
  }

  // However the stream is cut into writes and reads: the packets returned are those sent,
  // in order.
  lemma {:induction false} PacketsReassembled(ps: seq<seq<byte>>, ops: seq<Op>)
    requires Received(ps, ops)
    ensures Run(ops).0 <= ps
    ensures Run(ops).1 <= Flatten(ps[|Run(ops).0|..])
  {
    if ops != [] {
      var front := ops[..|ops| - 1];
      assert Written(front) <= Written(ops);
      PacketsReassembled(ps, front);
      var (out, rest) := Run(front);
      if ops[|ops| - 1].Read? && CanReadFrom(rest) {
        var left := ps[|out|..];
        NextPacket(left, rest);
        assert out + [left[0]] == ps[..|out| + 1];
      }
    }
    var (out, rest) := Run(ops);
    NothingLost(ops);
    RestIsPrefix(ps, out, rest);
  }

  // A drained reader holds a proper beginning of the next packet, and nothing at the end.
  lemma DrainedLeftover(ps: seq<seq<byte>>, ops: seq<Op>)
    requires Received(ps, ops) && !CanReadFrom(Run(ops).1)
    ensures var (out, rest) := Run(ops);
      out <= ps && if |out| == |ps| then rest == [] else rest < ps[|out|]
  {
    PacketsReassembled(ps, ops);
    NextPacket(ps[|Run(ops).0|..], Run(ops).1);
  }

  // Each write finds the reader drained and brings at most PACKET_LIMIT + 1 bytes.
  predicate DrainedBeforeWrites(ops: seq<Op>) {
    ops == [] ||
    var front, op := ops[..|ops| - 1], ops[|ops| - 1];
    DrainedBeforeWrites(front) &&
    (op.Write? ==> !CanReadFrom(Run(front).1) && |op.fragment| <= PACKET_LIMIT + 1)
  }

  // Then the buffer never overflows, and no packet overflows data_.
  lemma {:induction false} BufferSuffices(ps: seq<seq<byte>>, ops: seq<Op>)
    requires Received(ps, ops) && DrainedBeforeWrites(ops)
    ensures var (out, rest) := Run(ops);
      && |rest| <= 2 * PACKET_LIMIT
      && (CanReadFrom(rest) ==> SizeField(rest) <= PACKET_LIMIT)
  {
    if ops != [] {
      var front := ops[..|ops| - 1];
      assert Written(front) <= Written(ops);
      BufferSuffices(ps, front);
      if ops[|ops| - 1].Write? {
        DrainedLeftover(ps, front);
        assert |Run(front).0| < |ps| ==> WellFormed(ps[|Run(front).0|]);
      }
    }
    PacketsReassembled(ps, ops);
    var left := ps[|Run(ops).0|..];
    NextPacket(left, Run(ops).1);
    assert left != [] ==> WellFormed(left[0]);
  }

  // The bound is tight: with one byte more in a write, any stream that starts with two
  // packets of the largest size overflows the buffer of a drained reader.
  lemma BoundIsTight(ps: seq<seq<byte>>, all: seq<byte>)
    requires AllWellFormed(ps) && 3 <= |ps| && |ps[0]| == |ps[1]| == PACKET_LIMIT && all == Flatten(ps)
    ensures 2 * PACKET_LIMIT + 1 <= |all|
    ensures var first, second := all[..PACKET_LIMIT - 1], all[PACKET_LIMIT - 1..2 * PACKET_LIMIT + 1];
      && Received(ps, [Write(first), Write(second)])
      && !CanReadFrom(Run([Write(first)]).1)
      && |second| == PACKET_LIMIT + 2
      && |Run([Write(first), Write(second)]).1| == 2 * PACKET_LIMIT + 1
  {
    ThreePackets(ps);
    var first, second := all[..PACKET_LIMIT - 1], all[PACKET_LIMIT - 1..2 * PACKET_LIMIT + 1];
    TwoWrites(first, second);
    assert first + second == all[..2 * PACKET_LIMIT + 1] <= all;
    assert WellFormed(ps[0]) && first[0] == ps[0][0] && first[1] == ps[0][1];
  }

  lemma ThreePackets(ps: seq<seq<byte>>)
    requires AllWellFormed(ps) && 3 <= |ps| && |ps[0]| == |ps[1]| == PACKET_LIMIT
    ensures 2 * PACKET_LIMIT + HEADER_SIZE <= |Flatten(ps)| && ps[0] <= Flatten(ps)
  {
    assert ps[1..][1..] == ps[2..];
    assert Flatten(ps[2..]) == ps[2] + Flatten(ps[2..][1..]);
    assert ps[2] in ps && WellFormed(ps[2]);
  }

  lemma TwoWrites(first: seq<byte>, second: seq<byte>)
    ensures Run([Write(first)]) == ([], first)
    ensures Run([Write(first), Write(second)]) == ([], first + second)
    ensures Written([Write(first), Write(second)]) == first + second
  {
    var s1, s2 := [Write(first)], [Write(first), Write(second)];
    assert s2[..1] == s1 && s1[..0] == [];
    assert [] + first == first && Written(s1) == first;
  }

  function SerializeAll(ms: seq<Message>): seq<seq<byte>> {
    seq(|ms|, i requires 0 <= i < |ms| => Serialize(ms[i]))
  }

  function DecodeAll(ps: seq<seq<byte>>): seq<Message>
    requires forall p :: p in ps ==> HEADER_SIZE <= |p|
  {
    seq(|ps|, i requires 0 <= i < |ps| => Decode(ps[i]))
  }

  // Messages sent as packets come back as the same messages, whatever the fragmentation.
  lemma MessagesReassembled(ms: seq<Message>, ops: seq<Op>)
    requires forall m :: m in ms ==> |m.payload| <= PACKET_LIMIT - HEADER_SIZE
    requires Written(ops) <= Flatten(SerializeAll(ms))
    ensures forall p :: p in Run(ops).0 ==> HEADER_SIZE <= |p|
    ensures DecodeAll(Run(ops).0) <= ms
  {
    var ps := SerializeAll(ms);
    forall p | p in ps ensures WellFormed(p) {
      var i :| 0 <= i < |ps| && ps[i] == p;
      assert ms[i] in ms;
      SizeFieldFits(ms[i]);
    }
    PacketsReassembled(ps, ops);
    var out := Run(ops).0;
    forall i | 0 <= i < |out| ensures out[i] == ps[i] && Decode(out[i]) == ms[i] {
      SizeFieldFits(ms[i]);
    }
  }

  // ---- The reader at work ----

  // Each prefix of such a schedule is one too.
  lemma {:induction false} PrefixReceived(ps: seq<seq<byte>>, ops: seq<Op>, i: nat)
    requires i <= |ops| && Received(ps, ops) && DrainedBeforeWrites(ops)
    ensures Received(ps, ops[..i]) && DrainedBeforeWrites(ops[..i])
    decreases |ops|
  {
    if i < |ops| {
      var front := ops[..|ops| - 1];
      assert Written(front) <= Written(ops);
      PrefixReceived(ps, front, i);
      assert front[..i] == ops[..i];
    } else {
      assert ops[..i] == ops;
    }
  }

  // One operation on the reader, with room for it.
  method Perform(reader: PacketReader, op: Op) returns (packet: Option<seq<byte>>)
    requires reader.Valid()
    requires match op
      case Write(f) => |reader.Contents()| + |f| <= 2 * PACKET_LIMIT
      case Read => CanReadFrom(reader.Contents()) ==> SizeField(reader.Contents()) <= PACKET_LIMIT
    modifies reader, reader.buffer, reader.data
    ensures reader.Valid()
    ensures match op
      case Write(f) => packet.None? && reader.Contents() == old(reader.Contents()) + f
      case Read =>
        var all := old(reader.Contents());
        if CanReadFrom(all) then packet == Some(all[..SizeField(all)]) && reader.Contents() == all[SizeField(all)..]
        else packet.None? && reader.Contents() == all
  {
    match op
    case Write(f) =>
      var a := new byte[|f|](i requires 0 <= i < |f| => f[i]);
      assert a[..|f|] == f;
      reader.Write(a, |f|);
      packet := None;
    case Read =>
      var r := reader.Read();
      packet := if r.Packet? then Some(reader.data[..r.size]) else None;
  }

  // The reader under any schedule that drains it before each write: no array overflows, and
  // it returns and keeps what Run says.
  method Receive(ops: seq<Op>, ghost ps: seq<seq<byte>>) returns (reader: PacketReader, packets: seq<seq<byte>>)
    requires Received(ps, ops) && DrainedBeforeWrites(ops)
    ensures reader.Valid() && (packets, reader.Contents()) == Run(ops)
  {
    reader := new PacketReader();
    packets := [];
    for i := 0 to |ops|
      invariant reader.Valid() && fresh(reader) && fresh(reader.buffer) && fresh(reader.data)
      invariant (packets, reader.Contents()) == Run(ops[..i])
    {
      PrefixReceived(ps, ops, i);
      PrefixReceived(ps, ops, i + 1);
      BufferSuffices(ps, ops[..i]);
      BufferSuffices(ps, ops[..i + 1]);
      assert ops[..i + 1][..i] == ops[..i] && ops[..i + 1][i] == ops[i];
      var packet := Perform(reader, ops[i]);
      if packet.Some? { packets := packets + [packet.value]; }
    }
    assert ops[..|ops|] == ops;
  }

  // Packets returned so far, and a buffer that holds a proper beginning of the next one.
  predicate Waiting(ps: seq<seq<byte>>, packets: seq<seq<byte>>, rest: seq<byte>) {
    packets <= ps && if |packets| == |ps| then rest == [] else rest < ps[|packets|]
  }

  // What one read does to the packets returned and to those to come.
  lemma ReadOnce(left: seq<seq<byte>>, rest: seq<byte>, out: seq<seq<byte>>)
    requires AllWellFormed(left) && rest <= Flatten(left) && CanReadFrom(rest)
    ensures 0 < SizeField(rest) <= PACKET_LIMIT && left != [] && rest[..SizeField(rest)] == left[0]
    ensures AllWellFormed(left[1..]) && rest[SizeField(rest)..] <= Flatten(left[1..])
    ensures Flatten(out + [left[0]]) + rest[SizeField(rest)..] == Flatten(out) + rest
    ensures out + left == out + [left[0]] + left[1..]
  {
    NextPacket(left, rest);
    assert left[0] in left && WellFormed(left[0]);
    var p, more := left[0], rest[SizeField(rest)..];
    assert rest == p + more;
    CutPrefix(p, more, Flatten(left[1..]));
    FlattenAppend(out, p);
    Assoc(Flatten(out), p, more);
  }

  // Reads until nothing can be read. Every read shrinks the buffer, so this ends; it returns
  // the packets that are complete and leaves a proper beginning of the next one.
  method Drain(reader: PacketReader, ghost ps: seq<seq<byte>>) returns (packets: seq<seq<byte>>)
    requires reader.Valid() && AllWellFormed(ps) && reader.Contents() <= Flatten(ps)
    modifies reader, reader.buffer, reader.data
    ensures reader.Valid() && Flatten(packets) + reader.Contents() == old(reader.Contents())
    ensures packets <= ps && reader.Contents() <= Flatten(ps[|packets|..]) && !CanReadFrom(reader.Contents())
    ensures Waiting(ps, packets, reader.Contents())
  {
    packets := [];
    ghost var left := ps;
    while true
      invariant reader.Valid() && packets + left == ps && AllWellFormed(left) && reader.Contents() <= Flatten(left)
      invariant Flatten(packets) + reader.Contents() == old(reader.Contents())
      decreases |reader.Contents()|
    {
      ghost var rest := reader.Contents();
      NextPacket(left, rest);
      if CanReadFrom(rest) { ReadOnce(left, rest, packets); }
      var packet := Perform(reader, Read);
      if packet.None? { break; }
      packets := packets + [packet.value];
      left := left[1..];
    }
    assert left == ps[|packets|..];
  }

  lemma WaitingForRest(ps: seq<seq<byte>>, packets: seq<seq<byte>>, rest: seq<byte>)
    requires Waiting(ps, packets, rest)
    ensures var all := Flatten(packets) + rest;
      if |packets| == |ps| then all == Flatten(ps) else Flatten(packets) <= all < Flatten(packets) + ps[|packets|]
  {
    if |packets| == |ps| {
      assert packets == ps && Flatten(packets) + [] == Flatten(packets);
    } else {
      ExtendPrefix(Flatten(packets), rest, ps[|packets|]);
    }
  }

  // So the largest fragment fits.
  lemma WaitingLeavesRoom(ps: seq<seq<byte>>, packets: seq<seq<byte>>, rest: seq<byte>)
    requires AllWellFormed(ps) && Waiting(ps, packets, rest)
    ensures |rest| < PACKET_LIMIT
  {
    assert |packets| < |ps| ==> ps[|packets|] in ps && WellFormed(ps[|packets|]);
  }

  lemma NextFragment(ps: seq<seq<byte>>, out: seq<seq<byte>>, fragments: seq<seq<byte>>, i: nat, rest: seq<byte>)
    requires AllWellFormed(ps) && out <= ps && i < |fragments| && Flatten(fragments) <= Flatten(ps)
    requires Flatten(out) + rest == Flatten(fragments[..i])
    ensures Flatten(out) + (rest + fragments[i]) == Flatten(fragments[..i + 1])
    ensures AllWellFormed(ps[|out|..]) && rest + fragments[i] <= Flatten(ps[|out|..])
  {
    TakeNext(fragments, i);
    FlattenAppend(fragments[..i], fragments[i]);
    FlattenPrefix(fragments, i + 1);
    Assoc(Flatten(out), rest, fragments[i]);
    RestIsPrefix(ps, out, rest + fragments[i]);
  }

  lemma MorePackets(ps: seq<seq<byte>>, out: seq<seq<byte>>, more: seq<seq<byte>>, rest: seq<byte>)
    requires out <= ps && Waiting(ps[|out|..], more, rest)
    ensures Waiting(ps, out + more, rest) && Flatten(out + more) + rest == Flatten(out) + (Flatten(more) + rest)
  {
    FlattenConcat(out, more);
    Assoc(Flatten(out), Flatten(more), rest);
    assert out + more == ps[..|out| + |more|];
  }

  // Fragments of at most PACKET_LIMIT + 1 bytes, the reader drained after each: every packet
  // that has arrived completely is returned, in order, and no array overflows.
  method ReceiveFragments(fragments: seq<seq<byte>>, ghost ps: seq<seq<byte>>) returns (packets: seq<seq<byte>>)
    requires AllWellFormed(ps) && Flatten(fragments) <= Flatten(ps)
    requires forall f :: f in fragments ==> |f| <= PACKET_LIMIT + 1
    ensures packets <= ps
    ensures if |packets| == |ps| then Flatten(fragments) == Flatten(ps)
            else Flatten(packets) <= Flatten(fragments) < Flatten(packets) + ps[|packets|]
  {
    var reader := new PacketReader();
    packets := [];
    assert ps != [] ==> ps[0] in ps && WellFormed(ps[0]);
    for i := 0 to |fragments|
      invariant reader.Valid() && fresh(reader) && fresh(reader.buffer) && fresh(reader.data)
      invariant Flatten(packets) + reader.Contents() == Flatten(fragments[..i])
      invariant Waiting(ps, packets, reader.Contents())
    {
      ghost var done := packets;
      WaitingLeavesRoom(ps, packets, reader.Contents());
      NextFragment(ps, packets, fragments, i, reader.Contents());
      assert fragments[i] in fragments;
      var _ := Perform(reader, Write(fragments[i]));
      var more := Drain(reader, ps[|done|..]);
      packets := packets + more;
      MorePackets(ps, done, more, reader.Contents());
    }
    assert fragments[..|fragments|] == fragments;
    WaitingForRest(ps, packets, reader.Contents());
  }
}
