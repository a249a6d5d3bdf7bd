/**
 The container the video encoder writes and the decoder walks: for every frame a 4-byte
 size and the frame's bytes. The codec itself is a list of packets and of answers.
 */
module VideoZip {
  import opened Bytes
  import opened Wrappers

  const SIZEOF_INT := 4
  const BUFFER_SIZE := 1024 * 1024
  const INT_LIMIT := 0x8000_0000

  // A 32-bit int in memory, lowest byte first; larger numbers are cut.
  function IntBytes(n: nat): (b: seq<byte>)
    ensures |b| == SIZEOF_INT && (n < 256 ==> b[0] == n)
  {
    [n % 256, n / 256 % 256, n / 256 / 256 % 256, n / 256 / 256 / 256 % 256]
  }

  // Reading it back, as a signed int.
  function ReadInt(s: seq<byte>): int
    requires SIZEOF_INT <= |s|
  {
    var n := s[0] as int + 256 * s[1] as int + 0x1_0000 * s[2] as int + 0x100_0000 * s[3] as int;
    if n < INT_LIMIT then n else n - 2 * INT_LIMIT
  }

  // The size read back is the size written exactly for frames an int can count.
  lemma SizeSurvives(n: nat)
    ensures ReadInt(IntBytes(n)) == n <==> n < INT_LIMIT
  {
    var q1, q2, q3 := n / 256, n / 256 / 256, n / 256 / 256 / 256;
    assert n == n % 256 + 256 * q1 && q1 == q1 % 256 + 256 * q2 && q2 == q2 % 256 + 256 * q3;
    assert q3 == q3 % 256 + 256 * (q3 / 256);
  }

  lemma LowDigit(low: byte, high: nat)
    ensures var n := low as int + 256 * high; n % 256 == low as int && n / 256 == high
  {
  }

  lemma BytesSurvive(s: seq<byte>)
    requires |s| == SIZEOF_INT && 0 <= ReadInt(s)
    ensures IntBytes(ReadInt(s)) == s
  {
    var n2: nat := s[2] as int + 256 * s[3] as int;
    var n1: nat := s[1] as int + 256 * n2;
    LowDigit(s[0], n1);
    LowDigit(s[1], n2);
    LowDigit(s[2], s[3]);
    assert ReadInt(s) == s[0] as int + 256 * n1;
  }

  // One frame in the container: its size and its bytes.
  function Unit(f: seq<byte>): (u: seq<byte>)
    ensures |u| == SIZEOF_INT + |f|
  {
    IntBytes(|f|) + f
  }

  function Container(frames: seq<seq<byte>>): seq<byte> {
    if frames == [] then [] else Unit(frames[0]) + Container(frames[1..])
  }

  predicate Countable(frames: seq<seq<byte>>) {
    frames == [] || (|frames[0]| < INT_LIMIT && Countable(frames[1..]))
  }

  // The frame the bytes begin with, if its size is there, is not negative and does not
  // reach beyond them.
  function FrontFrame(s: seq<byte>): Option<seq<byte>> {
    if |s| < SIZEOF_INT then None
    else
      var n := ReadInt(s[..SIZEOF_INT]);
      if n < 0 || SIZEOF_INT + n > |s| then None else Some(s[SIZEOF_INT..SIZEOF_INT + n])
  }

  function AfterFrame(s: seq<byte>): seq<byte>
    requires FrontFrame(s).Some?
  {
    s[SIZEOF_INT + |FrontFrame(s).value|..]
  }

  // The frames in a container, if it is one to the last byte.
  function Parse(s: seq<byte>): Option<seq<seq<byte>>>
    decreases |s|
  {
    if s == [] then Some([])
    else if FrontFrame(s).None? then None
    else match Parse(AfterFrame(s))
      case None => None
      case Some(frames) => Some([FrontFrame(s).value] + frames)
  }

  lemma FrontOfUnit(f: seq<byte>, more: seq<byte>)
    requires |f| < INT_LIMIT
    ensures FrontFrame(Unit(f) + more) == Some(f) && AfterFrame(Unit(f) + more) == more
  {
    var s := Unit(f) + more;
    assert s[..SIZEOF_INT] == IntBytes(|f|) && s[SIZEOF_INT..SIZEOF_INT + |f|] == f;
    SizeSurvives(|f|);
  }

  lemma UnitOfFront(s: seq<byte>)
    requires FrontFrame(s).Some?
    ensures var f := FrontFrame(s).value; s == Unit(f) + AfterFrame(s) && |f| < INT_LIMIT
  {
    BytesSurvive(s[..SIZEOF_INT]);
  }

  // What was written is read back: the same frames in the same order.
  lemma {:induction false} ParseContainer(frames: seq<seq<byte>>)
    requires Countable(frames)
    ensures Parse(Container(frames)) == Some(frames)
  {
    if frames != [] {
      ParseContainer(frames[1..]);
      FrontOfUnit(frames[0], Container(frames[1..]));
      assert frames == [frames[0]] + frames[1..];
    }
  }

  // Only containers are read, and each has one reading.
  lemma {:induction false} ParsedIsContainer(s: seq<byte>)
    ensures Parse(s).Some? ==> s == Container(Parse(s).value) && Countable(Parse(s).value)
    decreases |s|
  {
    if Parse(s).Some? && s != [] {
      ParsedIsContainer(AfterFrame(s));
      UnitOfFront(s);
      var frames, others := Parse(s).value, Parse(AfterFrame(s)).value;
      assert frames == [FrontFrame(s).value] + others && frames[1..] == others;
    }
  }

  lemma ParseIsInverse(s: seq<byte>, frames: seq<seq<byte>>)
    ensures Parse(s) == Some(frames) <==> s == Container(frames) && Countable(frames)
  {
    ParsedIsContainer(s);
    if Countable(frames) { ParseContainer(frames); }
  }

  lemma {:induction false} ContainerAppend(frames: seq<seq<byte>>, f: seq<byte>)
    ensures Container(frames + [f]) == Container(frames) + Unit(f)
  {
    if frames == [] {
      assert [] + [f] == [f] && Container([f]) == Unit(f) + [] == [] + Unit(f);
    } else {
      ContainerAppend(frames[1..], f);
      assert (frames + [f])[1..] == frames[1..] + [f];
      Assoc(Unit(frames[0]), Container(frames[1..]), Unit(f));
    }
  }

  lemma {:induction false} FittingIsCountable(frames: seq<seq<byte>>)
    requires |Container(frames)| < INT_LIMIT
    ensures Countable(frames)
  {
    if frames != [] {
      FittingIsCountable(frames[1..]);
    }
  }

  // ---- Encoder ----

  datatype CodecPacket = Frame(bytes: seq<byte>) | Other

  function FramesOf(packets: seq<CodecPacket>): seq<seq<byte>> {
    if packets == [] then []
    else FramesOf(packets[..|packets| - 1]) + match packets[|packets| - 1] case Frame(b) => [b] case Other => []
  }

  // The frames of two stretches are those of the first and those of the second, and one
  // packet is its frame or nothing.
  lemma {:induction false} FramesOfBoth(a: seq<CodecPacket>, b: seq<CodecPacket>)
    ensures FramesOf(a + b) == FramesOf(a) + FramesOf(b)
    ensures forall bytes :: FramesOf([Frame(bytes)]) == [bytes]
    ensures FramesOf([Other]) == []
    decreases |b|
  {
    if b == [] {
      assert a + b == a && FramesOf(a) + [] == FramesOf(a);
    } else {
      var front, last := b[..|b| - 1], b[|b| - 1..];
      FramesOfBoth(a, front);
      assert (a + b)[..|a + b| - 1] == a + front;
    }
  }

  method Store(dst: array<byte>, at: nat, bytes: seq<byte>)
    requires at + |bytes| <= dst.Length
    modifies dst
    ensures dst[..] == old(dst[..at]) + bytes + old(dst[at + |bytes|..])
  {
    var i := 0;
    while i < |bytes|
      invariant 0 <= i <= |bytes|
      invariant forall k :: 0 <= k < dst.Length ==> dst[k] == if at <= k < at + i then bytes[k - at] else old(dst[k])
    {
      dst[at + i] := bytes[i];
      i := i + 1;
    }
  }

  class VideoZip {
    const data: array<byte>
    var size: nat

    ghost predicate Valid()
      reads this
    {
      data.Length == BUFFER_SIZE && size <= data.Length
    }

    constructor ()
      ensures Valid() && fresh(data)
    {
      data := new byte[BUFFER_SIZE];
      size := 0;
    }

    // Appends one frame.
    method Append(bytes: seq<byte>)
      requires Valid() && size + SIZEOF_INT + |bytes| <= BUFFER_SIZE
      modifies this, data
      ensures Valid() && data[..size] == old(data[..size]) + Unit(bytes)
      ensures size == old(size) + SIZEOF_INT + |bytes|
    {
      var frame := size;
      Store(data, frame, IntBytes(|bytes|));
      frame := frame + SIZEOF_INT;
      Store(data, frame, bytes);
      size := size + SIZEOF_INT + |bytes|;
    }

    // encoded says whether the codec accepted the picture; packets is what it then gives.
    method Encode(encoded: bool, packets: seq<CodecPacket>) returns (ok: bool)
      requires Valid() && |Container(FramesOf(packets))| <= BUFFER_SIZE
      modifies this, data
      ensures Valid() && ok == encoded
      ensures ok ==> data[..size] == Container(FramesOf(packets)) && Parse(data[..size]) == Some(FramesOf(packets))
      ensures !ok ==> size == old(size) && data[..] == old(data[..])
    {
      if !encoded { return false; }
      size := 0;
      var i := 0;
      while i < |packets|
        invariant 0 <= i <= |packets| && Valid()
        invariant data[..size] == Container(FramesOf(packets[..i]))
      {
        PrefixFits(packets, i + 1);
        assert packets[..i + 1][..i] == packets[..i];
        match packets[i] {
          case Frame(bytes) =>
            ContainerAppend(FramesOf(packets[..i]), bytes);
            Append(bytes);
          case Other =>
            assert FramesOf(packets[..i + 1]) == FramesOf(packets[..i]) + [] == FramesOf(packets[..i]);
        }
        i := i + 1;
      }
      assert packets[..i] == packets;
      FittingIsCountable(FramesOf(packets));
      ParseContainer(FramesOf(packets));
      ok := true;
    }
  }

  lemma {:induction false} PrefixFits(packets: seq<CodecPacket>, i: nat)
    requires i <= |packets|
    ensures |Container(FramesOf(packets[..i]))| <= |Container(FramesOf(packets))|
    decreases |packets|
  {
    if i < |packets| {
      var front := packets[..|packets| - 1];
      PrefixFits(front, i);
      assert front[..i] == packets[..i];
      match packets[|packets| - 1]
      case Frame(b) => ContainerAppend(FramesOf(front), b);
      case Other => assert FramesOf(packets) == FramesOf(front) + [] == FramesOf(front);
    } else {
      assert packets[..i] == packets;
    }
  }

  // ---- Decoder ----

  // How the walk ends: at the last byte, at a frame the codec refuses, or because the next
  // size or frame would be read from outside the bytes given.
  datatype WalkEnd = Done | Refused | Outside

  // The frames the codec is given when its calls number i and on answer as f says.
  function Walk(s: seq<byte>, f: nat -> bool, i: nat): (seq<seq<byte>>, WalkEnd)
    decreases |s|
  {
    if s == [] then ([], Done)
    else if FrontFrame(s).None? then ([], Outside)
    else if !f(i) then ([FrontFrame(s).value], Refused)
    else
      var (frames, end) := Walk(AfterFrame(s), f, i + 1);
      ([FrontFrame(s).value] + frames, end)
  }

  // How many of n frames the codec accepts before it refuses one.
  function Accepted(f: nat -> bool, i: nat, n: nat): (a: nat)
    ensures a <= n
    decreases n
  {
    if n == 0 || !f(i) then 0 else 1 + Accepted(f, i + 1, n - 1)
  }

  // All frames, or those up to the first refused one.
  predicate WalkedUpTo(walk: (seq<seq<byte>>, WalkEnd), frames: seq<seq<byte>>, a: nat)
    requires a <= |frames|
  {
    walk == if a == |frames| then (frames, Done) else (frames[..a + 1], Refused)
  }

  lemma OneMoreFrame(walk: (seq<seq<byte>>, WalkEnd), frames: seq<seq<byte>>, a: nat, ok: bool)
    requires frames != [] && a < |frames| && WalkedUpTo(walk, frames[1..], a)
    ensures if ok then WalkedUpTo(([frames[0]] + walk.0, walk.1), frames, a + 1)
            else WalkedUpTo(([frames[0]], Refused), frames, 0)
  {
    assert frames[..1] == [frames[0]];
    if a + 1 < |frames| {
      assert [frames[0]] + frames[1..][..a + 1] == frames[..a + 2];
    } else {
      assert [frames[0]] + frames[1..] == frames;
    }
  }

  lemma WalkOverUnit(first: seq<byte>, more: seq<byte>, f: nat -> bool, i: nat)
    requires |first| < INT_LIMIT
    ensures Walk(Unit(first) + more, f, i) ==
      if f(i) then ([first] + Walk(more, f, i + 1).0, Walk(more, f, i + 1).1) else ([first], Refused)
  {
    FrontOfUnit(first, more);
  }

  // A container is walked frame by frame up to its end or the first refused one.
  lemma {:induction false} WalkOfContainer(frames: seq<seq<byte>>, f: nat -> bool, i: nat)
    requires Countable(frames)
    ensures WalkedUpTo(Walk(Container(frames), f, i), frames, Accepted(f, i, |frames|))
    decreases |frames|
  {
    if frames != [] {
      var more, a := Container(frames[1..]), Accepted(f, i + 1, |frames| - 1);
      var walk := Walk(more, f, i + 1);
      assert WalkedUpTo(walk, frames[1..], a) by { WalkOfContainer(frames[1..], f, i + 1); }
      OneMoreFrame(walk, frames, a, f(i));
      assert Walk(Container(frames), f, i) == if f(i) then ([frames[0]] + walk.0, walk.1) else ([frames[0]], Refused) by {
        WalkOverUnit(frames[0], more, f, i);
      }
    }
  }

  // For a codec that accepts everything: the walk stays inside the bytes if and only if they
  // are a container, and then gives all its frames.
  lemma {:induction false} WalkInsideExactly(s: seq<byte>, f: nat -> bool, i: nat)
    requires forall k :: i <= k ==> f(k)
    ensures Walk(s, f, i).1.Outside? <==> Parse(s).None?
    ensures Parse(s).Some? ==> Walk(s, f, i) == (Parse(s).value, Done)
    decreases |s|
  {
    if s != [] && FrontFrame(s).Some? { WalkInsideExactly(AfterFrame(s), f, i + 1); }
  }

  // The frame at the walk's position.
  method NextFrame(data: array<byte>, size: nat, count: nat) returns (bytes: Option<seq<byte>>)
    requires count <= size <= data.Length
    ensures bytes == FrontFrame(data[count..size])
    ensures bytes.Some? ==>
      var next := count + SIZEOF_INT + |bytes.value|; next <= size && data[next..size] == AfterFrame(data[count..size])
  {
    if size - count < SIZEOF_INT { return None; }
    var frame := count + SIZEOF_INT;
    assert data[count..frame] == data[count..size][..SIZEOF_INT];
    var frameSize := ReadInt(data[count..frame]);
    if frameSize < 0 || frame + frameSize > size { return None; }
    Parts(data[..], count, size, frameSize);
    bytes := Some(data[frame..frame + frameSize]);
  }

  // The frame and the rest of the bytes from count on.
  lemma Parts(d: seq<byte>, count: nat, size: nat, n: nat)
    requires count + SIZEOF_INT + n <= size <= |d|
    ensures var s, frame := d[count..size], count + SIZEOF_INT;
      s[SIZEOF_INT..SIZEOF_INT + n] == d[frame..frame + n] && s[SIZEOF_INT + n..] == d[frame + n..size]
  {
  }

  // The whole walk is what was handed over and the walk over the rest.
  ghost predicate Walking(
    whole: (seq<seq<byte>>, WalkEnd), f: nat -> bool, handed: seq<seq<byte>>, rest: seq<byte>)
  {
    var (frames, end) := Walk(rest, f, |handed|);
    whole == (handed + frames, end)
  }

  lemma WalkOn(whole: (seq<seq<byte>>, WalkEnd), f: nat -> bool, handed: seq<seq<byte>>, rest: seq<byte>)
    requires Walking(whole, f, handed, rest)
    ensures rest == [] ==> whole == (handed, Done)
    ensures rest != [] && FrontFrame(rest).None? ==> whole == (handed, Outside)
    ensures rest != [] && FrontFrame(rest).Some? ==>
      var handed' := handed + [FrontFrame(rest).value];
      if f(|handed|) then Walking(whole, f, handed', AfterFrame(rest)) else whole == (handed', Refused)
  {
    if rest == [] || FrontFrame(rest).None? {
      assert handed + [] == handed;
    } else if f(|handed|) {
      var x, others := FrontFrame(rest).value, Walk(AfterFrame(rest), f, |handed| + 1);
      assert Walk(rest, f, |handed|) == ([x] + others.0, others.1) && |handed + [x]| == |handed| + 1;
      Assoc(handed, [x], others.0);
    }
  }

  // Walks the bytes. The count only stops the walk at size because it lands there exactly.
  method Decode(data: array<byte>, size: nat, codec: nat -> bool)
    returns (end: WalkEnd, handed: seq<seq<byte>>, count: nat)
    requires size <= data.Length
    ensures (handed, end) == Walk(data[..size], codec, 0)
    ensures count <= size && (end.Done? ==> count == size)
  {
    count, handed := 0, [];
    ghost var whole, rest := Walk(data[..size], codec, 0), data[..size];
    assert [] + whole.0 == whole.0;
    while count < size
      invariant count <= size && rest == data[count..size] && Walking(whole, codec, handed, rest)
      decreases size - count
    {
      WalkOn(whole, codec, handed, rest);
      var bytes := NextFrame(data, size, count);
      if bytes.None? { return Outside, handed, count; }
      handed := handed + [bytes.value];
      if !codec(|handed| - 1) { return Refused, handed, count; }
      count := count + SIZEOF_INT + |bytes.value|;
      rest := AfterFrame(rest);
    }
    WalkOn(whole, codec, handed, rest);
    end := Done;
  }
}
