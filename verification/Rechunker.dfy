/**
 Cutting captured sound into frames of the encoder's size: bytes of any fragment size
 go into the byte queue, frames of exactly dataSize bytes go to the file writer.
 */
module Rechunker {
  import opened Bytes
  import opened Wrappers
  import opened Interleaver
  import ChunkQueue
  import Encoder

  // The frames in s, and what is left.
  function Chop(n: nat, s: seq<byte>): (seq<seq<byte>>, seq<byte>)
    requires 0 < n
    decreases |s|
  {
    if |s| < n then ([], s)
    else ([s[..n]] + Chop(n, s[n..]).0, Chop(n, s[n..]).1)
  }

  // What the loop hands on, leaves and returns when the writer's calls number i and on end
  // as f says.
  function HandOn(n: nat, s: seq<byte>, f: nat -> Outcome, i: nat): (seq<seq<byte>>, seq<byte>, bool)
    requires 0 < n
    decreases |s|
  {
    if |s| < n then ([], s, true)
    else if !f(i).Written? then ([s[..n]], s[n..], false)
    else
      var (frames, rest, ok) := HandOn(n, s[n..], f, i + 1);
      ([s[..n]] + frames, rest, ok)
  }

  // Frames of n bytes that are, with the remainder, the bytes of s.
  predicate CutFrom(n: nat, s: seq<byte>, frames: seq<seq<byte>>, rest: seq<byte>) {
    Flatten(frames) + rest == s && forall k :: 0 <= k < |frames| ==> |frames[k]| == n
  }

  lemma CutOneMore(n: nat, s: seq<byte>, frames: seq<seq<byte>>, rest: seq<byte>)
    requires n <= |s| && CutFrom(n, s[n..], frames, rest)
    ensures CutFrom(n, s, [s[..n]] + frames, rest)
  {
    assert ([s[..n]] + frames)[1..] == frames;
    Assoc(s[..n], Flatten(frames), rest);
  }

  // No byte is lost, repeated or reordered, even when the writer fails; every frame has
  // the frame size.
  lemma {:induction false} HandOnConserves(n: nat, s: seq<byte>, f: nat -> Outcome, i: nat)
    requires 0 < n
    ensures var (frames, rest, ok) := HandOn(n, s, f, i); CutFrom(n, s, frames, rest) && (ok ==> |rest| < n)
    decreases |s|
  {
    if n <= |s| {
      HandOnConserves(n, s[n..], f, i + 1);
      var (frames, rest, _) := HandOn(n, s[n..], f, i + 1);
      CutOneMore(n, s, frames, rest);
      CutOneMore(n, s, [], s[n..]);
      assert [s[..n]] + [] == [s[..n]];
    }
  }

  // The frames handed on are the first full frames; all of them exactly when the writer
  // succeeds on each, which is what the call answers.
  lemma {:induction false} HandOnIsChop(n: nat, s: seq<byte>, f: nat -> Outcome, i: nat)
    requires 0 < n
    ensures HandOn(n, s, f, i).0 <= Chop(n, s).0
    ensures HandOn(n, s, f, i).2 ==> HandOn(n, s, f, i).0 == Chop(n, s).0 && HandOn(n, s, f, i).1 == Chop(n, s).1
    ensures HandOn(n, s, f, i).2 <==> forall k :: i <= k < i + |Chop(n, s).0| ==> f(k).Written?
    ensures var frames, ok := HandOn(n, s, f, i).0, HandOn(n, s, f, i).2;
      !ok ==> frames != [] && !f(i + |frames| - 1).Written? && forall k :: i <= k < i + |frames| - 1 ==> f(k).Written?
    decreases |s|
  {
    if n <= |s| { HandOnIsChop(n, s[n..], f, i + 1); }
  }

  // Bytes arriving later do not change the frames already cut.
  lemma {:induction false} ChopAppend(n: nat, s: seq<byte>, more: seq<byte>)
    requires 0 < n
    ensures var (frames, rest) := Chop(n, s);
      Chop(n, s + more) == (frames + Chop(n, rest + more).0, Chop(n, rest + more).1)
    decreases |s|
  {
    if n <= |s| {
      ChopAppend(n, s[n..], more);
      assert (s + more)[..n] == s[..n] && (s + more)[n..] == s[n..] + more;
      var (frames, rest) := Chop(n, s[n..]);
      Assoc([s[..n]], frames, Chop(n, rest + more).0);
    } else {
      assert [] + Chop(n, s + more).0 == Chop(n, s + more).0;
    }
  }

  // All frames handed on by a series of calls, and the bytes buffered after it. The writer's
  // calls are counted through, one a frame.
  function Feed(n: nat, fragments: seq<seq<byte>>, f: nat -> Outcome, i: nat): (seq<seq<byte>>, seq<byte>)
    requires 0 < n
  {
    if fragments == [] then ([], [])
    else
      var (frames, rest) := Feed(n, fragments[..|fragments| - 1], f, i);
      var (frames', rest', _) := HandOn(n, rest + fragments[|fragments| - 1], f, i + |frames|);
      (frames + frames', rest')
  }

  lemma CutBoth(n: nat, s: seq<byte>, frames: seq<seq<byte>>, rest: seq<byte>, more: seq<byte>,
                frames': seq<seq<byte>>, rest': seq<byte>)
    requires CutFrom(n, s, frames, rest) && CutFrom(n, rest + more, frames', rest')
    ensures CutFrom(n, s + more, frames + frames', rest')
  {
    FlattenConcat(frames, frames');
    Assoc(Flatten(frames), Flatten(frames'), rest');
    Assoc(Flatten(frames), rest, more);
  }

  // Over any series of calls, whatever the writer's answers: no byte is lost, repeated or
  // reordered, and every frame has the frame size.
  lemma {:induction false} FeedConserves(n: nat, fragments: seq<seq<byte>>, f: nat -> Outcome, i: nat)
    requires 0 < n
    ensures var (frames, rest) := Feed(n, fragments, f, i); CutFrom(n, Flatten(fragments), frames, rest)
  {
    if fragments != [] {
      var front, last := fragments[..|fragments| - 1], fragments[|fragments| - 1];
      var (frames, rest) := Feed(n, front, f, i);
      var (frames', rest', _) := HandOn(n, rest + last, f, i + |frames|);
      assert CutFrom(n, Flatten(front), frames, rest) by { FeedConserves(n, front, f, i); }
      assert CutFrom(n, rest + last, frames', rest') by { HandOnConserves(n, rest + last, f, i + |frames|); }
      CutBoth(n, Flatten(front), frames, rest, last, frames', rest');
      assert Flatten(fragments) == Flatten(front) + last by {
        FlattenAppend(front, last);
        assert fragments == front + [last];
      }
    }
  }

  // While the writer succeeds, a series of calls hands on the frames of all bytes at once.
  lemma {:induction false} FeedIsChop(n: nat, fragments: seq<seq<byte>>, f: nat -> Outcome, i: nat)
    requires 0 < n
    requires forall k :: i <= k < i + |Chop(n, Flatten(fragments)).0| ==> f(k).Written?
    ensures Feed(n, fragments, f, i) == Chop(n, Flatten(fragments))
  {
    if fragments != [] {
      var front, last := fragments[..|fragments| - 1], fragments[|fragments| - 1];
      FlattenAppend(front, last);
      assert fragments == front + [last];
      ChopAppend(n, Flatten(front), last);
      FeedIsChop(n, front, f, i);
      var (frames, rest) := Chop(n, Flatten(front));
      HandOnIsChop(n, rest + last, f, i + |frames|);
    }
  }

  // The same bytes give the same frames, however they are cut into calls.
  lemma FragmentationDoesNotMatter(
    n: nat, fragments: seq<seq<byte>>, fragments': seq<seq<byte>>, f: nat -> Outcome, i: nat)
    requires 0 < n && Flatten(fragments) == Flatten(fragments')
    requires forall k :: i <= k < i + |Chop(n, Flatten(fragments)).0| ==> f(k).Written?
    ensures Feed(n, fragments, f, i) == Feed(n, fragments', f, i)
  {
    FeedIsChop(n, fragments, f, i);
    FeedIsChop(n, fragments', f, i);
  }

  // The recording after the given frames, from the writer's call number i on.
  function StampAll(t: Timing, r: Recording, frames: seq<seq<byte>>, f: nat -> Outcome, i: nat): Recording
    decreases |frames|
  {
    if frames == [] then r else StampAll(t, StampAudio(t, r, frames[0], f(i)), frames[1..], f, i + 1)
  }

  // Every frame handed on is taken, in order.
  lemma {:induction false} StampAllTakes(t: Timing, r: Recording, frames: seq<seq<byte>>, f: nat -> Outcome, i: nat)
    ensures StampAll(t, r, frames, f, i).taken == r.taken + frames
    decreases |frames|
  {
    if frames != [] {
      StampAllTakes(t, StampAudio(t, r, frames[0], f(i)), frames[1..], f, i + 1);
      assert r.taken + [frames[0]] + frames[1..] == r.taken + frames;
    }
  }

  lemma {:induction false} StampAllAppend(
    t: Timing, r: Recording, frames: seq<seq<byte>>, more: seq<seq<byte>>, f: nat -> Outcome, i: nat)
    ensures StampAll(t, r, frames + more, f, i) == StampAll(t, StampAll(t, r, frames, f, i), more, f, i + |frames|)
    decreases |frames|
  {
    if frames == [] {
      assert frames + more == more;
    } else {
      assert (frames + more)[1..] == frames[1..] + more;
      StampAllAppend(t, StampAudio(t, r, frames[0], f(i)), frames[1..], more, f, i + 1);
    }
  }

  // One round of the loop against the cutting: a frame less to hand on, or the end.
  lemma OneFrameLess(
    n: nat, s: seq<byte>, f: nat -> Outcome, i: nat,
    left: seq<seq<byte>>, rest: seq<byte>, ok: bool, t: Timing, r: Recording)
    requires 0 < n <= |s| && (left, rest, ok) == HandOn(n, s, f, i)
    ensures left != [] && left[0] == s[..n]
    ensures StampAll(t, r, left, f, i) == StampAll(t, StampAudio(t, r, s[..n], f(i)), left[1..], f, i + 1)
    ensures if f(i).Written? then (left[1..], rest, ok) == HandOn(n, s[n..], f, i + 1)
            else left[1..] == [] && rest == s[n..] && !ok
  {
  }

  // The sound side of the file writer.
  class AudioWriter {
    const dataSize: nat            // nb_samples * AUDIO_SAMPLE_SIZE * channel
    const codec: nat -> Outcome    // how the writer's calls end
    const creater: Encoder.VideoCreater
    const buffer: ChunkQueue.MemoryBuffer
    var calls: nat

    ghost predicate Valid()
      reads this, buffer, buffer.Repr
    {
      0 < dataSize && buffer.Valid()
    }

    constructor (dataSize: nat, codec: nat -> Outcome, creater: Encoder.VideoCreater)
      requires 0 < dataSize
      ensures Valid() && fresh(buffer) && fresh(buffer.Repr) && buffer.Contents() == []
      ensures this.dataSize == dataSize && this.codec == codec && this.creater == creater
    {
      this.dataSize, this.codec, this.creater, calls := dataSize, codec, creater, 0;
      buffer := new ChunkQueue.MemoryBuffer();
    }

    // One round of the loop: None when no full frame is left, else whether it was written.
    method WriteFrame() returns (written: Option<bool>)
      requires Valid()
      modifies this, creater, buffer, buffer.Repr
      ensures Valid() && buffer.Repr == old(buffer.Repr)
      ensures written.None? <==> |old(buffer.Contents())| < dataSize
      ensures written.None? ==>
        calls == old(calls) && creater.Value() == old(creater.Value()) && buffer.Contents() == old(buffer.Contents())
      ensures written.Some? ==>
        var frame, o := old(buffer.Contents())[..dataSize], codec(old(calls));
        && creater.Value() == StampAudio(creater.timing, old(creater.Value()), frame, o)
        && buffer.Contents() == old(buffer.Contents())[dataSize..]
        && written.value == o.Written? && calls == old(calls) + 1
    {
      var data := buffer.Read(dataSize);
      if data == null { return None; }
      var ok := creater.DoWriteAudioPacket(data[..], codec(calls));
      calls := calls + 1;
      written := Some(ok);
    }

    method WriteAudioPacket(packet: array<byte>, n: nat) returns (ok: bool)
      requires Valid() && n <= packet.Length
      modifies this, creater, buffer, buffer.Repr
      ensures Valid() && fresh(buffer.Repr - old(buffer.Repr))
      ensures var (frames, rest, success) := HandOn(dataSize, old(buffer.Contents()) + packet[..n], codec, old(calls));
        && creater.Value() == StampAll(creater.timing, old(creater.Value()), frames, codec, old(calls))
        && buffer.Contents() == rest && ok == success && calls == old(calls) + |frames|
    {
      buffer.Write(packet, n);
      ghost var (frames, rest, success) := HandOn(dataSize, buffer.Contents(), codec, calls);
      ghost var left := frames;   // frames still to be handed on
      while true
        invariant Valid() && fresh(buffer.Repr - old(buffer.Repr))
        invariant calls + |left| == old(calls) + |frames|
        invariant (left, rest, success) == HandOn(dataSize, buffer.Contents(), codec, calls)
        invariant StampAll(creater.timing, creater.Value(), left, codec, calls)
               == StampAll(creater.timing, old(creater.Value()), frames, codec, old(calls))
        decreases |buffer.Contents()|
      {
        if |buffer.Contents()| >= dataSize {
          OneFrameLess(dataSize, buffer.Contents(), codec, calls, left, rest, success, creater.timing, creater.Value());
        }
        var written := WriteFrame();
        if written.None? { break; }
        left := left[1..];
        if !written.value { return false; }
      }
      ok := true;
    }
  }

  // What the writer has done after a series of calls.
  ghost predicate Fed(
    w: AudioWriter, fragments: seq<seq<byte>>, i: nat, r: Recording)
    requires w.Valid()
    reads w, w.creater, w.buffer, w.buffer.Repr
  {
    var (frames, rest) := Feed(w.dataSize, fragments, w.codec, i);
    && w.creater.Value() == StampAll(w.creater.timing, r, frames, w.codec, i)
    && w.buffer.Contents() == rest && w.calls == i + |frames|
  }

  // One call more.
  method WriteNext(w: AudioWriter, fragment: seq<byte>, ghost before: seq<seq<byte>>, ghost i: nat, ghost r: Recording)
    requires w.Valid() && Fed(w, before, i, r)
    modifies w, w.creater, w.buffer, w.buffer.Repr
    ensures w.Valid() && fresh(w.buffer.Repr - old(w.buffer.Repr))
    ensures Fed(w, before + [fragment], i, r)
  {
    ghost var n, f, t := w.dataSize, w.codec, w.creater.timing;
    ghost var (frames, rest) := Feed(n, before, f, i);
    ghost var more := HandOn(n, rest + fragment, f, i + |frames|).0;
    assert Feed(n, before + [fragment], f, i).0 == frames + more by {
      assert (before + [fragment])[..|before|] == before;
    }
    var a := new byte[|fragment|](k requires 0 <= k < |fragment| => fragment[k]);
    assert a[..a.Length] == fragment;
    var _ := w.WriteAudioPacket(a, a.Length);
    StampAllAppend(t, r, frames, more, f, i);
    assert (before + [fragment])[..|before|] == before;
  }

  // A series of calls on a new writer.
  method WriteAll(w: AudioWriter, fragments: seq<seq<byte>>)
    requires w.Valid() && w.buffer.Contents() == []
    modifies w, w.creater, w.buffer, w.buffer.Repr
    ensures w.Valid() && fresh(w.buffer.Repr - old(w.buffer.Repr))
    ensures Fed(w, fragments, old(w.calls), old(w.creater.Value()))
  {
    for j := 0 to |fragments|
      invariant w.Valid() && fresh(w.buffer.Repr - old(w.buffer.Repr))
      invariant Fed(w, fragments[..j], old(w.calls), old(w.creater.Value()))
    {
      WriteNext(w, fragments[j], fragments[..j], old(w.calls), old(w.creater.Value()));
      TakeNext(fragments, j);
    }
    assert fragments[..|fragments|] == fragments;
  }
}
