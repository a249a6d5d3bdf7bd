/**
 The objects on the scheduler thread: the file writer with its two clocks and the
 encoder that takes turns between sound and pictures. Every method is tied to the
 functions on values in Interleaver.
 */
module Encoder {
  import opened Interleaver

  const ERROR_IN_WRITTING_STREAM_FILE := -11

  class VideoCreater {
    const timing: Timing
    var videoPts: nat       // video_st.next_pts
    var audioPts: nat       // audio_st.next_pts
    var samplesCount: nat   // audio_st.samples_count
    var stamps: seq<Stamp>  // frames handed to the encoder, with their timestamps
    var sound: seq<Memory>  // the sound in them
    ghost var taken: seq<Memory>

    constructor (t: Timing)
      ensures timing == t && Value() == NEW_RECORDING
    {
      timing := t;
      videoPts, audioPts, samplesCount, stamps, sound, taken := 0, 0, 0, [], [], [];
    }

    ghost function Value(): Recording
      reads this
    {
      Recording(videoPts, audioPts, samplesCount, stamps, sound, taken)
    }

    predicate VideoTurn()
      reads this
    {
      CompareTs(videoPts, Rational(1, timing.fps), audioPts, Rational(1, timing.rate)) <= 0
    }

    method WriteBitmap(o: Outcome) returns (ok: bool)
      modifies this
      ensures Value() == StampVideo(old(Value()), o)
      ensures ok == o.Written?
    {
      if o.NoFrame? || o.NotConverted? { return false; }
      stamps := stamps + [Video(videoPts)];
      videoPts := videoPts + 1;
      ok := !o.NotEncoded?;
    }

    method DoWriteAudioPacket(packet: Memory, o: Outcome) returns (ok: bool)
      modifies this
      ensures Value() == StampAudio(timing, old(Value()), packet, o)
      ensures ok == o.Written?
    {
      taken := taken + [packet];
      if o.NoFrame? { return false; }
      audioPts := audioPts + timing.nb;
      if o.NotConverted? { return false; }
      stamps, sound := stamps + [Audio(samplesCount)], sound + [packet];
      samplesCount := samplesCount + timing.nb;
      ok := !o.NotEncoded?;
    }
  }

  // What a codec call adds to the errors reported.
  function Report(o: Outcome): seq<int> {
    if o.Written? then [] else [ERROR_IN_WRITTING_STREAM_FILE]
  }

  // What the calls number i up to j add.
  function Reports(f: nat -> Outcome, i: nat, j: nat): seq<int>
    requires i <= j
    decreases j - i
  {
    if i == j then [] else Reports(f, i, j - 1) + Report(f(j - 1))
  }

  // One report with that code for each call that does not succeed.
  lemma {:induction false} ReportsAre(f: nat -> Outcome, i: nat, j: nat)
    requires i <= j
    ensures forall code :: code in Reports(f, i, j) ==> code == -11
    ensures |Reports(f, i, j)| == Failures(f, i, j)
    decreases j - i
  {
    if i < j { ReportsAre(f, i, j - 1); }
  }

  function Failures(f: nat -> Outcome, i: nat, j: nat): nat
    requires i <= j
    decreases j - i
  {
    if i == j then 0 else Failures(f, i, j - 1) + match f(j - 1) case Written => 0 case _ => 1
  }

  class VideoEncoder {
    const needAudio: bool           // whether the two callbacks are installed
    const needVideo: bool
    const codec: nat -> Outcome     // how the calls into the codec library end
    var calls: nat                  // codec calls so far
    var videoCreater: VideoCreater?
    var hasBitmap: bool
    var isStarted: bool
    var schedulerStarted: bool
    var completions: nat
    var reports: seq<int>           // error codes given to on_error
    var backlog: seq<Memory>        // captured sound not yet taken

    // The bitmap is there exactly while an encoder is, and the encoder's recording keeps
    // the rules.
    ghost predicate Valid()
      reads this, videoCreater
    {
      && hasBitmap == (videoCreater != null)
      && (videoCreater != null ==> Inv(videoCreater.timing, videoCreater.Value()))
    }

    constructor (needAudio: bool, needVideo: bool, codec: nat -> Outcome)
      ensures Valid() && videoCreater == null && !isStarted && !schedulerStarted
      ensures this.needAudio == needAudio && this.needVideo == needVideo && this.codec == codec
    {
      this.needAudio, this.needVideo, this.codec := needAudio, needVideo, codec;
      calls, videoCreater, hasBitmap, isStarted, schedulerStarted := 0, null, false, false, false;
      completions, reports, backlog := 0, [], [];
    }

    // One picture is written on every call, the last one again when there is no new one;
    // none, and no clock moves, when there is no bitmap.
    method WriteBitmap()
      requires hasBitmap ==> videoCreater != null
      modifies this`calls, this`reports, videoCreater
      ensures !hasBitmap ==>
        && calls == old(calls) && reports == old(reports)
        && (videoCreater != null ==> videoCreater.Value() == old(videoCreater.Value()))
      ensures hasBitmap ==>
        && calls == old(calls) + 1 && reports == old(reports) + Report(codec(old(calls)))
        && (codec(old(calls)).Written? ==> reports == old(reports))
        && (!codec(old(calls)).Written? ==> reports == old(reports) + [-11])
        && videoCreater.Value() == StampVideo(old(videoCreater.Value()), codec(old(calls)))
    {
      if !hasBitmap { return; }
      var o := codec(calls);
      calls := calls + 1;
      var ok := videoCreater.WriteBitmap(o);
      if !ok { reports := reports + [ERROR_IN_WRITTING_STREAM_FILE]; }
    }

    method WriteAudioPacket(packet: Memory)
      requires videoCreater != null
      modifies this`calls, this`reports, videoCreater
      ensures calls == old(calls) + 1 && reports == old(reports) + Report(codec(old(calls)))
      ensures codec(old(calls)).Written? ==> reports == old(reports)
      ensures !codec(old(calls)).Written? ==> reports == old(reports) + [-11]
      ensures videoCreater.Value() == StampAudio(videoCreater.timing, old(videoCreater.Value()), packet, codec(old(calls)))
    {
      var o := codec(calls);
      calls := calls + 1;
      var ok := videoCreater.DoWriteAudioPacket(packet, o);
      if !ok { reports := reports + [ERROR_IN_WRITTING_STREAM_FILE]; }
    }

    // False exactly when no sound is queued; a packet is gone from the queue even if it
    // could not be written.
    method NeedAudio() returns (more: bool)
      requires videoCreater != null
      modifies this`calls, this`reports, this`backlog, videoCreater
      ensures more == (old(backlog) != [])
      ensures more ==>
        && backlog == old(backlog)[1..]
        && calls == old(calls) + 1 && reports == old(reports) + Report(codec(old(calls)))
        && videoCreater.Value() ==
           StampAudio(videoCreater.timing, old(videoCreater.Value()), old(backlog)[0], codec(old(calls)))
      ensures !more ==>
        backlog == [] && calls == old(calls) && reports == old(reports) && videoCreater.Value() == old(videoCreater.Value())
    {
      if backlog == [] { return false; }
      var packet := backlog[0];
      backlog := backlog[1..];
      WriteAudioPacket(packet);
      more := true;
    }

    // creater is a new encoder, opened by start.
    method DoStart(creater: VideoCreater)
      requires Valid() && creater.Value() == NEW_RECORDING
      modifies this
      ensures Valid() && videoCreater == creater && schedulerStarted
      ensures isStarted == old(isStarted) && completions == old(completions) && reports == old(reports)
      ensures backlog == old(backlog) && calls == old(calls)
    {
      videoCreater := creater;
      hasBitmap := true;
      schedulerStarted := true;
      NewRecordingInv(creater.timing);
    }

    // The callback; bitmap says whether the capture has a new picture.
    method NeedVideo(bitmap: bool) returns (isNew: bool)
      requires hasBitmap ==> videoCreater != null
      modifies this`calls, this`reports, videoCreater
      ensures isNew == bitmap
      ensures !hasBitmap ==>
        && calls == old(calls) && reports == old(reports)
        && (videoCreater != null ==> videoCreater.Value() == old(videoCreater.Value()))
      ensures hasBitmap ==>
        && calls == old(calls) + 1 && reports == old(reports) + Report(codec(old(calls)))
        && videoCreater.Value() == StampVideo(old(videoCreater.Value()), codec(old(calls)))
    {
      WriteBitmap();
      isNew := bitmap;
    }

    // One turn. It asks for a pause exactly when there is no sound on a sound turn, or no new
    // picture on a picture turn.
    method DoRepeat(bitmap: bool) returns (needSleep: bool)
      requires Valid()
      modifies this`calls, this`reports, this`backlog, videoCreater
      ensures Valid()
      ensures videoCreater == null || !needAudio || !needVideo ==>
        && !needSleep && backlog == old(backlog) && calls == old(calls) && reports == old(reports)
        && (videoCreater != null ==> videoCreater.Value() == old(videoCreater.Value()))
      ensures videoCreater != null && needAudio && needVideo ==>
        var o, idle := codec(old(calls)), Ended(videoCreater.timing, old(videoCreater.Value()), old(backlog));
        && (videoCreater.Value(), backlog) == Turn(videoCreater.timing, old(videoCreater.Value()), old(backlog), o)
        && calls == old(calls) + (if idle then 0 else 1)
        && reports == old(reports) + (if idle then [] else Report(o))
        && (needSleep <==> if old(videoCreater.VideoTurn()) then !bitmap else old(backlog) == [])
    {
      needSleep := false;
      if videoCreater == null || !needAudio || !needVideo { return; }
      TurnKeepsInv(videoCreater.timing, videoCreater.Value(), backlog, codec(calls));
      if videoCreater.VideoTurn() {
        var isNew := NeedVideo(bitmap);
        needSleep := !isNew;
      } else {
        var more := NeedAudio();
        needSleep := !more;
      }
    }

    // The body of the drain loop: one turn, or false when sound is due and there is none.
    method DrainTurn() returns (more: bool)
      requires hasBitmap && videoCreater != null
      modifies this`calls, this`reports, this`backlog, videoCreater
      ensures more == !Ended(videoCreater.timing, old(videoCreater.Value()), old(backlog))
      ensures (videoCreater.Value(), backlog) ==
        Turn(videoCreater.timing, old(videoCreater.Value()), old(backlog), codec(old(calls)))
      ensures if more then calls == old(calls) + 1 && reports == old(reports) + Report(codec(old(calls)))
              else calls == old(calls) && reports == old(reports)
    {
      if videoCreater.VideoTurn() {
        WriteBitmap();
        more := true;
      } else {
        more := NeedAudio();
      }
    }

    // The loop of do_stop, which ends unless it hangs on a picture.
    method DrainSound()
      requires Valid() && videoCreater != null
      requires needAudio && needVideo ==> !Hangs(videoCreater.timing, videoCreater.Value(), backlog, codec, calls)
      modifies this`calls, this`reports, this`backlog, videoCreater
      ensures old(calls) <= calls && reports == old(reports) + Reports(codec, old(calls), calls)
      ensures !(needAudio && needVideo) ==>
        calls == old(calls) && videoCreater.Value() == old(videoCreater.Value()) && backlog == old(backlog)
      ensures needAudio && needVideo ==>
        && EndedAt(videoCreater.timing, old(videoCreater.Value()), old(backlog), codec, old(calls), calls)
        && (videoCreater.Value(), backlog) ==
           Turns(videoCreater.timing, old(videoCreater.Value()), old(backlog), codec, old(calls), calls)
    {
      ghost var t, r, sound, i := videoCreater.timing, videoCreater.Value(), backlog, calls;
      ghost var end := i;
      if needAudio && needVideo {
        DrainEndsExactly(t, r, sound, codec, i);
        end :| i <= end && EndedAt(t, r, sound, codec, i, end);
      }
      while true
        invariant hasBitmap && i <= calls <= end && (videoCreater.Value(), backlog) == Turns(t, r, sound, codec, i, calls)
        invariant reports == old(reports) + Reports(codec, i, calls)
        decreases end - calls
      {
        if !needAudio { break; }
        if !needVideo { break; }
        if calls == end { assert Ended(t, videoCreater.Value(), backlog); }
        var more := DrainTurn();
        if !more { break; }
      }
    }

    // Leaves the file drained, the flag down and the encoder gone: all queued sound was
    // taken, and handed on if and only if no sound turn lost any; there are
    // floor(a*fps/rate)+1 pictures, and if the sound timestamps do not lag behind the
    // sound clock all frames are in order.
    method DoStop()
      requires Valid()
      requires videoCreater != null && needAudio && needVideo ==>
        !Hangs(videoCreater.timing, videoCreater.Value(), backlog, codec, calls)
      modifies this, videoCreater
      ensures Valid() && !schedulerStarted && videoCreater == null
      ensures old(videoCreater) == null ==>
        && isStarted == old(isStarted) && completions == old(completions)
        && reports == old(reports) && backlog == old(backlog) && calls == old(calls)
      ensures old(videoCreater) != null ==> !isStarted && completions == old(completions) + 1
      ensures old(videoCreater) != null && !(needAudio && needVideo) ==>
        && old(videoCreater).Value() == old(videoCreater.Value())
        && backlog == old(backlog) && reports == old(reports)
      ensures old(videoCreater) != null && needAudio && needVideo ==>
        var c := old(videoCreater);
        && backlog == [] && c.taken == old(videoCreater.taken) + old(backlog) && old(videoCreater.stamps) <= c.stamps
        && c.videoPts == c.audioPts * c.timing.fps / c.timing.rate + 1
        && Counted(c.timing, c.Value())
        && (c.samplesCount == c.audioPts ==> StableMerge(c.timing, c.stamps))
        && old(calls) <= calls && reports == old(reports) + Reports(codec, old(calls), calls)
        && (c.sound == old(videoCreater.sound) + old(backlog) <==>
            NothingLost(TurnEvents(c.timing, old(videoCreater.Value()), old(backlog), codec, old(calls), calls)))
        && c.Value() == Turns(c.timing, old(videoCreater.Value()), old(backlog), codec, old(calls), calls).0
    {
      schedulerStarted := false;
      if videoCreater == null { return; }
      DrainSound();
      if needAudio && needVideo {
        DrainCompletes(videoCreater.timing, old(videoCreater.Value()), old(backlog), codec, old(calls), calls);
        DrainWritesAll(videoCreater.timing, old(videoCreater.Value()), old(backlog), codec, old(calls), calls);
      }
      isStarted := false;
      videoCreater := null;
      hasBitmap := false;
      completions := completions + 1;
    }
  }
}
