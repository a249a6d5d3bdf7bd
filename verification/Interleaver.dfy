/**
 The audio/video interleaver on values: one recording is a stream of frames that
 got a timestamp and went to the encoder. Which kind of frame is next is decided
 by comparing the two running clocks exactly.
 */
module Interleaver {
  import opened Arith
  import opened Bytes

  type Memory = seq<byte>

  // fps pictures and rate sound samples a second, nb samples in a sound packet.
  datatype Config = Config(fps: nat, rate: nat, nb: nat)

  type Timing = c: Config | 0 < c.fps && 0 < c.rate && 0 < c.nb witness Config(25, 44100, 1024)

  datatype Rational = Rational(num: int, den: int)

  // av_compare_ts: the sign of tsA * tbA - tsB * tbB.
  function CompareTs(tsA: int, tbA: Rational, tsB: int, tbB: Rational): int {
    var left := tsA * (tbA.num * tbB.den);
    var right := tsB * (tbB.num * tbA.den);
    if left < right then -1 else if right < left then 1 else 0
  }

  predicate IsVideoTurn(t: Timing, v: nat, a: nat) {
    CompareTs(v, Rational(1, t.fps), a, Rational(1, t.rate)) <= 0
  }

  // What the codec library does with one frame: it can fail to allocate it, fail
  // while preparing or converting it, fail while encoding or writing it, or succeed.
  datatype Outcome = NoFrame | NotConverted | NotEncoded | Written

  predicate Encodes(o: Outcome) { o.NotEncoded? || o.Written? }

  // A frame handed to the encoder, with the timestamp it carries.
  datatype Stamp = Video(pts: nat) | Audio(pts: nat)

  /** One recording. v and a are the clocks the turn is decided on (next_pts of the two
      streams), samples the timestamp of the next sound frame (samples_count). */
  datatype Recording = Recording(
    v: nat,
    a: nat,
    samples: nat,
    stamps: seq<Stamp>,
    sound: seq<Memory>,   // packets handed to the encoder
    taken: seq<Memory>)   // packets taken from the queue, handed on or not

  const NEW_RECORDING := Recording(0, 0, 0, [], [], [])

  function StampVideo(r: Recording, o: Outcome): Recording {
    if Encodes(o) then
      r.(v := r.v + 1, stamps := r.stamps + [Video(r.v)])
    else r
  }

  function StampAudio(t: Timing, r: Recording, packet: Memory, o: Outcome): Recording {
    var r := r.(taken := r.taken + [packet]);
    match o
    case NoFrame => r
    case NotConverted => r.(a := r.a + t.nb)
    case _ => r.(a := r.a + t.nb, samples := r.samples + t.nb,
                 stamps := r.stamps + [Audio(r.samples)], sound := r.sound + [packet])
  }

  // One turn: the body of do_repeat, and of the drain loop when it does not leave it.
  function Turn(t: Timing, r: Recording, backlog: seq<Memory>, o: Outcome): (Recording, seq<Memory>) {
    if IsVideoTurn(t, r.v, r.a) then (StampVideo(r, o), backlog)
    else if backlog == [] then (r, backlog)
    else (StampAudio(t, r, backlog[0], o), backlog[1..])
  }

  // ---- Independent description of the right order of frames ----

  function CountVideo(l: seq<Stamp>): nat {
    if l == [] then 0 else CountVideo(l[..|l| - 1]) + if l[|l| - 1].Video? then 1 else 0
  }

  function CountAudio(l: seq<Stamp>): nat {
    if l == [] then 0 else CountAudio(l[..|l| - 1]) + if l[|l| - 1].Audio? then 1 else 0
  }

  // The k-th picture carries k, the k-th sound frame k * nb.
  predicate Numbered(t: Timing, l: seq<Stamp>) {
    l == [] ||
    var front, s := l[..|l| - 1], l[|l| - 1];
    Numbered(t, front) && s.pts == if s.Video? then CountVideo(front) else t.nb * CountAudio(front)
  }

  // Time of a stamp in units of 1/(fps*rate) seconds.
  function Time(t: Timing, s: Stamp): nat {
    if s.Video? then s.pts * t.rate else s.pts * t.fps
  }

  // x may stand before y: earlier, or at the same time and not sound before picture.
  predicate Before(t: Timing, x: Stamp, y: Stamp) {
    Time(t, x) < Time(t, y) || (Time(t, x) == Time(t, y) && !(x.Audio? && y.Video?))
  }

  // Every frame comes after all the frames before it.
  predicate Ordered(t: Timing, l: seq<Stamp>) {
    l == [] ||
    var front, s := l[..|l| - 1], l[|l| - 1];
    Ordered(t, front) && forall x :: x in front ==> Before(t, x, s)
  }

  // The stable merge of the first CountVideo(l) pictures and CountAudio(l) sound frames.
  ghost predicate StableMerge(t: Timing, l: seq<Stamp>) {
    Numbered(t, l) && Ordered(t, l)
  }

  // ---- What every turn keeps ----

  // The two clocks: never more than one picture ahead, never a whole packet behind.
  predicate InDrift(t: Timing, v: nat, a: nat) {
    -(t.nb * t.fps) < v * t.rate - a * t.fps <= t.rate
  }

  // The newest picture is not later than the timestamp the next sound frame will carry.
  predicate CaughtUp(t: Timing, r: Recording) {
    0 < r.v ==> (r.v - 1) * t.rate <= r.samples * t.fps
  }

  // While sound timestamps do not lag behind the sound clock, the frames are in order.
  ghost predicate OrderKept(t: Timing, r: Recording) {
    r.samples == r.a ==> Ordered(t, r.stamps) && CaughtUp(t, r)
  }

  // The clocks against the frames handed on. A failed conversion moves the sound clock only.
  predicate Counted(t: Timing, r: Recording) {
    && Numbered(t, r.stamps)
    && r.v == CountVideo(r.stamps)
    && |r.sound| == CountAudio(r.stamps)
    && r.samples == t.nb * |r.sound|
    && (r.samples == r.a || r.samples + t.nb <= r.a)
  }

  ghost predicate Inv(t: Timing, r: Recording) {
    InDrift(t, r.v, r.a) && Counted(t, r) && OrderKept(t, r)
  }

  lemma TurnMeaning(t: Timing, v: nat, a: nat)
    ensures IsVideoTurn(t, v, a) <==> v * t.rate <= a * t.fps
  {
  }

  // The turn is the exact comparison of the two times in seconds.
  lemma TurnIsEarlierTime(t: Timing, v: nat, a: nat)
    ensures IsVideoTurn(t, v, a) <==> v as real / t.fps as real <= a as real / t.rate as real
  {
    var f, r := t.fps as real, t.rate as real;
    var x, y := v as real / f, a as real / r;
    assert x * f == v as real && y * r == a as real;
    assert (v * t.rate) as real == x * f * r == x * (f * r);
    assert (a * t.fps) as real == y * r * f == y * (f * r);
    assert 0.0 < f * r;
    if x <= y { assert x * (f * r) <= y * (f * r); } else { assert y * (f * r) < x * (f * r); }
  }

  // Every stamp so far is older than the clocks.
  lemma {:induction false} StampsBelowClocks(t: Timing, l: seq<Stamp>, x: Stamp)
    requires Numbered(t, l) && x in l
    ensures if x.Video? then x.pts + 1 <= CountVideo(l) else x.pts + t.nb <= t.nb * CountAudio(l)
  {
    var front, s := l[..|l| - 1], l[|l| - 1];
    assert l == front + [s];
    MulLe(CountAudio(front), CountAudio(l), t.nb);
    assert t.nb * (CountAudio(front) + 1) == t.nb * CountAudio(front) + t.nb;
    if x != s { StampsBelowClocks(t, front, x); }
  }

  // The newest picture, and the newest sound frame, are in the list.
  lemma {:induction false} NewestIsThere(t: Timing, l: seq<Stamp>)
    requires Numbered(t, l)
    ensures 0 < CountVideo(l) ==> Video(CountVideo(l) - 1) in l
    ensures 0 < CountAudio(l) ==> Audio(t.nb * (CountAudio(l) - 1)) in l
  {
    if l != [] {
      var front := l[..|l| - 1];
      assert l == front + [l[|l| - 1]];
      NewestIsThere(t, front);
    }
  }

  lemma AppendStamp(t: Timing, l: seq<Stamp>, s: Stamp)
    ensures Numbered(t, l + [s]) <==>
      Numbered(t, l) && s.pts == if s.Video? then CountVideo(l) else t.nb * CountAudio(l)
    ensures CountVideo(l + [s]) == CountVideo(l) + if s.Video? then 1 else 0
    ensures CountAudio(l + [s]) == CountAudio(l) + if s.Audio? then 1 else 0
    ensures Ordered(t, l + [s]) <==> Ordered(t, l) && forall x :: x in l ==> Before(t, x, s)
  {
    var m := l + [s];
    assert m[..|m| - 1] == l && m[|m| - 1] == s;
  }

  lemma VideoKeepsDrift(t: Timing, v: nat, a: nat)
    requires InDrift(t, v, a) && IsVideoTurn(t, v, a)
    ensures InDrift(t, v + 1, a)
  {
    assert (v + 1) * t.rate == v * t.rate + t.rate;
  }

  // A picture in its turn never breaks the order; it is not later than the next sound
  // timestamp exactly when sound timestamps do not lag.
  lemma VideoKeepsOrder(t: Timing, r: Recording)
    requires InDrift(t, r.v, r.a) && Counted(t, r) && IsVideoTurn(t, r.v, r.a)
    ensures Ordered(t, r.stamps + [Video(r.v)]) <==> Ordered(t, r.stamps)
    ensures r.v * t.rate <= r.samples * t.fps <==> r.samples == r.a
  {
    var s := Video(r.v);
    AppendStamp(t, r.stamps, s);
    SoundIsBehindPicture(t, r.v, r.a, r.samples);
    forall x | x in r.stamps ensures Before(t, x, s) {
      StampsBelowClocks(t, r.stamps, x);
      if x.Video? { MulLt(x.pts, r.v, t.rate); } else { MulLe(x.pts, r.samples - t.nb, t.fps); }
    }
  }

  // The last sound frame is earlier than the picture whose turn it is; when sound
  // timestamps lag, so is the next one.
  lemma SoundIsBehindPicture(t: Timing, v: nat, a: nat, samples: nat)
    requires InDrift(t, v, a) && (samples == a || samples + t.nb <= a)
    ensures (samples - t.nb) * t.fps < v * t.rate
    ensures samples != a ==> samples * t.fps < v * t.rate
  {
    var last := a - t.nb;
    assert last * t.fps < v * t.rate by { assert last * t.fps == a * t.fps - t.nb * t.fps; }
    MulLe(samples - t.nb, last, t.fps);
    if samples != a { MulLe(samples, last, t.fps); }
  }

  lemma AudioKeepsDrift(t: Timing, v: nat, a: nat)
    requires InDrift(t, v, a) && !IsVideoTurn(t, v, a)
    ensures InDrift(t, v, a + t.nb)
  {
    assert (a + t.nb) * t.fps == a * t.fps + t.nb * t.fps;
  }

  // A sound frame keeps the order exactly when the newest picture is not later than it.
  lemma SoundOrderGuard(t: Timing, r: Recording)
    requires Counted(t, r)
    ensures Ordered(t, r.stamps + [Audio(r.samples)]) <==> Ordered(t, r.stamps) && CaughtUp(t, r)
  {
    var s := Audio(r.samples);
    AppendStamp(t, r.stamps, s);
    if CaughtUp(t, r) {
      forall x | x in r.stamps ensures Before(t, x, s) {
        StampsBelowClocks(t, r.stamps, x);
        if x.Video? { MulLe(x.pts, r.v - 1, t.rate); } else { MulLt(x.pts, r.samples, t.fps); }
      }
    } else {
      NewestIsThere(t, r.stamps);
      assert !Before(t, Video(r.v - 1), s);
    }
  }

  lemma VideoKeepsCounts(t: Timing, r: Recording, o: Outcome)
    requires Counted(t, r)
    ensures Counted(t, StampVideo(r, o))
  {
    if Encodes(o) { AppendStamp(t, r.stamps, Video(r.v)); }
  }

  lemma NextProduct(nb: nat, n: nat)
    ensures nb * (n + 1) == nb * n + nb
  {
  }

  lemma AudioKeepsCounts(t: Timing, r: Recording, packet: Memory, o: Outcome)
    requires Counted(t, r)
    ensures Counted(t, StampAudio(t, r, packet, o))
  {
    if Encodes(o) {
      NextProduct(t.nb, |r.sound|);
      AppendStamp(t, r.stamps, Audio(r.samples));
    }
  }

  lemma VideoKeepsInv(t: Timing, r: Recording, o: Outcome)
    requires Inv(t, r) && IsVideoTurn(t, r.v, r.a)
    ensures Inv(t, StampVideo(r, o))
  {
    VideoKeepsDrift(t, r.v, r.a);
    VideoKeepsCounts(t, r, o);
    VideoKeepsOrder(t, r);
  }

  lemma AudioKeepsInv(t: Timing, r: Recording, packet: Memory, o: Outcome)
    requires Inv(t, r) && !IsVideoTurn(t, r.v, r.a)
    ensures Inv(t, StampAudio(t, r, packet, o))
  {
    AudioKeepsDrift(t, r.v, r.a);
    AudioKeepsCounts(t, r, packet, o);
    SoundOrderGuard(t, r);
    MulLe(r.samples, r.samples + t.nb, t.fps);
  }

  lemma TurnKeepsInv(t: Timing, r: Recording, backlog: seq<Memory>, o: Outcome)
    requires Inv(t, r)
    ensures Inv(t, Turn(t, r, backlog, o).0)
  {
    if IsVideoTurn(t, r.v, r.a) {
      VideoKeepsInv(t, r, o);
    } else if backlog != [] {
      AudioKeepsInv(t, r, backlog[0], o);
    }
  }

  lemma NewRecordingInv(t: Timing)
    ensures Inv(t, NEW_RECORDING)
  {
    assert 0 < t.nb * t.fps;
  }

  // ---- What turns do to the order of frames ----

  // One turn: a sound packet was dropped without a frame for it; its conversion failed, so
  // that the sound clock moved and nothing was written; a picture was stamped; sound was
  // stamped; or nothing happened.
  datatype Event = Idle | Dropped | Unconverted | Picture | Sound

  function EventOf(t: Timing, r: Recording, backlog: seq<Memory>, o: Outcome): Event {
    if IsVideoTurn(t, r.v, r.a) then if Encodes(o) then Picture else Idle
    else if backlog == [] then Idle
    else match o
      case NoFrame => Dropped
      case NotConverted => Unconverted
      case _ => Sound
  }

  // A picture some time after a failed conversion.
  ghost predicate Skewed(l: seq<Event>) {
    exists i, j :: 0 <= i < j < |l| && l[i].Unconverted? && l[j].Picture?
  }

  // A failed conversion, later a picture, later sound.
  ghost predicate LateSound(l: seq<Event>) {
    exists i, j, k :: 0 <= i < j < k < |l| && l[i].Unconverted? && l[j].Picture? && l[k].Sound?
  }

  lemma SkewedNext(l: seq<Event>, e: Event)
    ensures Skewed(l + [e]) <==> Skewed(l) || (e.Picture? && Unconverted in l)
  {
    var m := l + [e];
    if Skewed(m) {
      var i, j :| 0 <= i < j < |m| && m[i].Unconverted? && m[j].Picture?;
      assert m[i] == l[i] && (j < |l| ==> m[j] == l[j]);
    }
    if Skewed(l) {
      var i, j :| 0 <= i < j < |l| && l[i].Unconverted? && l[j].Picture?;
      assert m[i] == l[i] && m[j] == l[j];
    } else if e.Picture? && Unconverted in l {
      var i :| 0 <= i < |l| && l[i].Unconverted?;
      assert m[i] == l[i] && m[|l|] == e;
    }
  }

  lemma LateSoundNext(l: seq<Event>, e: Event)
    ensures LateSound(l + [e]) <==> LateSound(l) || (e.Sound? && Skewed(l))
  {
    var m := l + [e];
    if LateSound(m) {
      var i, j, k :| 0 <= i < j < k < |m| && m[i].Unconverted? && m[j].Picture? && m[k].Sound?;
      assert m[i] == l[i] && m[j] == l[j] && (k < |l| ==> m[k] == l[k]);
    }
    if LateSound(l) {
      var i, j, k :| 0 <= i < j < k < |l| && l[i].Unconverted? && l[j].Picture? && l[k].Sound?;
      assert m[i] == l[i] && m[j] == l[j] && m[k] == l[k];
    } else if e.Sound? && Skewed(l) {
      var i, j :| 0 <= i < j < |l| && l[i].Unconverted? && l[j].Picture?;
      assert m[i] == l[i] && m[j] == l[j] && m[|l|] == e;
    }
  }

  // What the turns so far say about the counters and about the frames.
  ghost predicate OrderShown(t: Timing, r: Recording, l: seq<Event>) {
    && (Unconverted in l <==> r.samples != r.a)
    && (Ordered(t, r.stamps) <==> !LateSound(l))
    && (Ordered(t, r.stamps) ==> (CaughtUp(t, r) <==> !Skewed(l)))
  }

  lemma VideoShowsOrder(t: Timing, r: Recording, l: seq<Event>, o: Outcome)
    requires InDrift(t, r.v, r.a) && Counted(t, r) && OrderShown(t, r, l)
    requires IsVideoTurn(t, r.v, r.a) && Encodes(o)
    ensures OrderShown(t, StampVideo(r, o), l + [Picture])
  {
    SkewedNext(l, Picture);
    LateSoundNext(l, Picture);
    VideoKeepsOrder(t, r);
  }

  lemma SoundShowsOrder(t: Timing, r: Recording, l: seq<Event>, packet: Memory, o: Outcome)
    requires Counted(t, r) && OrderShown(t, r, l) && Encodes(o)
    ensures OrderShown(t, StampAudio(t, r, packet, o), l + [Sound])
  {
    SkewedNext(l, Sound);
    LateSoundNext(l, Sound);
    SoundOrderGuard(t, r);
    MulLe(r.samples, r.samples + t.nb, t.fps);
  }

  lemma TurnShowsOrder(t: Timing, r: Recording, backlog: seq<Memory>, o: Outcome, l: seq<Event>)
    requires Inv(t, r) && OrderShown(t, r, l)
    ensures OrderShown(t, Turn(t, r, backlog, o).0, l + [EventOf(t, r, backlog, o)])
  {
    match EventOf(t, r, backlog, o)
    case Picture => VideoShowsOrder(t, r, l, o);
    case Sound => SoundShowsOrder(t, r, l, backlog[0], o);
    case e =>
      SkewedNext(l, e);
      LateSoundNext(l, e);
  }

  // ---- Recording: packets arrive and turns are taken, in any order ----

  datatype Step = Arrive(packet: Memory) | TakeTurn(outcome: Outcome)

  function Record(t: Timing, steps: seq<Step>): (Recording, seq<Memory>) {
    if steps == [] then (NEW_RECORDING, [])
    else
      var (r, backlog) := Record(t, steps[..|steps| - 1]);
      match steps[|steps| - 1]
      case Arrive(p) => (r, backlog + [p])
      case TakeTurn(o) => Turn(t, r, backlog, o)
  }

  function Arrivals(steps: seq<Step>): seq<Memory> {
    if steps == [] then []
    else Arrivals(steps[..|steps| - 1]) +
         match steps[|steps| - 1] case Arrive(p) => [p] case TakeTurn(_) => []
  }

  // What each step was, from the run before it.
  function Events(t: Timing, steps: seq<Step>): (l: seq<Event>)
    ensures |l| == |steps|
  {
    if steps == [] then []
    else
      var front := steps[..|steps| - 1];
      var (r, backlog) := Record(t, front);
      Events(t, front) +
      match steps[|steps| - 1] case Arrive(_) => [Idle] case TakeTurn(o) => [EventOf(t, r, backlog, o)]
  }

  lemma RecordNext(t: Timing, steps: seq<Step>, step: Step)
    ensures Record(t, steps + [step]) ==
      var (r, backlog) := Record(t, steps);
      match step case Arrive(p) => (r, backlog + [p]) case TakeTurn(o) => Turn(t, r, backlog, o)
  {
    var next := steps + [step];
    assert next[..|next| - 1] == steps;
  }

  lemma {:induction false} EventAt(t: Timing, steps: seq<Step>, i: nat)
    requires i < |steps|
    ensures var (r, backlog) := Record(t, steps[..i]);
      Events(t, steps)[i] ==
        match steps[i] case Arrive(_) => Idle case TakeTurn(o) => EventOf(t, r, backlog, o)
  {
    var front := steps[..|steps| - 1];
    if i < |front| {
      EventAt(t, front, i);
      assert front[..i] == steps[..i];
    }
  }

  lemma {:induction false} RecordKeepsInv(t: Timing, steps: seq<Step>)
    ensures Inv(t, Record(t, steps).0)
  {
    if steps == [] {
      NewRecordingInv(t);
    } else {
      var front := steps[..|steps| - 1];
      RecordKeepsInv(t, front);
      var (r, backlog) := Record(t, front);
      match steps[|steps| - 1]
      case Arrive(_) =>
      case TakeTurn(o) => TurnKeepsInv(t, r, backlog, o);
    }
  }

  lemma {:induction false} RecordShowsOrder(t: Timing, steps: seq<Step>)
    ensures OrderShown(t, Record(t, steps).0, Events(t, steps))
  {
    if steps != [] {
      var front := steps[..|steps| - 1];
      RecordShowsOrder(t, front);
      RecordKeepsInv(t, front);
      var (r, backlog) := Record(t, front);
      match steps[|steps| - 1]
      case Arrive(_) =>
        SkewedNext(Events(t, front), Idle);
        LateSoundNext(Events(t, front), Idle);
      case TakeTurn(o) => TurnShowsOrder(t, r, backlog, o, Events(t, front));
    }
  }

  lemma TurnKeepsSound(t: Timing, r: Recording, backlog: seq<Memory>, o: Outcome)
    ensures var (r', backlog') := Turn(t, r, backlog, o);
      && r'.taken + backlog' == r.taken + backlog
      && r.stamps <= r'.stamps
  {
    if backlog != [] { assert backlog == [backlog[0]] + backlog[1..]; }
  }

  // Every packet that arrived is taken from the queue once and in order, or still queued.
  lemma {:induction false} PacketsInOrder(t: Timing, steps: seq<Step>)
    ensures var (r, backlog) := Record(t, steps); r.taken + backlog == Arrivals(steps)
  {
    if steps != [] {
      var front := steps[..|steps| - 1];
      PacketsInOrder(t, front);
      var (r, backlog) := Record(t, front);
      match steps[|steps| - 1]
      case Arrive(p) => assert r.taken + (backlog + [p]) == (r.taken + backlog) + [p];
      case TakeTurn(o) => TurnKeepsSound(t, r, backlog, o);
    }
  }

  // ---- Which packets reach the encoder ----

  // The turn takes a packet and does not hand it on.
  predicate Loses(e: Event) { e.Dropped? || e.Unconverted? }

  predicate NothingLost(l: seq<Event>) { forall i :: 0 <= i < |l| ==> !Loses(l[i]) }

  function Losses(l: seq<Event>): nat {
    if l == [] then 0 else Losses(l[..|l| - 1]) + if Loses(l[|l| - 1]) then 1 else 0
  }

  // a is b with some elements left out.
  predicate Subsequence(a: seq<Memory>, b: seq<Memory>) {
    a == [] ||
    (b != [] &&
     ((a[|a| - 1] == b[|b| - 1] && Subsequence(a[..|a| - 1], b[..|b| - 1])) || Subsequence(a, b[..|b| - 1])))
  }

  // Of the packets taken, those handed on: in order, and as many missing as turns lost one.
  ghost predicate Reaches(sound: seq<Memory>, taken: seq<Memory>, l: seq<Event>) {
    Subsequence(sound, taken) && |taken| == |sound| + Losses(l)
  }

  lemma LossesNext(l: seq<Event>, e: Event)
    ensures Losses(l + [e]) == Losses(l) + if Loses(e) then 1 else 0
  {
    assert (l + [e])[..|l|] == l;
  }

  lemma {:induction false} LossesAre(l: seq<Event>)
    ensures Losses(l) == 0 <==> NothingLost(l)
  {
    if l != [] {
      var front := l[..|l| - 1];
      LossesAre(front);
      assert NothingLost(l) <==> NothingLost(front) && !Loses(l[|l| - 1]);
    }
  }

  lemma {:induction false} SubsequenceFits(a: seq<Memory>, b: seq<Memory>)
    requires Subsequence(a, b)
    ensures |a| <= |b| && (|a| == |b| ==> a == b)
    decreases |b|
  {
    if a != [] {
      var a', b' := a[..|a| - 1], b[..|b| - 1];
      if a[|a| - 1] == b[|b| - 1] && Subsequence(a', b') {
        SubsequenceFits(a', b');
        assert a == a' + [a[|a| - 1]] && b == b' + [b[|b| - 1]];
      } else {
        SubsequenceFits(a, b');
      }
    }
  }

  lemma SubsequenceNext(a: seq<Memory>, b: seq<Memory>, x: Memory)
    requires Subsequence(a, b)
    ensures Subsequence(a, b + [x]) && Subsequence(a + [x], b + [x])
  {
    assert (b + [x])[..|b|] == b && (a + [x])[..|a|] == a;
  }

  // They are all the packets taken exactly when no turn lost one.
  lemma ReachesAll(sound: seq<Memory>, taken: seq<Memory>, l: seq<Event>)
    requires Reaches(sound, taken, l)
    ensures sound == taken <==> NothingLost(l)
  {
    LossesAre(l);
    SubsequenceFits(sound, taken);
  }

  // What the turns from r0 to r, of these events, say about the sound handed on.
  ghost predicate SoundShown(r0: Recording, r: Recording, l: seq<Event>) {
    && r0.sound <= r.sound && r0.taken <= r.taken
    && Reaches(r.sound[|r0.sound|..], r.taken[|r0.taken|..], l)
  }

  lemma AudioShowsSound(t: Timing, r0: Recording, r: Recording, packet: Memory, o: Outcome, l: seq<Event>, e: Event)
    requires SoundShown(r0, r, l) && (Encodes(o) ==> e.Sound?) && (!Encodes(o) ==> Loses(e))
    ensures SoundShown(r0, StampAudio(t, r, packet, o), l + [e])
  {
    var sound, taken := r.sound[|r0.sound|..], r.taken[|r0.taken|..];
    LossesNext(l, e);
    SubsequenceNext(sound, taken, packet);
    GrowBehind(r.taken, |r0.taken|, packet);
    GrowBehind(r.sound, |r0.sound|, packet);
  }

  lemma TurnShowsSound(t: Timing, r0: Recording, r: Recording, backlog: seq<Memory>, o: Outcome, l: seq<Event>)
    requires SoundShown(r0, r, l)
    ensures SoundShown(r0, Turn(t, r, backlog, o).0, l + [EventOf(t, r, backlog, o)])
  {
    var e := EventOf(t, r, backlog, o);
    if IsVideoTurn(t, r.v, r.a) || backlog == [] {
      LossesNext(l, e);
    } else {
      AudioShowsSound(t, r0, r, backlog[0], o, l, e);
    }
  }

  lemma {:induction false} RecordShowsSound(t: Timing, steps: seq<Step>)
    ensures SoundShown(NEW_RECORDING, Record(t, steps).0, Events(t, steps))
  {
    if steps != [] {
      var front := steps[..|steps| - 1];
      RecordShowsSound(t, front);
      var (r, backlog) := Record(t, front);
      match steps[|steps| - 1]
      case Arrive(_) => LossesNext(Events(t, front), Idle);
      case TakeTurn(o) => TurnShowsSound(t, NEW_RECORDING, r, backlog, o, Events(t, front));
    }
  }

  // What reaches the encoder is, in order, what was taken from the queue without one packet
  // for each sound turn that ends before the encoder; so it is everything if and only if
  // there was no such turn.
  lemma SoundReachesExactly(t: Timing, steps: seq<Step>)
    ensures var r := Record(t, steps).0;
      && Reaches(r.sound, r.taken, Events(t, steps))
      && (r.sound == r.taken <==> NothingLost(Events(t, steps)))
  {
    var r := Record(t, steps).0;
    RecordShowsSound(t, steps);
    assert r.sound[0..] == r.sound && r.taken[0..] == r.taken;
    ReachesAll(r.sound, r.taken, Events(t, steps));
  }

  // Frames are in timestamp order, pictures first at equal times, if and only if there are
  // no three steps in this order: a sound turn whose conversion fails, a picture turn that
  // stamps a picture, a sound turn that stamps sound.
  lemma OrderedExactlyWithoutLateSound(t: Timing, steps: seq<Step>)
    ensures StableMerge(t, Record(t, steps).0.stamps) <==> !LateSound(Events(t, steps))
  {
    RecordKeepsInv(t, steps);
    RecordShowsOrder(t, steps);
  }

  lemma {:induction false} AllConverted(t: Timing, steps: seq<Step>)
    requires forall i :: 0 <= i < |steps| && steps[i].TakeTurn? ==> !steps[i].outcome.NotConverted?
    ensures Unconverted !in Events(t, steps)
  {
    forall i: nat | i < |steps| ensures !Events(t, steps)[i].Unconverted? {
      EventAt(t, steps, i);
    }
  }

  // Without failed conversions the frames are in order, whatever other calls fail.
  lemma OrderedWhenSoundConverts(t: Timing, steps: seq<Step>)
    requires forall i :: 0 <= i < |steps| && steps[i].TakeTurn? ==> !steps[i].outcome.NotConverted?
    ensures var r := Record(t, steps).0; StableMerge(t, r.stamps) && r.samples == r.a
  {
    AllConverted(t, steps);
    RecordKeepsInv(t, steps);
    RecordShowsOrder(t, steps);
  }

  // ---- Draining: turns until the sound has run out ----

  // f says how the calls into the codec library end, one call a turn. What is left after
  // the calls number i up to j.
  function Turns(t: Timing, r: Recording, backlog: seq<Memory>, f: nat -> Outcome, i: nat, j: nat): (Recording, seq<Memory>)
    requires i <= j
    decreases j - i
  {
    if i == j then (r, backlog)
    else
      var (r', backlog') := Turns(t, r, backlog, f, i, j - 1);
      Turn(t, r', backlog', f(j - 1))
  }

  // The loop's exit: sound is due and there is none.
  predicate Ended(t: Timing, r: Recording, backlog: seq<Memory>) {
    !IsVideoTurn(t, r.v, r.a) && backlog == []
  }

  predicate EndedAt(t: Timing, r: Recording, backlog: seq<Memory>, f: nat -> Outcome, i: nat, j: nat)
    requires i <= j
  {
    var (r', backlog') := Turns(t, r, backlog, f, i, j);
    Ended(t, r', backlog')
  }

  ghost predicate DrainEnds(t: Timing, r: Recording, backlog: seq<Memory>, f: nat -> Outcome, i: nat) {
    exists j :: i <= j && EndedAt(t, r, backlog, f, i, j)
  }

  // No call from m on gets a frame as far as the encoder.
  ghost predicate NeverEncodes(f: nat -> Outcome, m: nat) { forall k :: m <= k ==> !Encodes(f(k)) }

  // It is a picture's turn after the calls up to m.
  predicate PictureDue(t: Timing, r: Recording, backlog: seq<Memory>, f: nat -> Outcome, i: nat, m: nat)
    requires i <= m
  {
    var r' := Turns(t, r, backlog, f, i, m).0;
    IsVideoTurn(t, r'.v, r'.a)
  }

  // A picture is due and never gets its timestamp.
  ghost predicate Hangs(t: Timing, r: Recording, backlog: seq<Memory>, f: nat -> Outcome, i: nat) {
    exists m :: i <= m && PictureDue(t, r, backlog, f, i, m) && NeverEncodes(f, m)
  }

  lemma {:induction false} TurnsFirst(t: Timing, r: Recording, backlog: seq<Memory>, f: nat -> Outcome, i: nat, j: nat)
    requires i < j
    ensures var (r', backlog') := Turn(t, r, backlog, f(i));
      Turns(t, r, backlog, f, i, j) == Turns(t, r', backlog', f, i + 1, j)
    decreases j - i
  {
    if i + 1 < j { TurnsFirst(t, r, backlog, f, i, j - 1); }
  }

  lemma {:induction false} StaysEnded(
    t: Timing, r: Recording, backlog: seq<Memory>, f: nat -> Outcome, i: nat, j: nat, k: nat)
    requires i <= j <= k && EndedAt(t, r, backlog, f, i, j)
    ensures Turns(t, r, backlog, f, i, k) == Turns(t, r, backlog, f, i, j)
    decreases k - j
  {
    if j < k { StaysEnded(t, r, backlog, f, i, j, k - 1); }
  }

  lemma {:induction false} StaysDue(t: Timing, r: Recording, backlog: seq<Memory>, f: nat -> Outcome, i: nat, m: nat, k: nat)
    requires i <= m <= k && PictureDue(t, r, backlog, f, i, m) && NeverEncodes(f, m)
    ensures Turns(t, r, backlog, f, i, k) == Turns(t, r, backlog, f, i, m)
    decreases k - m
  {
    if m < k {
      StaysDue(t, r, backlog, f, i, m, k - 1);
      assert !Encodes(f(k - 1));
    }
  }

  // How far the picture clock is behind, in units of 1/(fps*rate) seconds.
  function Behind(t: Timing, r: Recording): nat {
    if r.v * t.rate <= r.a * t.fps then r.a * t.fps - r.v * t.rate + 1 else 0
  }

  lemma PictureCatchesUp(t: Timing, r: Recording, o: Outcome)
    requires IsVideoTurn(t, r.v, r.a) && Encodes(o)
    ensures Behind(t, StampVideo(r, o)) < Behind(t, r)
  {
    assert (r.v + 1) * t.rate == r.v * t.rate + t.rate;
  }

  // After one turn that does not hang, the rest does not hang either.
  lemma RestDoesNotHang(t: Timing, r: Recording, backlog: seq<Memory>, f: nat -> Outcome, i: nat)
    requires !Hangs(t, r, backlog, f, i)
    ensures var (r', backlog') := Turn(t, r, backlog, f(i)); !Hangs(t, r', backlog', f, i + 1)
  {
    var (r', backlog') := Turn(t, r, backlog, f(i));
    if Hangs(t, r', backlog', f, i + 1) {
      var m :| i + 1 <= m && PictureDue(t, r', backlog', f, i + 1, m) && NeverEncodes(f, m);
      TurnsFirst(t, r, backlog, f, i, m);
      assert PictureDue(t, r, backlog, f, i, m);
    }
  }

  // The next call that encodes, if a picture waits for it.
  lemma NextEncoding(t: Timing, r: Recording, backlog: seq<Memory>, f: nat -> Outcome, i: nat) returns (d: nat)
    requires !Hangs(t, r, backlog, f, i)
    ensures IsVideoTurn(t, r.v, r.a) ==> Encodes(f(i + d))
  {
    d := 0;
    if IsVideoTurn(t, r.v, r.a) {
      assert PictureDue(t, r, backlog, f, i, i);
      var k :| i <= k && Encodes(f(k));
      d := k - i;
    }
  }

  // The drain ends when no picture hangs: sound is used up, pictures catch up, and between
  // two pictures only finitely many calls fail (the next success is d calls away).
  lemma {:induction false} DrainReachesEnd(
    t: Timing, r: Recording, backlog: seq<Memory>, f: nat -> Outcome, i: nat, d: nat) returns (j: nat)
    requires !Hangs(t, r, backlog, f, i)
    requires IsVideoTurn(t, r.v, r.a) ==> Encodes(f(i + d))
    ensures i <= j && EndedAt(t, r, backlog, f, i, j)
    decreases |backlog|, Behind(t, r), d
  {
    if Ended(t, r, backlog) { return i; }
    RestDoesNotHang(t, r, backlog, f, i);
    var (r', backlog') := Turn(t, r, backlog, f(i));
    if IsVideoTurn(t, r.v, r.a) && !Encodes(f(i)) {
      j := DrainReachesEnd(t, r', backlog', f, i + 1, d - 1);
    } else {
      if IsVideoTurn(t, r.v, r.a) { PictureCatchesUp(t, r, f(i)); }
      var d' := NextEncoding(t, r', backlog', f, i + 1);
      j := DrainReachesEnd(t, r', backlog', f, i + 1, d');
    }
    TurnsFirst(t, r, backlog, f, i, j);
  }

  // The drain ends if and only if there is no point from which a picture is due and no call
  // encodes any more. Failing sound calls, and calls that fail after the stamp, do not hold
  // it up, however many there are.
  lemma DrainEndsExactly(t: Timing, r: Recording, backlog: seq<Memory>, f: nat -> Outcome, i: nat)
    ensures DrainEnds(t, r, backlog, f, i) <==> !Hangs(t, r, backlog, f, i)
  {
    if Hangs(t, r, backlog, f, i) {
      var m :| i <= m && PictureDue(t, r, backlog, f, i, m) && NeverEncodes(f, m);
      forall j | i <= j ensures !EndedAt(t, r, backlog, f, i, j) {
        if EndedAt(t, r, backlog, f, i, j) {
          var k := if j < m then m else j;
          StaysDue(t, r, backlog, f, i, m, k);
          StaysEnded(t, r, backlog, f, i, j, k);
        }
      }
    } else {
      var d := NextEncoding(t, r, backlog, f, i);
      var _ := DrainReachesEnd(t, r, backlog, f, i, d);
    }
  }

  const NO_FRAMES: nat -> Outcome := _ => NoFrame

  // Such a drain exists from the first turn on: no picture can ever be allocated.
  lemma DrainCanHang(t: Timing, backlog: seq<Memory>)
    ensures Hangs(t, NEW_RECORDING, backlog, NO_FRAMES, 0) && !DrainEnds(t, NEW_RECORDING, backlog, NO_FRAMES, 0)
  {
    assert PictureDue(t, NEW_RECORDING, backlog, NO_FRAMES, 0, 0) && NeverEncodes(NO_FRAMES, 0);
    DrainEndsExactly(t, NEW_RECORDING, backlog, NO_FRAMES, 0);
  }

  // Once the sound has run out, the pictures number floor(a*fps/rate)+1.
  lemma PicturesCoverSound(t: Timing, v: nat, a: nat)
    requires InDrift(t, v, a) && !IsVideoTurn(t, v, a)
    ensures v == a * t.fps / t.rate + 1
  {
    assert (v - 1) * t.rate == v * t.rate - t.rate;
    QuotientUnique(a * t.fps, t.rate, v - 1);
  }

  // Turns take sound once and in order, only append frames, and keep the rules.
  lemma {:induction false} TurnsKeepInv(t: Timing, r: Recording, backlog: seq<Memory>, f: nat -> Outcome, i: nat, j: nat)
    requires Inv(t, r) && i <= j
    ensures var (d, left) := Turns(t, r, backlog, f, i, j);
      Inv(t, d) && d.taken + left == r.taken + backlog && r.stamps <= d.stamps
    decreases j - i
  {
    if i < j {
      TurnsKeepInv(t, r, backlog, f, i, j - 1);
      var (d, left) := Turns(t, r, backlog, f, i, j - 1);
      TurnKeepsInv(t, d, left, f(j - 1));
      TurnKeepsSound(t, d, left, f(j - 1));
    }
  }

  // A drain that has ended took all the sound and leaves floor(a*fps/rate)+1 pictures.
  lemma DrainCompletes(t: Timing, r: Recording, backlog: seq<Memory>, f: nat -> Outcome, i: nat, j: nat)
    requires Inv(t, r) && i <= j && EndedAt(t, r, backlog, f, i, j)
    ensures var (d, left) := Turns(t, r, backlog, f, i, j);
      && Inv(t, d) && left == [] && d.taken == r.taken + backlog && r.stamps <= d.stamps
      && d.v == d.a * t.fps / t.rate + 1
  {
    TurnsKeepInv(t, r, backlog, f, i, j);
    var d := Turns(t, r, backlog, f, i, j).0;
    PicturesCoverSound(t, d.v, d.a);
  }

  // The events of the calls number i up to j.
  function TurnEvents(t: Timing, r: Recording, backlog: seq<Memory>, f: nat -> Outcome, i: nat, j: nat): seq<Event>
    requires i <= j
    decreases j - i
  {
    if i == j then []
    else
      var (r', backlog') := Turns(t, r, backlog, f, i, j - 1);
      TurnEvents(t, r, backlog, f, i, j - 1) + [EventOf(t, r', backlog', f(j - 1))]
  }

  lemma {:induction false} TurnsShowSound(t: Timing, r: Recording, backlog: seq<Memory>, f: nat -> Outcome, i: nat, j: nat)
    requires i <= j
    ensures var (d, left) := Turns(t, r, backlog, f, i, j);
      SoundShown(r, d, TurnEvents(t, r, backlog, f, i, j)) && d.taken + left == r.taken + backlog
    decreases j - i
  {
    if i < j {
      TurnsShowSound(t, r, backlog, f, i, j - 1);
      var (d, left) := Turns(t, r, backlog, f, i, j - 1);
      TurnShowsSound(t, r, d, left, f(j - 1), TurnEvents(t, r, backlog, f, i, j - 1));
      TurnKeepsSound(t, d, left, f(j - 1));
    }
  }

  // A drain that has ended handed every queued packet to the encoder, once and in order, if
  // and only if none of its sound turns ended before the encoder. Pictures may fail.
  lemma DrainWritesAll(t: Timing, r: Recording, backlog: seq<Memory>, f: nat -> Outcome, i: nat, j: nat)
    requires i <= j && EndedAt(t, r, backlog, f, i, j)
    ensures var d, l := Turns(t, r, backlog, f, i, j).0, TurnEvents(t, r, backlog, f, i, j);
      && r.sound <= d.sound && Reaches(d.sound[|r.sound|..], backlog, l)
      && (d.sound == r.sound + backlog <==> NothingLost(l))
  {
    var d, l := Turns(t, r, backlog, f, i, j).0, TurnEvents(t, r, backlog, f, i, j);
    TurnsShowSound(t, r, backlog, f, i, j);
    var more := d.sound[|r.sound|..];
    assert d.taken + [] == d.taken && (r.taken + backlog)[|r.taken|..] == backlog;
    ReachesAll(more, backlog, l);
    assert d.sound == r.sound + more && (r.sound + backlog)[|r.sound|..] == backlog;
  }

  lemma {:induction false} EncodingLosesNothing(
    t: Timing, r: Recording, backlog: seq<Memory>, f: nat -> Outcome, i: nat, j: nat)
    requires i <= j && forall k :: i <= k < j ==> Encodes(f(k))
    ensures NothingLost(TurnEvents(t, r, backlog, f, i, j))
    decreases j - i
  {
    if i < j {
      EncodingLosesNothing(t, r, backlog, f, i, j - 1);
      assert Encodes(f(j - 1));
    }
  }

  // When every call gets as far as the encoder, the drain ends and nothing is lost.
  lemma EncodingDrainEnds(t: Timing, r: Recording, backlog: seq<Memory>, f: nat -> Outcome, i: nat) returns (j: nat)
    requires forall k :: i <= k ==> Encodes(f(k))
    ensures i <= j && EndedAt(t, r, backlog, f, i, j)
    ensures Turns(t, r, backlog, f, i, j).0.sound == r.sound + backlog
  {
    forall m | i <= m ensures !NeverEncodes(f, m) { assert Encodes(f(m)); }
    DrainEndsExactly(t, r, backlog, f, i);
    j :| i <= j && EndedAt(t, r, backlog, f, i, j);
    EncodingLosesNothing(t, r, backlog, f, i, j);
    DrainWritesAll(t, r, backlog, f, i, j);
  }

  // ---- Finished recordings ----

  function TurnSteps(f: nat -> Outcome, i: nat, j: nat): seq<Step>
    requires i <= j
    decreases j - i
  {
    if i == j then [] else TurnSteps(f, i, j - 1) + [TakeTurn(f(j - 1))]
  }

  // Draining a recording is recording on.
  lemma {:induction false} DrainIsRecording(t: Timing, steps: seq<Step>, f: nat -> Outcome, i: nat, j: nat)
    requires i <= j
    ensures var (r, backlog) := Record(t, steps);
      Record(t, steps + TurnSteps(f, i, j)) == Turns(t, r, backlog, f, i, j)
    decreases j - i
  {
    if i == j {
      assert steps + TurnSteps(f, i, j) == steps;
    } else {
      DrainIsRecording(t, steps, f, i, j - 1);
      var front, last := TurnSteps(f, i, j - 1), [TakeTurn(f(j - 1))];
      RecordNext(t, steps + front, last[0]);
      assert steps + (front + last) == steps + front + last;
    }
  }

  ghost predicate Finished(t: Timing, steps: seq<Step>) {
    Ended(t, Record(t, steps).0, Record(t, steps).1)
  }

  ghost predicate FinishedBy(t: Timing, steps: seq<Step>, f: nat -> Outcome, i: nat, j: nat)
    requires i <= j
  {
    Finished(t, steps + TurnSteps(f, i, j))
  }

  lemma FinishedByDraining(t: Timing, steps: seq<Step>, f: nat -> Outcome, i: nat, j: nat)
    requires i <= j
    ensures FinishedBy(t, steps, f, i, j) <==> EndedAt(t, Record(t, steps).0, Record(t, steps).1, f, i, j)
  {
    DrainIsRecording(t, steps, f, i, j);
  }

  // Every recording is finished by draining it, unless that hangs.
  lemma DrainFinishes(t: Timing, steps: seq<Step>, f: nat -> Outcome, i: nat)
    ensures (exists j :: i <= j && FinishedBy(t, steps, f, i, j)) <==>
            !Hangs(t, Record(t, steps).0, Record(t, steps).1, f, i)
  {
    forall j | i <= j
      ensures FinishedBy(t, steps, f, i, j) <==> EndedAt(t, Record(t, steps).0, Record(t, steps).1, f, i, j)
    {
      FinishedByDraining(t, steps, f, i, j);
    }
    DrainEndsExactly(t, Record(t, steps).0, Record(t, steps).1, f, i);
  }

  lemma {:induction false} MergeIsUnique(t: Timing, l: seq<Stamp>, m: seq<Stamp>)
    requires StableMerge(t, l) && StableMerge(t, m)
    requires CountVideo(l) == CountVideo(m) && CountAudio(l) == CountAudio(m)
    ensures l == m
  {
    if l == [] || m == [] {
      CountsCoverAll(l);
      CountsCoverAll(m);
    } else {
      LastKindsAgree(t, l, m);
      MergeIsUnique(t, l[..|l| - 1], m[..|m| - 1]);
      assert l == l[..|l| - 1] + [l[|l| - 1]] && m == m[..|m| - 1] + [m[|m| - 1]];
    }
  }

  lemma {:induction false} CountsCoverAll(l: seq<Stamp>)
    ensures CountVideo(l) + CountAudio(l) == |l|
  {
    if l != [] { CountsCoverAll(l[..|l| - 1]); }
  }

  lemma LastKindsAgree(t: Timing, l: seq<Stamp>, m: seq<Stamp>)
    requires StableMerge(t, l) && StableMerge(t, m) && l != [] && m != []
    requires CountVideo(l) == CountVideo(m) && CountAudio(l) == CountAudio(m)
    ensures l[|l| - 1].Video? == m[|m| - 1].Video?
  {
    var x, y := l[|l| - 1], m[|m| - 1];
    if x.Video? != y.Video? {
      NewestIsThere(t, l);
      NewestIsThere(t, m);
      assert x in m[..|m| - 1] && y in l[..|l| - 1] by {
        assert l == l[..|l| - 1] + [x] && m == m[..|m| - 1] + [y];
      }
      if Before(t, x, y) { assert false; }
    }
  }

  // The frames of a finished recording do not depend on when packets arrived, when it was
  // stopped or which turns stalled: only on how much sound was clocked and kept, as long as
  // no sound came late.
  lemma FinalOrderDependsOnSoundOnly(t: Timing, steps: seq<Step>, steps': seq<Step>)
    requires Finished(t, steps) && Finished(t, steps')
    requires Record(t, steps).0.a == Record(t, steps').0.a
    requires |Record(t, steps).0.sound| == |Record(t, steps').0.sound|
    requires !LateSound(Events(t, steps)) && !LateSound(Events(t, steps'))
    ensures Record(t, steps).0.stamps == Record(t, steps').0.stamps
  {
    var r, r' := Record(t, steps).0, Record(t, steps').0;
    RecordKeepsInv(t, steps);
    RecordKeepsInv(t, steps');
    PicturesCoverSound(t, r.v, r.a);
    PicturesCoverSound(t, r'.v, r'.a);
    OrderedExactlyWithoutLateSound(t, steps);
    OrderedExactlyWithoutLateSound(t, steps');
    MergeIsUnique(t, r.stamps, r'.stamps);
  }

  // A finished recording has every arrived packet, once and in order, if and only if no sound
  // turn lost one; then there are floor(a*fps/rate)+1 pictures for its a samples and all
  // frames are in timestamp order, whichever picture turns failed.
  lemma FinishedRecording(t: Timing, steps: seq<Step>)
    requires Finished(t, steps)
    ensures var r, l := Record(t, steps).0, Events(t, steps);
      && Reaches(r.sound, Arrivals(steps), l)
      && (r.sound == Arrivals(steps) <==> NothingLost(l))
      && (NothingLost(l) ==>
            && CountVideo(r.stamps) == t.nb * |Arrivals(steps)| * t.fps / t.rate + 1
            && CountAudio(r.stamps) == |Arrivals(steps)|
            && StableMerge(t, r.stamps))
  {
    var r, l := Record(t, steps).0, Events(t, steps);
    RecordKeepsInv(t, steps);
    RecordShowsOrder(t, steps);
    SoundReachesExactly(t, steps);
    PacketsInOrder(t, steps);
    PicturesCoverSound(t, r.v, r.a);
    assert Arrivals(steps) == r.taken + [] == r.taken;
  }

  // ---- One failed conversion is enough to lose the order ----

  const DEFAULTS: Timing := Config(24, 44100, 1024)

  lemma LateSoundIsNotOrdered(l: seq<Stamp>)
    requires l == [Video(0), Audio(0), Video(1), Audio(1024)]
    ensures !Ordered(DEFAULTS, l)
  {
    assert l[..|l| - 1][2] == l[2] && !Before(DEFAULTS, l[2], l[3]);
  }

  lemma RecordArrivals(t: Timing, p: Memory)
    ensures Record(t, [Arrive(p), Arrive(p), Arrive(p)]) == (NEW_RECORDING, [p, p, p])
  {
    assert [] + [Arrive(p)] == [Arrive(p)] && [] + [p] == [p];
    RecordNext(t, [], Arrive(p));
    RecordNext(t, [Arrive(p)], Arrive(p));
    assert [Arrive(p)] + [Arrive(p)] == [Arrive(p), Arrive(p)] && [p] + [p] == [p, p];
    RecordNext(t, [Arrive(p), Arrive(p)], Arrive(p));
    assert [Arrive(p), Arrive(p)] + [Arrive(p)] == [Arrive(p), Arrive(p), Arrive(p)] && [p, p] + [p] == [p, p, p];
  }

  // Sound due, lost: its clock moves on without its timestamps.
  lemma FirstTurns(p: Memory, steps: seq<Step>)
    requires Record(DEFAULTS, steps) == (NEW_RECORDING, [p, p, p])
    ensures Record(DEFAULTS, steps + [TakeTurn(Written)] + [TakeTurn(NotConverted)]) ==
      (Recording(1, 1024, 0, [Video(0)], [], [p]), [p, p])
  {
    RecordNext(DEFAULTS, steps, TakeTurn(Written));
    assert [] + [Video(0)] == [Video(0)] && [] + [p] == [p] && [p, p, p][1..] == [p, p];
    assert Record(DEFAULTS, steps + [TakeTurn(Written)]) == (Recording(1, 0, 0, [Video(0)], [], []), [p, p, p]);
    RecordNext(DEFAULTS, steps + [TakeTurn(Written)], TakeTurn(NotConverted));
  }

  lemma LastTurns(p: Memory, steps: seq<Step>)
    requires Record(DEFAULTS, steps) == (Recording(1, 1024, 0, [Video(0)], [], [p]), [p, p])
    ensures Record(DEFAULTS, steps + [TakeTurn(Written)] + [TakeTurn(Written)] + [TakeTurn(Written)]).0.stamps ==
      [Video(0), Audio(0), Video(1), Audio(1024)]
  {
    var s1 := steps + [TakeTurn(Written)];
    var s2 := s1 + [TakeTurn(Written)];
    assert [Video(0)] + [Audio(0)] == [Video(0), Audio(0)] && [] + [p] == [p] && [p] + [p] == [p, p] && [p, p][1..] == [p];
    assert [Video(0), Audio(0)] + [Video(1)] == [Video(0), Audio(0), Video(1)];
    assert [Video(0), Audio(0), Video(1)] + [Audio(1024)] == [Video(0), Audio(0), Video(1), Audio(1024)];
    RecordNext(DEFAULTS, steps, TakeTurn(Written));
    assert Record(DEFAULTS, s1) == (Recording(1, 2048, 1024, [Video(0), Audio(0)], [p], [p, p]), [p]);
    RecordNext(DEFAULTS, s1, TakeTurn(Written));
    assert Record(DEFAULTS, s2) == (Recording(2, 2048, 1024, [Video(0), Audio(0), Video(1)], [p], [p, p]), [p]);
    RecordNext(DEFAULTS, s2, TakeTurn(Written));
  }

  // With the default clock rates: after one lost packet, sound stamped 1024/44100 s is
  // written behind the picture of 1/24 s.
  lemma OrderCanBreak(p: Memory) returns (steps: seq<Step>)
    ensures var l := Record(DEFAULTS, steps).0.stamps;
      l == [Video(0), Audio(0), Video(1), Audio(1024)] && !Ordered(DEFAULTS, l)
    ensures LateSound(Events(DEFAULTS, steps))
  {
    var s3 := [Arrive(p), Arrive(p), Arrive(p)];
    RecordArrivals(DEFAULTS, p);
    FirstTurns(p, s3);
    var s5 := s3 + [TakeTurn(Written)] + [TakeTurn(NotConverted)];
    LastTurns(p, s5);
    steps := s5 + [TakeTurn(Written)] + [TakeTurn(Written)] + [TakeTurn(Written)];
    LateSoundIsNotOrdered(Record(DEFAULTS, steps).0.stamps);
    OrderedExactlyWithoutLateSound(DEFAULTS, steps);
  }

  // One packet for which no frame can be allocated: the recording finishes without it.
  lemma SoundCanBeLost(t: Timing, p: Memory) returns (steps: seq<Step>)
    ensures Finished(t, steps) && Arrivals(steps) == [p]
    ensures Record(t, steps).0.sound == [] && !NothingLost(Events(t, steps))
  {
    var s1 := [] + [Arrive(p)];
    var s2 := s1 + [TakeTurn(Written)];
    steps := s2 + [TakeTurn(NoFrame)];
    assert s1[..0] == [] && s2[..1] == s1 && steps[..2] == s2;
    RecordNext(t, [], Arrive(p));
    assert [] + [p] == [p];
    RecordNext(t, s1, TakeTurn(Written));
    assert Record(t, s2) == (StampVideo(NEW_RECORDING, Written), [p]);
    RecordNext(t, s2, TakeTurn(NoFrame));
    assert Arrivals(s1) == [] + [p] == [p] && Arrivals(s2) == [p] + [] == [p] && Arrivals(steps) == [p] + [];
    SoundReachesExactly(t, steps);
    PacketsInOrder(t, steps);
  }
}
