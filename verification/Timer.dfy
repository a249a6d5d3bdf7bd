/**
 The drift-free timer: clock advances are accumulated in microseconds; when they exceed
 the interval the timer fires and one interval is taken off.
 */
module Timer {

  class Timer {
    const ticksPerMicro: nat   // clock ticks in a microsecond
    var interval: nat          // microseconds
    var count: nat
    var oldTick: int
    var fires: nat             // calls of the handler

    constructor (ticksPerMicro: nat)
      ensures this.ticksPerMicro == ticksPerMicro
    {
      this.ticksPerMicro := ticksPerMicro;
      interval, count, oldTick, fires := 0, 0, 0, 0;
    }

    ghost function Value(): State
      reads this
    {
      State(count, oldTick, fires)
    }

    method Start(interval: nat, now: int)
      modifies this
      ensures this.interval == interval && Value() == State(0, now, old(fires))
    {
      this.interval := interval;
      count := 0;
      oldTick := now;
    }

    method Repeat(newTick: int)
      requires 0 < ticksPerMicro
      modifies this
      ensures interval == old(interval)
      ensures Value() == Tick(ticksPerMicro, interval, old(Value()), newTick)
    {
      if newTick > oldTick {
        var delta := (newTick - oldTick) / ticksPerMicro;
        count := count + delta;
      }
      oldTick := newTick;
      if count > interval {
        fires := fires + 1;
        count := count - interval;
      }
    }
  }

  datatype State = State(count: nat, oldTick: int, fires: nat)

  // Microseconds counted for a move of the clock; none when it goes back.
  function Advance(tpm: nat, from: int, to: int): nat
    requires 0 < tpm
  {
    if to > from then (to - from) / tpm else 0
  }

  function Tick(tpm: nat, interval: nat, s: State, now: int): State
    requires 0 < tpm
  {
    var count := s.count + Advance(tpm, s.oldTick, now);
    if count > interval then State(count - interval, now, s.fires + 1) else State(count, now, s.fires)
  }

  // One reading fires once at most, however far the clock moved, and takes one interval off:
  // exactly when the time counted exceeds the interval.
  lemma OneReading(tpm: nat, interval: nat, s: State, now: int)
    requires 0 < tpm
    ensures var next, passed := Tick(tpm, interval, s, now), if now <= s.oldTick then 0 else (now - s.oldTick) / tpm;
      && next.oldTick == now
      && (s.count + passed <= interval ==> next.fires == s.fires && next.count == s.count + passed)
      && (interval < s.count + passed ==> next.fires == s.fires + 1 && next.count + interval == s.count + passed)
  {
  }

  // After start at time begin and the given clock readings.
  function Run(tpm: nat, interval: nat, begin: int, readings: seq<int>): State
    requires 0 < tpm
  {
    if readings == [] then State(0, begin, 0)
    else Tick(tpm, interval, Run(tpm, interval, begin, readings[..|readings| - 1]), readings[|readings| - 1])
  }

  function LastReading(begin: int, readings: seq<int>): int {
    if readings == [] then begin else readings[|readings| - 1]
  }

  // Microseconds counted since the start, and clock ticks the clock went forward.
  function Counted(tpm: nat, begin: int, readings: seq<int>): nat
    requires 0 < tpm
  {
    if readings == [] then 0
    else
      var front := readings[..|readings| - 1];
      Counted(tpm, begin, front) + Advance(tpm, LastReading(begin, front), readings[|readings| - 1])
  }

  // Every single advance counts at most n microseconds.
  predicate AdvancesAtMost(tpm: nat, begin: int, readings: seq<int>, n: nat)
    requires 0 < tpm
  {
    readings == [] ||
    var front := readings[..|readings| - 1];
    AdvancesAtMost(tpm, begin, front, n) && Advance(tpm, LastReading(begin, front), readings[|readings| - 1]) <= n
  }

  // No counted time is lost by firing.
  lemma {:induction false} TimeConserved(tpm: nat, interval: nat, begin: int, readings: seq<int>)
    requires 0 < tpm
    ensures var s := Run(tpm, interval, begin, readings);
      s.oldTick == LastReading(begin, readings) && s.count + interval * s.fires == Counted(tpm, begin, readings)
  {
    if readings != [] {
      var front := readings[..|readings| - 1];
      TimeConserved(tpm, interval, begin, front);
      var s := Run(tpm, interval, begin, front);
      assert interval * (s.fires + 1) == interval * s.fires + interval;
    }
  }

  // While no advance exceeds the interval, the timer is never a whole interval late.
  lemma {:induction false} CountStaysBelow(tpm: nat, interval: nat, begin: int, readings: seq<int>)
    requires 0 < tpm && AdvancesAtMost(tpm, begin, readings, interval)
    ensures var s := Run(tpm, interval, begin, readings);
      s.count <= interval && (0 < Counted(tpm, begin, readings) ==> 0 < s.count)
  {
    if readings != [] {
      var front := readings[..|readings| - 1];
      CountStaysBelow(tpm, interval, begin, front);
      TimeConserved(tpm, interval, begin, front);
      var s := Run(tpm, interval, begin, front);
      assert s.count == 0 ==> Counted(tpm, begin, front) == 0;
    }
  }

  lemma FiresOnTime(tpm: nat, interval: nat, begin: int, readings: seq<int>)
    requires 0 < tpm && AdvancesAtMost(tpm, begin, readings, interval)
    requires 0 < Counted(tpm, begin, readings)
    ensures var fires, elapsed := Run(tpm, interval, begin, readings).fires, Counted(tpm, begin, readings);
      fires * interval < elapsed <= (fires + 1) * interval
  {
    TimeConserved(tpm, interval, begin, readings);
    CountStaysBelow(tpm, interval, begin, readings);
    var s := Run(tpm, interval, begin, readings);
    assert (s.fires + 1) * interval == interval * s.fires + interval;
  }

  // Clock ticks the clock went forward since the start.
  function Forward(begin: int, readings: seq<int>): nat {
    if readings == [] then 0
    else
      var front, now := readings[..|readings| - 1], readings[|readings| - 1];
      Forward(begin, front) + if now > LastReading(begin, front) then now - LastReading(begin, front) else 0
  }

  // Every forward move is a whole number of microseconds.
  predicate WholeMicros(tpm: nat, begin: int, readings: seq<int>)
    requires 0 < tpm
  {
    readings == [] ||
    var front, now := readings[..|readings| - 1], readings[|readings| - 1];
    WholeMicros(tpm, begin, front) &&
    (now > LastReading(begin, front) ==> (now - LastReading(begin, front)) % tpm == 0)
  }

  lemma CutOne(tpm: nat, n: nat, move: nat)
    requires 0 < tpm
    ensures tpm * (n + move / tpm) == tpm * n + move - move % tpm && 0 <= move % tpm <= tpm - 1
  {
    assert move == tpm * (move / tpm) + move % tpm;
    assert tpm * (n + move / tpm) == tpm * n + tpm * (move / tpm);
  }

  // Against the clock itself the count never runs ahead, falls behind by less than a
  // microsecond a reading, and is exact only when no reading cuts a microsecond.
  lemma {:induction false} CutMicros(tpm: nat, begin: int, readings: seq<int>)
    requires 0 < tpm
    ensures var late := Forward(begin, readings) - tpm * Counted(tpm, begin, readings);
      0 <= late <= (tpm - 1) * |readings| && (late == 0 <==> WholeMicros(tpm, begin, readings))
  {
    if readings != [] {
      var front, now := readings[..|readings| - 1], readings[|readings| - 1];
      CutMicros(tpm, begin, front);
      var last := LastReading(begin, front);
      assert (tpm - 1) * |readings| == (tpm - 1) * |front| + (tpm - 1);
      if now > last { CutOne(tpm, Counted(tpm, begin, front), now - last); }
    }
  }
}
