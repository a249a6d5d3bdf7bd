/**
 The scheduler's thread loop. It is a step system in which other threads, and the task
 handler itself, add tasks and call start, stop or terminate between any two of its steps;
 the object takes the same steps on the shared queue.
 */
module Scheduler {
  import ThreadQueue

  // Where the thread is in its loop.
  datatype Pc<T> = Top | Popping | Handling(task: T) | Deciding | Repeating | Sleeping | Ended

  // What the thread has done, in order.
  datatype Act<T> = Handed(task: T) | SawEmpty | SawStarted | Repeated

  datatype State<T> = State(
    queue: seq<T>, started: bool, terminated: bool, pc: Pc<T>, added: seq<T>, acts: seq<Act<T>>)

  datatype Step<T> = Add(task: T) | Start | Stop | Terminate | Advance

  function Do<T>(s: State<T>, step: Step<T>): State<T> {
    match step
    case Add(task) => s.(queue := s.queue + [task], added := s.added + [task])
    case Start => s.(started := true)
    case Stop => s.(started := false)
    case Terminate => s.(terminated := true)
    case Advance =>
      match s.pc
      case Top => s.(pc := if s.terminated then Ended else Popping)
      case Popping =>
        if s.queue == [] then s.(pc := Deciding, acts := s.acts + [SawEmpty])
        else s.(pc := Handling(s.queue[0]), queue := s.queue[1..])
      case Handling(task) => s.(pc := Popping, acts := s.acts + [Handed(task)])
      case Deciding =>
        if s.started then s.(pc := Repeating, acts := s.acts + [SawStarted]) else s.(pc := Sleeping)
      case Repeating => s.(pc := Top, acts := s.acts + [Repeated])
      case Sleeping => s.(pc := Top)
      case Ended => s
  }

  function Run<T>(steps: seq<Step<T>>): State<T> {
    if steps == [] then State([], false, false, Top, [], [])
    else Do(Run(steps[..|steps| - 1]), steps[|steps| - 1])
  }

  // The tasks given to the handler.
  function HandedTasks<T>(acts: seq<Act<T>>): seq<T> {
    if acts == [] then []
    else HandedTasks(acts[..|acts| - 1]) + match acts[|acts| - 1] case Handed(task) => [task] case _ => []
  }

  // Every repeat follows directly on seeing the queue empty and then the scheduler started.
  predicate RepeatsAllowed<T>(acts: seq<Act<T>>) {
    acts == [] ||
    var n := |acts| - 1;
    RepeatsAllowed(acts[..n]) &&
    (acts[n].Repeated? ==> 2 <= n && acts[n - 1].SawStarted? && acts[n - 2].SawEmpty?)
  }

  function InHand<T>(pc: Pc<T>): seq<T> { if pc.Handling? then [pc.task] else [] }

  // Handed out, in hand and queued: everything added, in order.
  ghost predicate TasksKept<T>(s: State<T>) {
    s.added == HandedTasks(s.acts) + InHand(s.pc) + s.queue
  }

  predicate ChecksKept<T>(s: State<T>) {
    var n := |s.acts| - 1;
    && RepeatsAllowed(s.acts)
    && (s.pc.Deciding? ==> 0 <= n && s.acts[n].SawEmpty?)
    && (s.pc.Repeating? ==> 1 <= n && s.acts[n].SawStarted? && s.acts[n - 1].SawEmpty?)
  }

  // The thread is back at the top only after it saw the queue empty, and ends only there,
  // when terminated.
  predicate RoundsKept<T>(s: State<T>) {
    var n := |s.acts| - 1;
    && (s.pc.Top? || s.pc.Ended? ==> s.acts == [] || s.acts[n].SawEmpty? || s.acts[n].Repeated?)
    && (s.pc.Sleeping? ==> s.acts != [] && s.acts[n].SawEmpty?)
    && (s.pc.Ended? ==> s.terminated)
  }

  ghost predicate Inv<T>(s: State<T>) { TasksKept(s) && ChecksKept(s) && RoundsKept(s) }

  lemma AppendAct<T>(acts: seq<Act<T>>, act: Act<T>)
    ensures HandedTasks(acts + [act]) == HandedTasks(acts) + match act case Handed(task) => [task] case _ => []
  {
    assert (acts + [act])[..|acts|] == acts;
  }

  lemma TakingTheFirst<T>(handed: seq<T>, queue: seq<T>)
    requires queue != []
    ensures handed + [] + queue == handed + [queue[0]] + queue[1..]
  {
  }

  lemma PoppingKeepsInv<T>(s: State<T>)
    requires Inv(s) && s.pc.Popping?
    ensures Inv(Do(s, Advance))
  {
    if s.queue == [] {
      AppendAct(s.acts, SawEmpty);
    } else {
      TakingTheFirst(HandedTasks(s.acts), s.queue);
    }
  }

  lemma HandlingKeepsInv<T>(s: State<T>)
    requires Inv(s) && s.pc.Handling?
    ensures Inv(Do(s, Advance))
  {
    AppendAct(s.acts, Handed(s.pc.task));
    assert HandedTasks(s.acts) + [s.pc.task] + s.queue == HandedTasks(s.acts) + [s.pc.task] + [] + s.queue;
  }

  lemma DecidingKeepsInv<T>(s: State<T>)
    requires Inv(s) && s.pc.Deciding?
    ensures Inv(Do(s, Advance))
  {
    AppendAct(s.acts, SawStarted);
  }

  lemma RepeatingKeepsInv<T>(s: State<T>)
    requires Inv(s) && s.pc.Repeating?
    ensures Inv(Do(s, Advance))
  {
    AppendAct(s.acts, Repeated);
  }

  lemma OthersKeepInv<T>(s: State<T>, step: Step<T>)
    requires Inv(s)
    requires step.Advance? ==> s.pc.Top? || s.pc.Sleeping? || s.pc.Ended?
    ensures Inv(Do(s, step))
  {
    if step.Add? {
      var given := HandedTasks(s.acts) + InHand(s.pc);
      assert given + s.queue + [step.task] == given + (s.queue + [step.task]);
    }
  }

  lemma StepKeepsInv<T>(s: State<T>, step: Step<T>)
    requires Inv(s)
    ensures Inv(Do(s, step))
  {
    if !step.Advance? || s.pc.Top? || s.pc.Sleeping? || s.pc.Ended? {
      OthersKeepInv(s, step);
    } else if s.pc.Popping? {
      PoppingKeepsInv(s);
    } else if s.pc.Handling? {
      HandlingKeepsInv(s);
    } else if s.pc.Deciding? {
      DecidingKeepsInv(s);
    } else {
      RepeatingKeepsInv(s);
    }
  }

  // Whatever the threads do: the handler gets each task once, in the order of adding,
  // and repeats only run when both checks of the loop have just succeeded.
  lemma {:induction false} TasksInOrder<T>(steps: seq<Step<T>>)
    ensures Inv(Run(steps))
    ensures HandedTasks(Run(steps).acts) <= Run(steps).added
  {
    if steps != [] {
      TasksInOrder(steps[..|steps| - 1]);
      StepKeepsInv(Run(steps[..|steps| - 1]), steps[|steps| - 1]);
    }
  }

  // started_ was true, and still is, in every state in which the repeat handler runs.
  predicate AlwaysStartedInRepeat<T>(steps: seq<Step<T>>) {
    (Run(steps).pc.Repeating? ==> Run(steps).started) &&
    (steps == [] || AlwaysStartedInRepeat(steps[..|steps| - 1]))
  }

  // No stop comes between the check of started_ and the end of the repeat handler. A stop
  // made by a task handler never does: the thread is Handling then.
  predicate NoStopInRepeat<T>(steps: seq<Step<T>>) {
    steps == [] ||
    (NoStopInRepeat(steps[..|steps| - 1]) &&
     !(steps[|steps| - 1].Stop? && Run(steps[..|steps| - 1]).pc.Repeating?))
  }

  // stop() is no barrier: the handler runs only while started exactly when no stop comes
  // from another thread in that window.
  lemma {:induction false} RepeatsWhileStarted<T>(steps: seq<Step<T>>)
    ensures AlwaysStartedInRepeat(steps) <==> NoStopInRepeat(steps)
  {
    if steps != [] { RepeatsWhileStarted(steps[..|steps| - 1]); }
  }

  lemma RunNext<T>(steps: seq<Step<T>>, step: Step<T>)
    ensures Run(steps + [step]) == Do(Run(steps), step)
  {
    assert (steps + [step])[..|steps|] == steps;
  }

  // ---- From the steps alone ----

  // The tasks that were added.
  function AddedBy<T>(steps: seq<Step<T>>): seq<T> {
    if steps == [] then []
    else AddedBy(steps[..|steps| - 1]) + match steps[|steps| - 1] case Add(task) => [task] case _ => []
  }

  lemma {:induction false} AddedExactly<T>(steps: seq<Step<T>>)
    ensures Run(steps).added == AddedBy(steps)
  {
    if steps != [] { AddedExactly(steps[..|steps| - 1]); }
  }

  // Some start has no stop after it.
  ghost predicate StartedBy<T>(steps: seq<Step<T>>) {
    exists i :: 0 <= i < |steps| && steps[i].Start? && StaysStarted(steps, i)
  }

  ghost predicate StaysStarted<T>(steps: seq<Step<T>>, i: nat) { forall j :: i < j < |steps| ==> !steps[j].Stop? }

  lemma StartedNext<T>(steps: seq<Step<T>>, step: Step<T>)
    ensures StartedBy(steps + [step]) <==> step.Start? || (!step.Stop? && StartedBy(steps))
  {
    var next := steps + [step];
    if StartedBy(next) && !step.Start? {
      var i :| 0 <= i < |next| && next[i].Start? && StaysStarted(next, i);
      assert next[|steps|] == step && steps[i] == next[i];
      assert forall j :: i < j < |steps| ==> steps[j] == next[j];
      assert StaysStarted(steps, i);
    }
    if step.Start? {
      assert next[|steps|].Start? && StaysStarted(next, |steps|);
    } else if !step.Stop? && StartedBy(steps) {
      var i :| 0 <= i < |steps| && steps[i].Start? && StaysStarted(steps, i);
      assert next[i] == steps[i];
      assert StaysStarted(next, i);
    }
  }

  // started_ is up exactly when some start has no stop after it, whichever thread they come
  // from and wherever the loop is.
  lemma {:induction false} StartedExactly<T>(steps: seq<Step<T>>)
    ensures Run(steps).started <==> StartedBy(steps)
  {
    if steps != [] {
      var front, step := steps[..|steps| - 1], steps[|steps| - 1];
      assert steps == front + [step];
      StartedExactly(front);
      StartedNext(front, step);
    }
  }

  lemma {:induction false} TerminatedExactly<T>(steps: seq<Step<T>>)
    ensures Run(steps).terminated <==> exists i :: 0 <= i < |steps| && steps[i].Terminate?
  {
    if steps != [] {
      var front, step := steps[..|steps| - 1], steps[|steps| - 1];
      assert steps == front + [step];
      TerminatedExactly(front);
      if step.Terminate? { assert steps[|front|].Terminate?; }
      if Run(front).terminated {
        var i :| 0 <= i < |front| && front[i].Terminate?;
        assert steps[i].Terminate?;
      }
    }
  }

  // The repeat handler starts exactly when the thread, having seen the queue empty, looks at
  // started_ while some start has no stop after it.
  lemma RepeatStartsExactly<T>(steps: seq<Step<T>>, step: Step<T>)
    requires !Run(steps).pc.Repeating?
    ensures Run(steps + [step]).pc.Repeating? <==> Run(steps).pc.Deciding? && step.Advance? && StartedBy(steps)
  {
    RunNext(steps, step);
    StartedExactly(steps);
  }

  // The loop ends exactly when the thread is at its top after some terminate; then nothing is
  // handed out and nothing repeated any more.
  lemma EndsExactly<T>(steps: seq<Step<T>>, step: Step<T>)
    requires !Run(steps).pc.Ended?
    ensures Run(steps + [step]).pc.Ended? <==>
      Run(steps).pc.Top? && step.Advance? && exists i :: 0 <= i < |steps| && steps[i].Terminate?
  {
    RunNext(steps, step);
    TerminatedExactly(steps);
  }

  lemma {:induction false} EndIsFinal<T>(steps: seq<Step<T>>, more: seq<Step<T>>)
    requires Run(steps).pc.Ended?
    ensures Run(steps + more).pc.Ended? && Run(steps + more).acts == Run(steps).acts
  {
    if more == [] {
      assert steps + more == steps;
    } else {
      var front := more[..|more| - 1];
      EndIsFinal(steps, front);
      RunNext(steps + front, more[|more| - 1]);
      assert steps + more == steps + front + [more[|more| - 1]];
    }
  }

  // ---- One round of the loop, undisturbed ----

  function Advances<T>(s: State<T>, n: nat): State<T>
    decreases n
  {
    if n == 0 then s else Advances(Do(s, Advance), n - 1)
  }

  function AllHanded<T>(queue: seq<T>): seq<Act<T>> {
    if queue == [] then [] else [Handed(queue[0])] + AllHanded(queue[1..])
  }

  lemma {:induction false} HandsOutAll<T>(s: State<T>)
    requires s.pc.Popping?
    ensures Advances(s, 2 * |s.queue| + 1) ==
      s.(pc := Deciding, queue := [], acts := s.acts + AllHanded(s.queue) + [SawEmpty])
    decreases |s.queue|
  {
    if s.queue == [] {
      assert Advances(s, 1) == Advances(Do(s, Advance), 0);
      assert s.acts + [] == s.acts;
    } else {
      var s' := Do(Do(s, Advance), Advance);
      assert Advances(s, 2 * |s.queue| + 1) == Advances(Do(s, Advance), 2 * |s.queue|) == Advances(s', 2 * |s.queue| - 1);
      HandsOutAll(s');
      assert s.acts + [Handed(s.queue[0])] + AllHanded(s.queue[1..]) == s.acts + AllHanded(s.queue);
    }
  }

  lemma {:induction false} AdvancesSplit<T>(s: State<T>, n: nat, m: nat)
    ensures Advances(s, n + m) == Advances(Advances(s, n), m)
    decreases n
  {
    if n != 0 { AdvancesSplit(Do(s, Advance), n - 1, m); }
  }

  lemma Decides<T>(s: State<T>)
    requires s.pc.Deciding?
    ensures Advances(s, 2) == s.(pc := Top, acts := s.acts + if s.started then [SawStarted, Repeated] else [])
  {
    assert Advances(s, 2) == Advances(Do(s, Advance), 1) == Do(Do(s, Advance), Advance);
    assert s.acts + [SawStarted] + [Repeated] == s.acts + [SawStarted, Repeated] && s.acts + [] == s.acts;
  }

  // Between two looks at the termination flag: all queued tasks are handed out in order, then
  // the queue is seen empty, and then the repeat handler runs once if the scheduler is started.
  lemma OneRound<T>(s: State<T>)
    requires s.pc.Top? && !s.terminated
    ensures Advances(s, 2 * |s.queue| + 4) ==
      s.(queue := [], acts := s.acts + AllHanded(s.queue) + [SawEmpty] + if s.started then [SawStarted, Repeated] else [])
  {
    var s1 := Do(s, Advance);
    var n := 2 * |s.queue| + 1;
    assert Advances(s, n + 3) == Advances(s1, n + 2);
    AdvancesSplit(s1, n, 2);
    HandsOutAll(s1);
    Decides(Advances(s1, n));
  }

  lemma StopIsNoBarrier()
    ensures exists steps: seq<Step<int>> :: Run(steps).pc.Repeating? && !Run(steps).started
  {
    var s1: seq<Step<int>> := [Start];
    var s2 := s1 + [Advance];
    var s3 := s2 + [Advance];
    var s4 := s3 + [Advance];
    var s5 := s4 + [Stop];
    assert s5[..4] == s4 && s4[..3] == s3 && s3[..2] == s2 && s2[..1] == s1 && s1[..0] == [];
    assert Run(s1) == State([], true, false, Top, [], []);
    assert Run(s2).pc == Popping && Run(s3).pc == Deciding;
    assert Run(s5).pc.Repeating? && !Run(s5).started;
  }

  // ---- The object ----

  class Scheduler<T> {
    const queue: ThreadQueue.ThreadQueue<T>
    var started: bool
    var terminated: bool
    var pc: Pc<T>   // where the thread is
    ghost var history: State<T>

    // The fields are those of the state the history has come to.
    ghost predicate Valid()
      reads this, queue
    {
      && history.queue == queue.contents && history.pc == pc
      && history.started == started && history.terminated == terminated
    }

    constructor ()
      ensures Valid() && fresh(queue) && history == Run([])
    {
      queue := new ThreadQueue.ThreadQueue();
      started, terminated, pc := false, false, Top;
      history := Run([]);
    }

    method Add(task: T)
      requires Valid()
      modifies this, queue
      ensures Valid() && history == Do(old(history), Step.Add(task))
      ensures queue.contents == old(queue.contents) + [task] && pc == old(pc) && started == old(started)
    {
      queue.Push(task);
      history := Do(history, Step.Add(task));
    }

    method Start()
      requires Valid()
      modifies this
      ensures Valid() && history == Do(old(history), Step.Start)
      ensures started && pc == old(pc) && terminated == old(terminated)
    {
      started := true;
      history := Do(history, Step.Start);
    }

    method Stop()
      requires Valid()
      modifies this
      ensures Valid() && history == Do(old(history), Step.Stop)
      ensures !started && pc == old(pc) && terminated == old(terminated)
    {
      started := false;
      history := Do(history, Step.Stop);
    }

    method Terminate()
      requires Valid()
      modifies this
      ensures Valid() && history == Do(old(history), Step.Terminate)
      ensures terminated && pc == old(pc) && started == old(started)
    {
      terminated := true;
      history := Do(history, Step.Terminate);
    }

    // The thread, up to the next point where others can get in between.
    method Advance()
      requires Valid()
      modifies this, queue
      ensures Valid() && history == Do(old(history), Step.Advance)
    {
      history := Do(history, Step.Advance);
      match pc
      case Top => pc := if terminated then Ended else Popping;
      case Popping =>
        var t := queue.Pop();
        pc := if t.None? then Deciding else Handling(t.value);
      case Handling(_) => pc := Popping;
      case Deciding => pc := if started then Repeating else Sleeping;
      case Repeating => pc := Top;
      case Sleeping => pc := Top;
      case Ended =>
    }
  }
}
