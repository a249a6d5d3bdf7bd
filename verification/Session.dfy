/**
 The encoder session protocol as a step system: any number of client threads race
 through start and stop while one scheduler thread runs the queued tasks, takes turns
 and drains. Every point where another thread can get in between is a program counter
 of its own; in particular the scheduler lowers the flag before it drops the encoder.
 */
module Session {
  import opened Interleaver
  import opened Wrappers

  // The fixed surroundings: clock rates and whether both callbacks are installed.
  datatype Env = Env(t: Timing, handlers: bool)

  // Where a client is inside start(): Opening has raised the flag and opens its encoder,
  // Releasing could not open it, Deleting has lowered the flag again, Pushing opened it.
  datatype ClientPc = Ready | Opening | Releasing | Deleting | Pushing

  datatype Task = Start | Stop

  // Where the scheduler thread is. Released and ErrorReleased have lowered the flag and
  // not yet dropped the encoder.
  datatype Pc = Polling | Starting | Stopping | Draining | Released | Completing
              | Repeating | ErrorReleased | ErrorReporting

  // A session that is over: its recording, and the steps that made it.
  datatype Session = Completed(r: Recording, log: seq<Interleaver.Step>) | Failed(r: Recording, log: seq<Interleaver.Step>)

  datatype State = State(
    flag: bool,                 // is_started_
    clients: seq<ClientPc>,
    queue: seq<Task>,
    pc: Pc,
    scheduling: bool,           // started_ of the scheduler
    live: Option<Recording>,    // videoCreater_
    backlog: seq<Memory>,
    // history
    arrived: seq<Memory>,
    log: seq<Interleaver.Step>, // of the live recording
    ended: seq<Session>,
    overwritten: nat,           // encoders lost because videoCreater_ was not null
    created: nat, deleted: nat, // encoders
    accepted: nat, starts: nat, completions: nat, errors: nat)

  function AllReady(n: nat): seq<ClientPc> {
    if n == 0 then [] else AllReady(n - 1) + [Ready]
  }

  function Initial(clients: nat): State {
    State(false, AllReady(clients), [], Polling, false, None, [], [], [], [], 0, 0, 0, 0, 0, 0, 0)
  }

  datatype Step =
    | Exchange(c: nat)             // start(): is_started_.exchange(true)
    | Open(c: nat, ok: bool)
    | Release(c: nat)
    | Delete(c: nat)
    | PushStart(c: nat)
    | PushStop(c: nat)             // stop()
    | Arrive(packet: Memory)       // capture
    | Poll
    | RunStart
    | RunStop
    | DrainTurn(o: Outcome)
    | DropEncoder
    | Complete
    | Repeat(o: Outcome)
    | Throw(o: Outcome, acted: bool)  // the turn throws, before or after its effect
    | DropFailed
    | ReportError

  // A step that is not enabled changes nothing.
  function Do(e: Env, s: State, step: Step): State {
    match step
    case Exchange(c) =>
      if c < |s.clients| && s.clients[c].Ready? && !s.flag then
        s.(flag := true, clients := s.clients[c := Opening], created := s.created + 1)
      else s
    case Open(c, ok) =>
      if c < |s.clients| && s.clients[c].Opening? then
        s.(clients := s.clients[c := if ok then Pushing else Releasing])
      else s
    case Release(c) =>
      if c < |s.clients| && s.clients[c].Releasing? then
        s.(flag := false, clients := s.clients[c := Deleting])
      else s
    case Delete(c) =>
      if c < |s.clients| && s.clients[c].Deleting? then
        s.(clients := s.clients[c := Ready], deleted := s.deleted + 1)
      else s
    case PushStart(c) =>
      if c < |s.clients| && s.clients[c].Pushing? then
        s.(clients := s.clients[c := Ready], queue := s.queue + [Start], accepted := s.accepted + 1)
      else s
    case PushStop(c) =>
      if c < |s.clients| && s.clients[c].Ready? then s.(queue := s.queue + [Stop]) else s
    case Arrive(p) =>
      s.(backlog := s.backlog + [p], arrived := s.arrived + [p],
         log := if InRelease(s.pc) then s.log else s.log + [Interleaver.Step.Arrive(p)])
    case _ => Schedule(e, s, step)
  }

  // The steps of the scheduler thread.
  function Schedule(e: Env, s: State, step: Step): State {
    match step
    case Poll =>
      if !s.pc.Polling? then s
      else if s.queue != [] then
        s.(queue := s.queue[1..], pc := if s.queue[0].Start? then Starting else Stopping)
      else if s.scheduling then s.(pc := Repeating)
      else s
    case RunStart =>
      if !s.pc.Starting? then s
      else
        s.(live := Some(NEW_RECORDING), log := Arriving(s.backlog),
           scheduling := true, pc := Polling, starts := s.starts + 1,
           overwritten := s.overwritten + if s.live.Some? then 1 else 0)
    case RunStop =>
      if !s.pc.Stopping? then s
      else s.(scheduling := false, pc := if s.live.None? then Polling else Draining)
    case DrainTurn(o) =>
      if !s.pc.Draining? then s
      else if s.live.Some? && e.handlers && (IsVideoTurn(e.t, s.live.value.v, s.live.value.a) || s.backlog != []) then
        TurnOf(e, s, o)
      else s.(flag := false, pc := Released)
    case DropEncoder =>
      if !s.pc.Released? || s.live.None? then s
      else DeleteEncoder(s, Completed(s.live.value, s.log)).(pc := Completing)
    case Complete =>
      if !s.pc.Completing? then s else s.(completions := s.completions + 1, pc := Polling)
    case Repeat(o) =>
      if !s.pc.Repeating? then s
      else (if s.live.Some? && e.handlers then TurnOf(e, s, o) else s).(pc := Polling)
    case Throw(o, acted) =>
      if !s.pc.Repeating? || s.live.None? || !e.handlers then s
      else (if acted then TurnOf(e, s, o) else s).(flag := false, pc := ErrorReleased)
    case DropFailed =>
      if !s.pc.ErrorReleased? || s.live.None? then s
      else DeleteEncoder(s, Failed(s.live.value, s.log)).(pc := ErrorReporting)
    case ReportError =>
      if !s.pc.ErrorReporting? then s else s.(errors := s.errors + 1, pc := Polling)
    case _ => s
  }

  function DeleteEncoder(s: State, x: Session): State {
    s.(live := None, deleted := s.deleted + 1, ended := s.ended + [x])
  }

  // The sound queued when a recording begins is its first arrivals.
  function Arriving(backlog: seq<Memory>): seq<Interleaver.Step> {
    if backlog == [] then [] else Arriving(backlog[..|backlog| - 1]) + [Interleaver.Step.Arrive(backlog[|backlog| - 1])]
  }

  // One turn on the live encoder.
  function TurnOf(e: Env, s: State, o: Outcome): State
    requires s.live.Some?
  {
    var (r, backlog) := Turn(e.t, s.live.value, s.backlog, o);
    s.(live := Some(r), backlog := backlog, log := s.log + [Interleaver.Step.TakeTurn(o)])
  }

  function Run(e: Env, clients: nat, steps: seq<Step>): State {
    if steps == [] then Initial(clients)
    else Do(e, Run(e, clients, steps[..|steps| - 1]), steps[|steps| - 1])
  }

  // ---- Counting ----

  function Count(l: seq<ClientPc>, pcs: set<ClientPc>): nat {
    if l == [] then 0 else Count(l[..|l| - 1], pcs) + if l[|l| - 1] in pcs then 1 else 0
  }

  function StartsIn(q: seq<Task>): nat {
    if q == [] then 0 else (if q[0].Start? then 1 else 0) + StartsIn(q[1..])
  }

  lemma {:induction false} CountUpdate(l: seq<ClientPc>, c: nat, pc: ClientPc, pcs: set<ClientPc>)
    requires c < |l|
    ensures Count(l[c := pc], pcs) == Count(l, pcs) + (if pc in pcs then 1 else 0) - if l[c] in pcs then 1 else 0
  {
    var m, last := l[c := pc], |l| - 1;
    if c == last {
      assert m[..last] == l[..last];
    } else {
      CountUpdate(l[..last], c, pc, pcs);
      assert m[..last] == l[..last][c := pc];
    }
  }

  lemma {:induction false} StartsInAppend(q: seq<Task>, task: Task)
    ensures StartsIn(q + [task]) == StartsIn(q) + if task.Start? then 1 else 0
  {
    if q == [] {
      assert q + [task] == [task];
    } else {
      StartsInAppend(q[1..], task);
      assert (q + [task])[1..] == q[1..] + [task];
    }
  }

  lemma {:induction false} CountReady(n: nat, pcs: set<ClientPc>)
    requires Ready !in pcs
    ensures Count(AllReady(n), pcs) == 0
  {
    if n != 0 {
      var l := AllReady(n);
      assert l[..|l| - 1] == AllReady(n - 1);
      CountReady(n - 1, pcs);
    }
  }

  function One(b: bool): nat { if b then 1 else 0 }

  // Clients between raising the flag and handing their encoder on, or lowering it again.
  function Claims(s: State): nat { Count(s.clients, {Opening, Releasing, Pushing}) }

  // Clients that own an encoder.
  function Owners(s: State): nat { Count(s.clients, {Opening, Releasing, Deleting, Pushing}) }

  predicate InRelease(pc: Pc) { pc.Released? || pc.ErrorReleased? }

  predicate InReport(pc: Pc) { pc.Completing? || pc.ErrorReporting? }

  // ---- Invariants ----

  // Whoever holds the flag: a client in start, a queued or running START, the live encoder.
  predicate FlagIsOneToken(s: State) {
    Claims(s) + StartsIn(s.queue) + One(s.pc.Starting?) + One(s.live.Some? && !InRelease(s.pc)) == One(s.flag)
  }

  predicate EncodersConserved(s: State) {
    s.created == s.deleted + Owners(s) + StartsIn(s.queue) + One(s.pc.Starting?) + One(s.live.Some?)
  }

  predicate SessionsConserved(s: State) {
    && s.starts == s.completions + s.errors + One(s.live.Some?) + One(InReport(s.pc))
    && s.accepted == s.starts + StartsIn(s.queue) + One(s.pc.Starting?)
  }

  predicate PcMatchesEncoder(s: State) {
    && (s.pc.Draining? || InRelease(s.pc) ==> s.live.Some?)
    && (InReport(s.pc) ==> s.live.None?)
  }

  // Every session's recording is a recording in the sense of Interleaver, made by the steps
  // in its log; a completed one is drained.
  ghost predicate Recorded(e: Env, x: Session) {
    x.r == Record(e.t, x.log).0 && (x.Completed? && e.handlers ==> Finished(e.t, x.log))
  }

  ghost predicate FilesRight(e: Env, s: State) {
    && (s.live.Some? && !InRelease(s.pc) ==> Record(e.t, s.log) == (s.live.value, s.backlog))
    && (s.live.Some? && InRelease(s.pc) ==> Record(e.t, s.log).0 == s.live.value)
    && (s.pc.Released? && e.handlers ==> Finished(e.t, s.log))
    && forall x :: x in s.ended ==> Recorded(e, x)
  }

  function Taken(ended: seq<Session>): seq<Memory> {
    if ended == [] then [] else Taken(ended[..|ended| - 1]) + ended[|ended| - 1].r.taken
  }

  // The sessions cut the captured sound into consecutive pieces.
  predicate SoundConserved(s: State) {
    s.arrived == Taken(s.ended) + (if s.live.Some? then s.live.value.taken else []) + s.backlog
  }

  predicate Control(s: State) {
    FlagIsOneToken(s) && EncodersConserved(s) && SessionsConserved(s) && PcMatchesEncoder(s) && s.overwritten == 0
  }

  predicate IsClientStep(step: Step) {
    step.Exchange? || step.Open? || step.Release? || step.Delete? || step.PushStart? || step.PushStop?
  }

  // Moving one client changes the two counts by what it gives up and takes on.
  lemma MoveClient(s: State, c: nat, pc: ClientPc)
    requires c < |s.clients|
    ensures var s' := s.(clients := s.clients[c := pc]);
      && Claims(s') == Claims(s) + One(pc in {Opening, Releasing, Pushing})
                       - One(s.clients[c] in {Opening, Releasing, Pushing})
      && Owners(s') == Owners(s) + One(pc in {Opening, Releasing, Deleting, Pushing})
                       - One(s.clients[c] in {Opening, Releasing, Deleting, Pushing})
  {
    CountUpdate(s.clients, c, pc, {Opening, Releasing, Pushing});
    CountUpdate(s.clients, c, pc, {Opening, Releasing, Deleting, Pushing});
  }

  lemma PushKeepsControl(e: Env, s: State, step: Step)
    requires Control(s) && (step.PushStart? || step.PushStop?)
    ensures Control(Do(e, s, step))
  {
    if step.c < |s.clients| {
      if step.PushStart? {
        StartsInAppend(s.queue, Start);
        MoveClient(s, step.c, Ready);
      } else {
        StartsInAppend(s.queue, Stop);
      }
    }
  }

  lemma ClientKeepsControl(e: Env, s: State, step: Step)
    requires Control(s) && IsClientStep(step)
    ensures Control(Do(e, s, step))
  {
    if step.PushStart? || step.PushStop? {
      PushKeepsControl(e, s, step);
    } else if step.c < |s.clients| {
      match step
      case Exchange(c) => MoveClient(s, c, Opening);
      case Open(c, ok) => MoveClient(s, c, if ok then Pushing else Releasing);
      case Release(c) => MoveClient(s, c, Deleting);
      case Delete(c) => MoveClient(s, c, Ready);
    }
  }

  // Queued tasks move on.
  lemma TasksKeepControl(e: Env, s: State, step: Step)
    requires Control(s) && (step.Poll? || step.RunStart? || step.RunStop?)
    ensures Control(Schedule(e, s, step))
  {
  }

  // Turns, and the flag lowered after the last of them.
  lemma TurnsKeepControl(e: Env, s: State, step: Step)
    requires Control(s) && (step.DrainTurn? || step.Repeat? || step.Throw?)
    ensures Control(Schedule(e, s, step))
  {
  }

  lemma ScheduleKeepsControl(e: Env, s: State, step: Step)
    requires Control(s)
    ensures Control(Schedule(e, s, step))
  {
    if step.Poll? || step.RunStart? || step.RunStop? {
      TasksKeepControl(e, s, step);
    } else if step.DrainTurn? || step.Repeat? || step.Throw? {
      TurnsKeepControl(e, s, step);
    }
  }

  lemma StepKeepsControl(e: Env, s: State, step: Step)
    requires Control(s)
    ensures Control(Do(e, s, step))
  {
    if IsClientStep(step) { ClientKeepsControl(e, s, step); } else { ScheduleKeepsControl(e, s, step); }
  }

  lemma TurnOfKeepsSound(e: Env, s: State, o: Outcome)
    requires s.live.Some? && SoundConserved(s)
    ensures SoundConserved(TurnOf(e, s, o))
  {
    var before := Taken(s.ended);
    var (r, backlog) := Turn(e.t, s.live.value, s.backlog, o);
    TurnKeepsSound(e.t, s.live.value, s.backlog, o);
    assert before + s.live.value.taken + s.backlog == before + (s.live.value.taken + s.backlog);
    assert before + r.taken + backlog == before + (r.taken + backlog);
  }

  lemma EndKeepsSound(s: State, x: Session)
    requires SoundConserved(s) && s.live == Some(x.r)
    ensures SoundConserved(DeleteEncoder(s, x))
  {
    var ended := s.ended + [x];
    assert ended[..|ended| - 1] == s.ended;
  }

  lemma ScheduleKeepsSound(e: Env, s: State, step: Step)
    requires Control(s) && SoundConserved(s)
    ensures SoundConserved(Schedule(e, s, step))
  {
    if s.live.Some? {
      match step
      case DrainTurn(o) => TurnOfKeepsSound(e, s, o);
      case Repeat(o) => TurnOfKeepsSound(e, s, o);
      case Throw(o, _) => TurnOfKeepsSound(e, s, o);
      case DropEncoder => EndKeepsSound(s, Completed(s.live.value, s.log));
      case DropFailed => EndKeepsSound(s, Failed(s.live.value, s.log));
      case RunStart => assert !s.pc.Starting?;
      case _ =>
    }
  }

  lemma StepKeepsSound(e: Env, s: State, step: Step)
    requires Control(s) && SoundConserved(s)
    ensures SoundConserved(Do(e, s, step))
  {
    if step.Arrive? {
      assert Do(e, s, step).arrived == s.arrived + [step.packet];
    } else if !IsClientStep(step) {
      ScheduleKeepsSound(e, s, step);
    }
  }

  lemma {:induction false} ArrivingIsRecorded(t: Timing, backlog: seq<Memory>)
    ensures Record(t, Arriving(backlog)) == (NEW_RECORDING, backlog)
  {
    if backlog != [] {
      var front, last := backlog[..|backlog| - 1], backlog[|backlog| - 1];
      ArrivingIsRecorded(t, front);
      RecordNext(t, Arriving(front), Interleaver.Step.Arrive(last));
      assert backlog == front + [last];
    }
  }

  lemma TurnOfKeepsFiles(e: Env, s: State, o: Outcome)
    requires s.live.Some? && FilesRight(e, s) && !InRelease(s.pc)
    ensures FilesRight(e, TurnOf(e, s, o))
  {
    RecordNext(e.t, s.log, Interleaver.Step.TakeTurn(o));
  }

  lemma EndKeepsFiles(e: Env, s: State, step: Step)
    requires FilesRight(e, s) && (step.DropEncoder? || step.DropFailed?)
    ensures FilesRight(e, Schedule(e, s, step))
  {
    if s.live.Some? {
      if s.pc.Released? { assert Recorded(e, Completed(s.live.value, s.log)); }
      if s.pc.ErrorReleased? { assert Recorded(e, Failed(s.live.value, s.log)); }
    }
  }

  lemma TurnStepKeepsFiles(e: Env, s: State, step: Step)
    requires Control(s) && FilesRight(e, s) && (step.DrainTurn? || step.Repeat? || step.Throw?)
    ensures FilesRight(e, Schedule(e, s, step))
  {
    var o := match step case DrainTurn(o) => o case Repeat(o) => o case Throw(o, _) => o;
    if s.live.Some? && !InRelease(s.pc) { TurnOfKeepsFiles(e, s, o); }
  }

  lemma StepKeepsFiles(e: Env, s: State, step: Step)
    requires Control(s) && FilesRight(e, s)
    ensures FilesRight(e, Do(e, s, step))
  {
    if step.Arrive? {
      RecordNext(e.t, s.log, Interleaver.Step.Arrive(step.packet));
    } else if step.DrainTurn? || step.Repeat? || step.Throw? {
      TurnStepKeepsFiles(e, s, step);
    } else if step.DropEncoder? || step.DropFailed? {
      EndKeepsFiles(e, s, step);
    } else if step.RunStart? {
      ArrivingIsRecorded(e.t, s.backlog);
    }
  }

  // ---- Every reachable state ----

  lemma InitialControl(clients: nat)
    ensures Control(Initial(clients))
  {
    CountReady(clients, {Opening, Releasing, Pushing});
    CountReady(clients, {Opening, Releasing, Deleting, Pushing});
  }

  // In every interleaving of clients and scheduler: the flag stands for exactly one
  // holder, no encoder is leaked, deleted twice or overwritten, and every accepted start
  // becomes one session that completes or fails once.
  lemma {:induction false} ControlHolds(e: Env, clients: nat, steps: seq<Step>)
    ensures Control(Run(e, clients, steps))
  {
    if steps == [] {
      InitialControl(clients);
    } else {
      var front := steps[..|steps| - 1];
      ControlHolds(e, clients, front);
      StepKeepsControl(e, Run(e, clients, front), steps[|steps| - 1]);
    }
  }

  // do_start always finds videoCreater_ null, and nobody else is inside start then.
  lemma StartFindsNoEncoder(e: Env, clients: nat, steps: seq<Step>)
    ensures var s := Run(e, clients, steps);
      s.pc.Starting? ==> s.live.None? && s.flag && Claims(s) == 0 && StartsIn(s.queue) == 0
  {
    ControlHolds(e, clients, steps);
  }

  // Every session records by the rules of Interleaver, every completed one is drained, and
  // the captured packets are those the sessions took from the queue, one after another, and
  // those still queued.
  lemma {:induction false} RecordingsHold(e: Env, clients: nat, steps: seq<Step>)
    ensures FilesRight(e, Run(e, clients, steps)) && SoundConserved(Run(e, clients, steps))
  {
    if steps != [] {
      var front := steps[..|steps| - 1];
      RecordingsHold(e, clients, front);
      ControlHolds(e, clients, front);
      StepKeepsFiles(e, Run(e, clients, front), steps[|steps| - 1]);
      StepKeepsSound(e, Run(e, clients, front), steps[|steps| - 1]);
    }
  }

  // ---- The scheduler's flag and its tasks ----

  // A live encoder takes turns until its stop is run, and none is taken while it is drained.
  predicate SchedulingMatches(s: State) {
    && (s.live.Some? && !s.pc.Draining? && !s.pc.Released? ==> s.scheduling)
    && (s.pc.Draining? || s.pc.Released? || s.pc.Completing? ==> !s.scheduling)
  }

  lemma ScheduleKeepsMatch(e: Env, s: State, step: Step)
    requires Control(s) && SchedulingMatches(s)
    ensures SchedulingMatches(Do(e, s, step))
  {
  }

  lemma {:induction false} SchedulingHolds(e: Env, clients: nat, steps: seq<Step>)
    ensures SchedulingMatches(Run(e, clients, steps))
  {
    if steps != [] {
      var front := steps[..|steps| - 1];
      SchedulingHolds(e, clients, front);
      ControlHolds(e, clients, front);
      ScheduleKeepsMatch(e, Run(e, clients, front), steps[|steps| - 1]);
    }
  }

  lemma PollTakesTurn(e: Env, s: State, o: Outcome)
    requires s.scheduling && s.pc.Polling? && s.queue == []
    ensures Do(e, s, Poll) == s.(pc := Repeating)
    ensures Do(e, Do(e, s, Poll), Repeat(o)) ==
      if s.live.None? || !e.handlers then s
      else
        var (r, backlog) := Turn(e.t, s.live.value, s.backlog, o);
        s.(live := Some(r), backlog := backlog, log := s.log + [Interleaver.Step.TakeTurn(o)])
  {
  }

  // In every reachable state with a live session and no task to run, the scheduler thread's
  // next round is exactly one turn on the recording, and changes nothing else.
  lemma LiveTakesTurns(e: Env, clients: nat, steps: seq<Step>, o: Outcome)
    requires var s := Run(e, clients, steps); s.live.Some? && s.pc.Polling? && s.queue == [] && e.handlers
    ensures var s := Run(e, clients, steps);
      var (r, backlog) := Turn(e.t, s.live.value, s.backlog, o);
      Run(e, clients, steps + [Poll] + [Repeat(o)]) ==
        s.(live := Some(r), backlog := backlog, log := s.log + [Interleaver.Step.TakeTurn(o)])
  {
    SchedulingHolds(e, clients, steps);
    RunNext(e, clients, steps, Poll);
    RunNext(e, clients, steps + [Poll], Repeat(o));
    PollTakesTurn(e, Run(e, clients, steps), o);
  }

  // The task a step pushes.
  function Pushes(s: State, step: Step): seq<Task> {
    match step
    case PushStart(c) => if c < |s.clients| && s.clients[c].Pushing? then [Start] else []
    case PushStop(c) => if c < |s.clients| && s.clients[c].Ready? then [Stop] else []
    case _ => []
  }

  function Pushed(e: Env, clients: nat, steps: seq<Step>): seq<Task> {
    if steps == [] then []
    else Pushed(e, clients, steps[..|steps| - 1]) + Pushes(Run(e, clients, steps[..|steps| - 1]), steps[|steps| - 1])
  }

  // The task a step runs.
  function Runs(s: State, step: Step): seq<Task> {
    match step
    case RunStart => if s.pc.Starting? then [Start] else []
    case RunStop => if s.pc.Stopping? then [Stop] else []
    case _ => []
  }

  function Ran(e: Env, clients: nat, steps: seq<Step>): seq<Task> {
    if steps == [] then []
    else Ran(e, clients, steps[..|steps| - 1]) + Runs(Run(e, clients, steps[..|steps| - 1]), steps[|steps| - 1])
  }

  function InHand(pc: Pc): seq<Task> { if pc.Starting? then [Start] else if pc.Stopping? then [Stop] else [] }

  // Tasks not yet run.
  function Waiting(s: State): seq<Task> { InHand(s.pc) + s.queue }

  lemma PollStep(e: Env, s: State)
    ensures Waiting(Do(e, s, Poll)) == Waiting(s)
  {
    if s.pc.Polling? && s.queue != [] { assert [s.queue[0]] + s.queue[1..] == [] + s.queue; }
  }

  lemma PushStep(e: Env, s: State, step: Step)
    requires step.PushStart? || step.PushStop?
    ensures Waiting(s) + Pushes(s, step) == Waiting(Do(e, s, step))
  {
    assert InHand(s.pc) + s.queue + Pushes(s, step) == InHand(s.pc) + (s.queue + Pushes(s, step));
    assert s.queue + [] == s.queue;
  }

  lemma QuietStep(e: Env, s: State, step: Step)
    requires !step.Poll? && !step.PushStart? && !step.PushStop?
    ensures Pushes(s, step) == [] && Waiting(s) == Runs(s, step) + Waiting(Do(e, s, step))
  {
  }

  lemma TaskStep(e: Env, s: State, step: Step)
    ensures Waiting(s) + Pushes(s, step) == Runs(s, step) + Waiting(Do(e, s, step))
  {
    if step.Poll? {
      PollStep(e, s);
    } else if step.PushStart? || step.PushStop? {
      PushStep(e, s, step);
    } else {
      QuietStep(e, s, step);
    }
  }

  // One step more on both sides.
  lemma BothGrow(ran: seq<Task>, before: seq<Task>, pushes: seq<Task>, runs: seq<Task>, after: seq<Task>)
    requires before + pushes == runs + after
    ensures ran + before + pushes == ran + runs + after
  {
    assert ran + before + pushes == ran + (before + pushes) == ran + (runs + after) == ran + runs + after;
  }

  // Every pushed task is run once, in the order of pushing.
  lemma {:induction false} TasksRunInOrder(e: Env, clients: nat, steps: seq<Step>)
    ensures Ran(e, clients, steps) + Waiting(Run(e, clients, steps)) == Pushed(e, clients, steps)
  {
    if steps != [] {
      var front, step := steps[..|steps| - 1], steps[|steps| - 1];
      TasksRunInOrder(e, clients, front);
      var s := Run(e, clients, front);
      TaskStep(e, s, step);
      BothGrow(Ran(e, clients, front), Waiting(s), Pushes(s, step), Runs(s, step), Waiting(Do(e, s, step)));
    }
  }

  // The packets that arrived.
  function Captured(steps: seq<Step>): seq<Memory> {
    if steps == [] then []
    else Captured(steps[..|steps| - 1]) + match steps[|steps| - 1] case Arrive(p) => [p] case _ => []
  }

  lemma ArrivedStep(e: Env, s: State, step: Step)
    ensures Do(e, s, step).arrived == s.arrived + match step case Arrive(p) => [p] case _ => []
  {
  }

  lemma {:induction false} CapturedExactly(e: Env, clients: nat, steps: seq<Step>)
    ensures Run(e, clients, steps).arrived == Captured(steps)
  {
    if steps != [] {
      CapturedExactly(e, clients, steps[..|steps| - 1]);
      ArrivedStep(e, Run(e, clients, steps[..|steps| - 1]), steps[|steps| - 1]);
    }
  }

  // ---- Whole operations, undisturbed ----

  // A start with the flag down leaves a START with an encoder and the flag up.
  lemma StartSucceeds(e: Env, s: State, c: nat)
    requires c < |s.clients| && s.clients[c].Ready? && !s.flag
    ensures Do(e, Do(e, Do(e, s, Exchange(c)), Open(c, true)), PushStart(c)) ==
      s.(flag := true, queue := s.queue + [Start], created := s.created + 1, accepted := s.accepted + 1)
  {
    assert s.clients[c := Opening][c := Pushing][c := Ready] == s.clients;
  }

  // One whose encoder does not open leaves nothing but a deleted encoder.
  lemma StartFails(e: Env, s: State, c: nat)
    requires c < |s.clients| && s.clients[c].Ready? && !s.flag
    ensures Do(e, Do(e, Do(e, Do(e, s, Exchange(c)), Open(c, false)), Release(c)), Delete(c)) ==
      s.(created := s.created + 1, deleted := s.deleted + 1)
  {
    assert s.clients[c := Opening][c := Releasing][c := Deleting][c := Ready] == s.clients;
  }

  // One with the flag up leaves nothing.
  lemma StartIsRefused(e: Env, s: State, c: nat)
    requires s.flag
    ensures Do(e, s, Exchange(c)) == s
  {
  }

  // do_start: a new recording whose first arrivals are the queued sound.
  lemma StartRuns(e: Env, s: State)
    requires s.pc.Polling? && s.queue != [] && s.queue[0].Start? && s.live.None?
    ensures Do(e, Do(e, s, Poll), RunStart) ==
      s.(queue := s.queue[1..], live := Some(NEW_RECORDING), log := Arriving(s.backlog), scheduling := true,
         starts := s.starts + 1)
  {
  }

  // do_stop without a session only stops the scheduler.
  lemma StopRunsIdle(e: Env, s: State)
    requires s.pc.Polling? && s.queue != [] && s.queue[0].Stop? && s.live.None?
    ensures Do(e, Do(e, s, Poll), RunStop) == s.(queue := s.queue[1..], scheduling := false)
  {
  }

  // do_stop with a session, when there is nothing to drain.
  lemma StopRuns(e: Env, s: State, o: Outcome)
    requires s.pc.Polling? && s.queue != [] && s.queue[0].Stop? && s.live.Some?
    requires !e.handlers || Ended(e.t, s.live.value, s.backlog)
    ensures Do(e, Do(e, Do(e, Do(e, Do(e, s, Poll), RunStop), DrainTurn(o)), DropEncoder), Complete) ==
      s.(queue := s.queue[1..], scheduling := false, flag := false, live := None, deleted := s.deleted + 1,
         ended := s.ended + [Completed(s.live.value, s.log)], completions := s.completions + 1)
  {
  }

  // The error path, before or after the turn had its effect.
  lemma ErrorRuns(e: Env, s: State, o: Outcome, acted: bool)
    requires s.pc.Repeating? && s.live.Some? && e.handlers
    ensures var s' := if acted then TurnOf(e, s, o) else s;
      Do(e, Do(e, Do(e, s, Throw(o, acted)), DropFailed), ReportError) ==
      s'.(pc := Polling, flag := false, live := None, deleted := s.deleted + 1,
          ended := s.ended + [Failed(s'.live.value, s'.log)], errors := s.errors + 1)
  {
  }

  // ---- Whole operations, with the other threads in between ----

  predicate IsOthers(step: Step) { IsClientStep(step) || step.Arrive? }

  predicate Others(more: seq<Step>) {
    more == [] || (Others(more[..|more| - 1]) && IsOthers(more[|more| - 1]))
  }

  // What only the scheduler thread changes.
  predicate SameScheduler(s: State, s': State) {
    && s'.pc == s.pc && s'.live == s.live && s'.scheduling == s.scheduling && s'.ended == s.ended
    && s'.starts == s.starts && s'.completions == s.completions && s'.errors == s.errors
    && (InRelease(s.pc) ==> s'.log == s.log)
  }

  // Other threads only add to the queues, and do not touch the rest.
  predicate OthersEffect(s: State, s': State) {
    SameScheduler(s, s') && s.queue <= s'.queue && s.backlog <= s'.backlog
  }

  lemma OthersStep(e: Env, s: State, step: Step)
    requires IsOthers(step)
    ensures OthersEffect(s, Do(e, s, step))
  {
  }

  lemma {:induction false} OthersKeep(e: Env, s: State, more: seq<Step>)
    requires Others(more)
    ensures OthersEffect(s, After(e, s, more))
  {
    if more != [] {
      OthersKeep(e, s, more[..|more| - 1]);
      OthersStep(e, After(e, s, more[..|more| - 1]), more[|more| - 1]);
    }
  }

  // A queued START becomes a live session that takes turns.
  lemma StartRunsAmong(e: Env, s: State, a: seq<Step>)
    requires s.pc.Polling? && s.queue != [] && s.queue[0].Start? && s.live.None? && Others(a)
    ensures var s1 := After(e, Do(e, s, Poll), a);
      var s2 := Do(e, s1, RunStart);
      s2 == s1.(pc := Polling, live := Some(NEW_RECORDING), log := Arriving(s1.backlog), scheduling := true,
                starts := s.starts + 1)
  {
    OthersKeep(e, Do(e, s, Poll), a);
  }

  // A queued STOP stops the turns and begins the drain of a live session.
  lemma StopRunsAmong(e: Env, s: State, a: seq<Step>)
    requires s.pc.Polling? && s.queue != [] && s.queue[0].Stop? && Others(a)
    ensures var s1 := After(e, Do(e, s, Poll), a);
      Do(e, s1, RunStop) == s1.(scheduling := false, pc := if s.live.Some? then Draining else Polling)
  {
    OthersKeep(e, Do(e, s, Poll), a);
  }

  // A turn is taken on the sound that is queued when it runs.
  lemma TurnRunsAmong(e: Env, s: State, a: seq<Step>, o: Outcome)
    requires s.scheduling && s.pc.Polling? && s.queue == [] && s.live.Some? && e.handlers && Others(a)
    ensures var s1 := After(e, Do(e, s, Poll), a);
      var (r, backlog) := Turn(e.t, s.live.value, s1.backlog, o);
      Do(e, s1, Repeat(o)) ==
        s1.(pc := Polling, live := Some(r), backlog := backlog, log := s1.log + [Interleaver.Step.TakeTurn(o)])
  {
    OthersKeep(e, Do(e, s, Poll), a);
  }

  // Once the flag is down, the session is ended and completed, whoever starts meanwhile.
  lemma ReleaseCompletes(e: Env, s: State, a: seq<Step>, b: seq<Step>)
    requires s.pc.Released? && s.live.Some? && Others(a) && Others(b)
    ensures var s1 := After(e, s, a);
      var s2 := After(e, Do(e, s1, DropEncoder), b);
      var s3 := Do(e, s2, Complete);
      && Do(e, s1, DropEncoder) == s1.(live := None, deleted := s1.deleted + 1, pc := Completing,
                                       ended := s.ended + [Completed(s.live.value, s.log)])
      && s3 == s2.(completions := s.completions + 1, pc := Polling)
      && s3.live.None? && s3.ended == s.ended + [Completed(s.live.value, s.log)]
  {
    OthersKeep(e, s, a);
    OthersKeep(e, Do(e, After(e, s, a), DropEncoder), b);
  }

  // The same in the error path.
  lemma ErrorCompletes(e: Env, s: State, a: seq<Step>, b: seq<Step>)
    requires s.pc.ErrorReleased? && s.live.Some? && Others(a) && Others(b)
    ensures var s1 := After(e, s, a);
      var s2 := After(e, Do(e, s1, DropFailed), b);
      var s3 := Do(e, s2, ReportError);
      && Do(e, s1, DropFailed) == s1.(live := None, deleted := s1.deleted + 1, pc := ErrorReporting,
                                      ended := s.ended + [Failed(s.live.value, s.log)])
      && s3 == s2.(errors := s.errors + 1, pc := Polling)
      && s3.live.None? && s3.ended == s.ended + [Failed(s.live.value, s.log)]
  {
    OthersKeep(e, s, a);
    OthersKeep(e, Do(e, After(e, s, a), DropFailed), b);
  }

  // ---- Which captured sound reaches the files ----

  // The sound the sessions handed to their encoders.
  function Heard(ended: seq<Session>): seq<Memory> {
    if ended == [] then [] else Heard(ended[..|ended| - 1]) + ended[|ended| - 1].r.sound
  }

  predicate NoneLost(e: Env, ended: seq<Session>) {
    ended == [] || (NoneLost(e, ended[..|ended| - 1]) && NothingLost(Events(e.t, ended[|ended| - 1].log)))
  }

  lemma SessionSound(e: Env, log: seq<Interleaver.Step>)
    ensures var r := Record(e.t, log).0;
      && |r.sound| <= |r.taken|
      && (|r.sound| == |r.taken| <==> NothingLost(Events(e.t, log)))
      && (|r.sound| == |r.taken| ==> r.sound == r.taken)
  {
    var r := Record(e.t, log).0;
    SoundReachesExactly(e.t, log);
    SubsequenceFits(r.sound, r.taken);
  }

  lemma {:induction false} EndedSound(e: Env, ended: seq<Session>)
    requires forall x :: x in ended ==> Recorded(e, x)
    ensures |Heard(ended)| <= |Taken(ended)|
    ensures |Heard(ended)| == |Taken(ended)| <==> NoneLost(e, ended)
    ensures |Heard(ended)| == |Taken(ended)| ==> Heard(ended) == Taken(ended)
  {
    if ended != [] {
      var front, last := ended[..|ended| - 1], ended[|ended| - 1];
      assert last in ended && forall x :: x in front ==> x in ended;
      EndedSound(e, front);
      SessionSound(e, last.log);
    }
  }

  predicate NoSoundLost(e: Env, s: State) {
    NoneLost(e, s.ended) && (s.live.Some? ==> NothingLost(Events(e.t, s.log)))
  }

  // In every interleaving: the captured packets are those handed to the encoders, session by
  // session, and those still queued, if and only if no sound turn of any session ended before
  // the encoder.
  lemma SoundReachesFilesExactly(e: Env, clients: nat, steps: seq<Step>)
    ensures var s := Run(e, clients, steps);
      s.arrived == Heard(s.ended) + (if s.live.Some? then s.live.value.sound else []) + s.backlog <==> NoSoundLost(e, s)
  {
    var s := Run(e, clients, steps);
    RecordingsHold(e, clients, steps);
    EndedSound(e, s.ended);
    if s.live.Some? { SessionSound(e, s.log); }
  }

  // What the rules say of a completed recording: so many pictures as its sound needs, in
  // order exactly when no sound came late, and with all sound of its session exactly when no
  // turn lost any.
  lemma CompletedFile(e: Env, clients: nat, steps: seq<Step>, x: Session)
    requires e.handlers && x.Completed?
    ensures x in Run(e, clients, steps).ended ==>
      && x.r.v == x.r.a * e.t.fps / e.t.rate + 1
      && (StableMerge(e.t, x.r.stamps) <==> !LateSound(Events(e.t, x.log)))
      && Reaches(x.r.sound, x.r.taken, Events(e.t, x.log))
      && (x.r.sound == x.r.taken <==> NothingLost(Events(e.t, x.log)))
  {
    if x in Run(e, clients, steps).ended {
      RecordingsHold(e, clients, steps);
      RecordKeepsInv(e.t, x.log);
      PicturesCoverSound(e.t, x.r.v, x.r.a);
      OrderedExactlyWithoutLateSound(e.t, x.log);
      SoundReachesExactly(e.t, x.log);
    }
  }

  // The files of any two completed recordings, of the same or of different runs, agree
  // frame by frame when they clocked and kept the same amount of sound and none came late.
  lemma CompletedFilesAgree(
    e: Env, clients: nat, steps: seq<Step>, clients': nat, steps': seq<Step>, x: Session, y: Session)
    requires e.handlers && x.Completed? && y.Completed?
    requires x.r.a == y.r.a && |x.r.sound| == |y.r.sound|
    requires !LateSound(Events(e.t, x.log)) && !LateSound(Events(e.t, y.log))
    ensures x in Run(e, clients, steps).ended && y in Run(e, clients', steps').ended ==> x.r.stamps == y.r.stamps
  {
    if x in Run(e, clients, steps).ended && y in Run(e, clients', steps').ended {
      RecordingsHold(e, clients, steps);
      RecordingsHold(e, clients', steps');
      FinalOrderDependsOnSoundOnly(e.t, x.log, y.log);
    }
  }

  // ---- The drain of the scheduler thread, undisturbed ----

  function DrainSteps(e: Env, s: State, f: nat -> Outcome, i: nat, j: nat): State
    requires i <= j
    decreases j - i
  {
    if i == j then s else Schedule(e, DrainSteps(e, s, f, i, j - 1), DrainTurn(f(j - 1)))
  }

  lemma LogGrows(log: seq<Interleaver.Step>, turns: seq<Interleaver.Step>, turn: seq<Interleaver.Step>)
    ensures log + (turns + turn) == log + turns + turn
  {
  }

  // While it lasts it takes the turns of Interleaver.
  lemma {:induction false} DrainStepsAreTurns(e: Env, s: State, f: nat -> Outcome, i: nat, j: nat)
    requires s.pc.Draining? && s.live.Some? && e.handlers && i <= j
    requires forall k :: i <= k < j ==> !EndedAt(e.t, s.live.value, s.backlog, f, i, k)
    ensures var (r, backlog) := Turns(e.t, s.live.value, s.backlog, f, i, j);
      DrainSteps(e, s, f, i, j) == s.(live := Some(r), backlog := backlog, log := s.log + TurnSteps(f, i, j))
    decreases j - i
  {
    if i == j {
      assert s.log + [] == s.log;
    } else {
      DrainStepsAreTurns(e, s, f, i, j - 1);
      assert !EndedAt(e.t, s.live.value, s.backlog, f, i, j - 1);
      LogGrows(s.log, TurnSteps(f, i, j - 1), [Interleaver.Step.TakeTurn(f(j - 1))]);
    }
  }

  // The first exit of the loop lowers the flag.
  lemma DrainStepsLeave(e: Env, s: State, f: nat -> Outcome, i: nat, j: nat)
    requires s.pc.Draining? && s.live.Some? && e.handlers && i <= j
    requires forall k :: i <= k < j ==> !EndedAt(e.t, s.live.value, s.backlog, f, i, k)
    requires EndedAt(e.t, s.live.value, s.backlog, f, i, j)
    ensures var r := Turns(e.t, s.live.value, s.backlog, f, i, j).0;
      DrainSteps(e, s, f, i, j + 1) ==
        s.(pc := Released, flag := false, live := Some(r), backlog := [], log := s.log + TurnSteps(f, i, j))
  {
    DrainStepsAreTurns(e, s, f, i, j);
  }

  // ---- The drain with other threads in between ----

  lemma {:induction false} CountZero(l: seq<ClientPc>, c: nat, pcs: set<ClientPc>)
    requires Count(l, pcs) == 0 && c < |l|
    ensures l[c] !in pcs
  {
    if c < |l| - 1 { CountZero(l[..|l| - 1], c, pcs); }
  }

  // A picture is due in the live recording.
  predicate Due(e: Env, s: State) { s.live.Some? && IsVideoTurn(e.t, s.live.value.v, s.live.value.a) }

  // What one step of any thread leaves of the drain: clients change nothing of it, and none
  // of them can start; a packet is queued; a drain turn is a turn, or leaves at the end.
  ghost predicate DrainStep(e: Env, s: State, step: Step, s': State) {
    && s.live.Some?
    && (s'.pc.Draining? ==> s'.flag && s'.created == s.created && s'.accepted == s.accepted)
    && match step
       case DrainTurn(o) =>
         if Ended(e.t, s.live.value, s.backlog) then s'.pc.Released? && !s'.flag && s'.live == s.live
         else s'.pc.Draining? && s'.live.Some? && (s'.live.value, s'.backlog) == Turn(e.t, s.live.value, s.backlog, o)
              && s'.log == s.log + [Interleaver.Step.TakeTurn(o)]
       case Arrive(p) =>
         s'.pc.Draining? && s'.live == s.live && s'.backlog == s.backlog + [p]
         && s'.log == s.log + [Interleaver.Step.Arrive(p)]
       case _ => s'.pc.Draining? && s'.live == s.live && s'.backlog == s.backlog && s'.log == s.log
  }

  lemma ClientWhileDraining(e: Env, s: State, step: Step)
    requires Control(s) && s.pc.Draining? && IsClientStep(step)
    ensures DrainStep(e, s, step, Do(e, s, step))
  {
    assert s.flag && Claims(s) == 0;
    if step.c < |s.clients| { CountZero(s.clients, step.c, {Opening, Releasing, Pushing}); }
  }

  lemma WhileDraining(e: Env, s: State, step: Step)
    requires Control(s) && s.pc.Draining? && e.handlers
    ensures DrainStep(e, s, step, Do(e, s, step))
  {
    if IsClientStep(step) { ClientWhileDraining(e, s, step); } else { assert s.flag; }
  }

  // While a picture is due, a step that does not encode one leaves the drain where it is.
  lemma HangStep(e: Env, s: State, step: Step)
    requires Control(s) && s.pc.Draining? && e.handlers && Due(e, s) && (step.DrainTurn? ==> !Encodes(step.o))
    ensures var s' := Do(e, s, step);
      s'.pc.Draining? && s'.live == s.live && s'.flag && s'.created == s.created && s'.accepted == s.accepted
  {
    WhileDraining(e, s, step);
  }

  lemma RunNext(e: Env, clients: nat, steps: seq<Step>, step: Step)
    ensures Run(e, clients, steps + [step]) == Do(e, Run(e, clients, steps), step)
  {
    var next := steps + [step];
    assert next[..|next| - 1] == steps;
  }

  // No drain turn among these steps gets a frame as far as the encoder.
  predicate NoneEncodes(more: seq<Step>) {
    more == [] ||
    var step := more[|more| - 1];
    NoneEncodes(more[..|more| - 1]) && (step.DrainTurn? ==> !Encodes(step.o))
  }

  // From s to s' the drain went on with the same recording, and every start was refused: the
  // flag is up, and no client has got past it to make an encoder or to hand one on.
  predicate Hung(s: State, s': State) {
    s'.pc.Draining? && s'.live == s.live && s'.flag && s'.created == s.created && s'.accepted == s.accepted
  }

  lemma HungNext(e: Env, s0: State, s: State, step: Step)
    requires Control(s) && e.handlers && Due(e, s0) && Hung(s0, s) && (step.DrainTurn? ==> !Encodes(step.o))
    ensures Control(Do(e, s, step)) && Hung(s0, Do(e, s, step))
  {
    HangStep(e, s, step);
    StepKeepsControl(e, s, step);
  }

  // f applied to the elements of l, one after another.
  function Fold<S, T>(f: (S, T) -> S, s: S, l: seq<T>): S {
    if l == [] then s else f(Fold(f, s, l[..|l| - 1]), l[|l| - 1])
  }

  function After(e: Env, s: State, more: seq<Step>): State {
    Fold((s, step) => Do(e, s, step), s, more)
  }

  lemma {:induction false} FoldAppend<S, T>(f: (S, T) -> S, s: S, l: seq<T>, more: seq<T>)
    ensures Fold(f, s, l + more) == Fold(f, Fold(f, s, l), more)
  {
    if more == [] {
      assert l + more == l;
    } else {
      FoldAppend(f, s, l, more[..|more| - 1]);
      assert (l + more)[..|l + more| - 1] == l + more[..|more| - 1];
    }
  }

  lemma {:induction false} RunIsAfter(e: Env, clients: nat, steps: seq<Step>)
    ensures Run(e, clients, steps) == After(e, Initial(clients), steps)
  {
    if steps != [] { RunIsAfter(e, clients, steps[..|steps| - 1]); }
  }

  lemma RunAfter(e: Env, clients: nat, steps: seq<Step>, more: seq<Step>)
    ensures Run(e, clients, steps + more) == After(e, Run(e, clients, steps), more)
  {
    RunIsAfter(e, clients, steps);
    RunIsAfter(e, clients, steps + more);
    FoldAppend((s, step) => Do(e, s, step), Initial(clients), steps, more);
  }

  lemma {:induction false} HungAfter(e: Env, s: State, more: seq<Step>)
    requires Control(s) && e.handlers && s.pc.Draining? && s.flag && Due(e, s) && NoneEncodes(more)
    ensures Control(After(e, s, more)) && Hung(s, After(e, s, more))
  {
    if more != [] {
      HungAfter(e, s, more[..|more| - 1]);
      HungNext(e, s, After(e, s, more[..|more| - 1]), more[|more| - 1]);
    }
  }

  // Whatever the other threads do: while a picture is due and no call encodes, stop does not
  // get through and every start is refused.
  lemma HangHolds(e: Env, clients: nat, steps: seq<Step>, more: seq<Step>)
    requires e.handlers && Run(e, clients, steps).pc.Draining? && Due(e, Run(e, clients, steps)) && NoneEncodes(more)
    ensures Hung(Run(e, clients, steps), Run(e, clients, steps + more))
  {
    ControlHolds(e, clients, steps);
    HungAfter(e, Run(e, clients, steps), more);
    RunAfter(e, clients, steps, more);
  }

  // ---- Any endless schedule ----

  // f applied to the elements number i up to j of g.
  function Iterate<S, T>(f: (S, T) -> S, s: S, g: nat -> T, i: nat, j: nat): S
    requires i <= j
    decreases j - i
  {
    if i == j then s else f(Iterate(f, s, g, i, j - 1), g(j - 1))
  }

  lemma {:induction false} IterateFirst<S, T>(f: (S, T) -> S, s: S, g: nat -> T, i: nat, j: nat)
    requires i < j
    ensures Iterate(f, s, g, i, j) == Iterate(f, f(s, g(i)), g, i + 1, j)
    decreases j - i
  {
    if i + 1 < j { IterateFirst(f, s, g, i, j - 1); }
  }

  lemma {:induction false} IterateSplit<S, T>(f: (S, T) -> S, s: S, g: nat -> T, i: nat, m: nat, j: nat)
    requires i <= m <= j
    ensures Iterate(f, s, g, i, j) == Iterate(f, Iterate(f, s, g, i, m), g, m, j)
    decreases j - m
  {
    if m < j { IterateSplit(f, s, g, i, m, j - 1); }
  }

  // After the steps number i up to j of the schedule g.
  function On(e: Env, s: State, g: nat -> Step, i: nat, j: nat): State
    requires i <= j
  {
    Iterate((s, step) => Do(e, s, step), s, g, i, j)
  }

  lemma OnFirst(e: Env, s: State, g: nat -> Step, i: nat, j: nat)
    requires i < j
    ensures On(e, s, g, i, j) == On(e, Do(e, s, g(i)), g, i + 1, j)
  {
    IterateFirst((s, step) => Do(e, s, step), s, g, i, j);
  }

  predicate DrainingAt(e: Env, s: State, g: nat -> Step, i: nat, j: nat)
    requires i <= j
  {
    On(e, s, g, i, j).pc.Draining?
  }

  ghost predicate DrainingUpTo(e: Env, s: State, g: nat -> Step, i: nat, m: nat)
    requires i <= m
  {
    forall k :: i <= k <= m ==> DrainingAt(e, s, g, i, k)
  }

  predicate IsTurn(step: Step) { step.DrainTurn? }

  ghost predicate NeverEncodesFrom(g: nat -> Step, m: nat) {
    forall k :: m <= k && IsTurn(g(k)) ==> !Encodes(g(k).o)
  }

  // The drain is still on at m, a picture is due, and no later drain turn encodes.
  ghost predicate HangsAt(e: Env, s: State, g: nat -> Step, i: nat, m: nat)
    requires i <= m
  {
    DrainingUpTo(e, s, g, i, m) && Due(e, On(e, s, g, i, m)) && NeverEncodesFrom(g, m)
  }

  ghost predicate HangsOn(e: Env, s: State, g: nat -> Step, i: nat) {
    exists m :: i <= m && HangsAt(e, s, g, i, m)
  }

  ghost predicate Leaves(e: Env, s: State, g: nat -> Step, i: nat) {
    exists j :: i <= j && !DrainingAt(e, s, g, i, j)
  }

  // The scheduler thread goes on, and from n on the capture has stopped.
  ghost predicate TurnComes(g: nat -> Step, n: nat) { exists k :: n <= k && IsTurn(g(k)) }

  ghost predicate Fair(g: nat -> Step) { forall n: nat :: TurnComes(g, n) }

  ghost predicate NoArrivalFrom(g: nat -> Step, n: nat) { forall k :: n <= k ==> !g(k).Arrive? }

  lemma {:induction false} StaysHung(e: Env, s: State, g: nat -> Step, m: nat, j: nat)
    requires Control(s) && e.handlers && s.pc.Draining? && s.flag && Due(e, s) && NeverEncodesFrom(g, m) && m <= j
    ensures Control(On(e, s, g, m, j)) && Hung(s, On(e, s, g, m, j))
    decreases j - m
  {
    if m < j {
      StaysHung(e, s, g, m, j - 1);
      assert IsTurn(g(j - 1)) ==> !Encodes(g(j - 1).o);
      HungNext(e, s, On(e, s, g, m, j - 1), g(j - 1));
    }
  }

  // What every step keeps, every number of steps keeps.
  lemma {:induction false} IterateKeeps<S, T>(p: S -> bool, f: (S, T) -> S, s: S, g: nat -> T, i: nat, j: nat)
    requires i <= j && p(s) && forall s', k: nat {:trigger f(s', g(k))} :: p(s') ==> p(f(s', g(k)))
    ensures p(Iterate(f, s, g, i, j))
    decreases j - i
  {
    if i < j { IterateKeeps(p, f, s, g, i, j - 1); }
  }

  lemma OnKeepsControl(e: Env, s: State, g: nat -> Step, i: nat, j: nat)
    requires Control(s) && i <= j
    ensures Control(On(e, s, g, i, j))
  {
    var f := (s, step) => Do(e, s, step);
    forall s', k: nat {:trigger f(s', g(k))} | Control(s') ensures Control(f(s', g(k))) {
      StepKeepsControl(e, s', g(k));
    }
    IterateKeeps(s => Control(s), f, s, g, i, j);
  }

  // A drain that hangs at m is never left.
  lemma HangIsNotLeft(e: Env, s: State, g: nat -> Step, i: nat, m: nat, j: nat)
    requires Control(s) && e.handlers && i <= m && i <= j && HangsAt(e, s, g, i, m)
    ensures DrainingAt(e, s, g, i, j)
  {
    if m < j {
      var s' := On(e, s, g, i, m);
      assert DrainingAt(e, s, g, i, m);
      OnKeepsControl(e, s, g, i, m);
      assert s'.flag;
      StaysHung(e, s', g, m, j);
      IterateSplit((s, step) => Do(e, s, step), s, g, i, m, j);
    }
  }

  lemma RestDoesNotHangOn(e: Env, s: State, g: nat -> Step, i: nat)
    requires !HangsOn(e, s, g, i) && s.pc.Draining?
    ensures !HangsOn(e, Do(e, s, g(i)), g, i + 1)
  {
    var s' := Do(e, s, g(i));
    if HangsOn(e, s', g, i + 1) {
      var m :| i + 1 <= m && HangsAt(e, s', g, i + 1, m);
      forall k | i <= k <= m ensures DrainingAt(e, s, g, i, k) {
        if i < k {
          OnFirst(e, s, g, i, k);
          assert DrainingAt(e, s', g, i + 1, k);
        }
      }
      OnFirst(e, s, g, i, m);
      assert HangsAt(e, s, g, i, m);
    }
  }

  // A drain turn that takes the drain further.
  predicate Advances(e: Env, s: State, step: Step) { IsTurn(step) && (Due(e, s) ==> Encodes(step.o)) }

  lemma NextAdvance(e: Env, s: State, g: nat -> Step, i: nat) returns (d: nat)
    requires Fair(g) && !HangsOn(e, s, g, i) && s.pc.Draining?
    ensures Advances(e, s, g(i + d))
  {
    if Due(e, s) {
      assert DrainingAt(e, s, g, i, i) && DrainingUpTo(e, s, g, i, i);
      assert !HangsAt(e, s, g, i, i) && !NeverEncodesFrom(g, i);
      var k :| i <= k && IsTurn(g(k)) && Encodes(g(k).o);
      d := k - i;
    } else {
      assert TurnComes(g, i);
      var k :| i <= k && IsTurn(g(k));
      d := k - i;
    }
  }

  // How much further, by the measure of the drain; other steps leave it alone.
  lemma AdvanceCounts(e: Env, s: State, step: Step)
    requires Control(s) && s.pc.Draining? && e.handlers && !step.Arrive?
    ensures var s' := Do(e, s, step);
      s'.pc.Draining? ==>
        && s'.live.Some? && s.live.Some?
        && (Advances(e, s, step) ==>
              |s'.backlog| < |s.backlog| ||
              (s'.backlog == s.backlog && Behind(e.t, s'.live.value) < Behind(e.t, s.live.value)))
        && (!Advances(e, s, step) ==> s'.backlog == s.backlog && s'.live == s.live)
  {
    WhileDraining(e, s, step);
    if Advances(e, s, step) && Due(e, s) { PictureCatchesUp(e.t, s.live.value, step.o); }
  }

  // d steps on, the drain advances; it leaves after arrivals up to n, the backlog and the
  // pictures behind are used up.
  lemma {:induction false} DrainLeaves(e: Env, s: State, g: nat -> Step, i: nat, n: nat, d: nat) returns (j: nat)
    requires Control(s) && s.pc.Draining? && e.handlers && Fair(g) && NoArrivalFrom(g, n) && !HangsOn(e, s, g, i)
    requires Advances(e, s, g(i + d))
    ensures i <= j && !DrainingAt(e, s, g, i, j)
    decreases if i < n then n - i else 0, |s.backlog|, Behind(e.t, s.live.value), d
  {
    var s' := Do(e, s, g(i));
    StepKeepsControl(e, s, g(i));
    if !s'.pc.Draining? {
      j := i + 1;
    } else {
      RestDoesNotHangOn(e, s, g, i);
      if !g(i).Arrive? { AdvanceCounts(e, s, g(i)); }
      if i < n || Advances(e, s, g(i)) {
        var d' := NextAdvance(e, s', g, i + 1);
        j := DrainLeaves(e, s', g, i + 1, n, d');
      } else {
        j := DrainLeaves(e, s', g, i + 1, n, d - 1);
      }
    }
    OnFirst(e, s, g, i, j);
  }

  lemma LeavesExactly(e: Env, s: State, g: nat -> Step, n: nat)
    requires Control(s) && e.handlers && s.pc.Draining? && Fair(g) && NoArrivalFrom(g, n)
    ensures Leaves(e, s, g, 0) <==> !HangsOn(e, s, g, 0)
  {
    if HangsOn(e, s, g, 0) {
      var m :| 0 <= m && HangsAt(e, s, g, 0, m);
      forall j: nat ensures DrainingAt(e, s, g, 0, j) {
        HangIsNotLeft(e, s, g, 0, m, j);
      }
    } else {
      var d := NextAdvance(e, s, g, 0);
      var _ := DrainLeaves(e, s, g, 0, n, d);
    }
  }

  // Under every fair schedule of clients, capture and scheduler in which the capture stops:
  // stop gets through if and only if the drain does not come to a picture that no later call
  // encodes.
  lemma StopCompletesExactly(e: Env, clients: nat, steps: seq<Step>, g: nat -> Step, n: nat)
    requires e.handlers && Run(e, clients, steps).pc.Draining? && Fair(g) && NoArrivalFrom(g, n)
    ensures Leaves(e, Run(e, clients, steps), g, 0) <==> !HangsOn(e, Run(e, clients, steps), g, 0)
  {
    ControlHolds(e, clients, steps);
    LeavesExactly(e, Run(e, clients, steps), g, n);
  }

  // The capture has to stop: a packet before every drain turn keeps any drain going, even if
  // every call succeeds.
  function EndlessSound(p: Memory): nat -> Step {
    n => if n % 2 == 0 then Step.Arrive(p) else DrainTurn(Written)
  }

  lemma EndlessStep(e: Env, s: State, step: Step)
    requires Control(s) && e.handlers && s.pc.Draining? && (step.Arrive? || (step.DrainTurn? && s.backlog != []))
    ensures var s' := Do(e, s, step);
      Control(s') && s'.pc.Draining? && (step.Arrive? ==> s'.backlog != [])
  {
    WhileDraining(e, s, step);
    StepKeepsControl(e, s, step);
  }

  lemma {:induction false} EndlessSoundHoldsStop(e: Env, s: State, p: Memory, j: nat)
    requires Control(s) && e.handlers && s.pc.Draining?
    ensures var s' := On(e, s, EndlessSound(p), 0, j);
      Control(s') && s'.pc.Draining? && (j % 2 == 1 ==> s'.backlog != [])
  {
    if j != 0 {
      var step := EndlessSound(p)(j - 1);
      assert if j % 2 == 1 then step.Arrive? else step.DrainTurn?;
      EndlessSoundHoldsStop(e, s, p, j - 1);
      EndlessStep(e, On(e, s, EndlessSound(p), 0, j - 1), step);
    }
  }

  // ---- A stop that hangs ----

  lemma {:induction false} FirstReady(n: nat)
    requires 0 < n
    ensures |AllReady(n)| == n && AllReady(n)[0] == Ready
  {
    if 1 < n { FirstReady(n - 1); }
  }

  // A client starts, and its START is run.
  lemma OneStart(e: Env, clients: nat)
    requires 0 < clients
    ensures var s := Run(e, clients, [] + [Exchange(0)] + [Open(0, true)] + [PushStart(0)]);
      |s.clients| == clients && s.clients[0].Ready? && s.queue == [Start] && s.pc.Polling?
  {
    var s1 := [] + [Exchange(0)];
    FirstReady(clients);
    RunNext(e, clients, [], Exchange(0));
    RunNext(e, clients, s1, Open(0, true));
    RunNext(e, clients, s1 + [Open(0, true)], PushStart(0));
    assert [] + [Start] == [Start];
  }

  lemma StartIsRun(e: Env, clients: nat, steps: seq<Step>)
    requires 0 < clients
    requires var s := Run(e, clients, steps);
      |s.clients| == clients && s.clients[0].Ready? && s.queue == [Start] && s.pc.Polling?
    ensures var s := Run(e, clients, steps + [Poll] + [RunStart]);
      |s.clients| == clients && s.clients[0].Ready? && s.queue == [] && s.pc.Polling? && s.live == Some(NEW_RECORDING)
  {
    RunNext(e, clients, steps, Poll);
    RunNext(e, clients, steps + [Poll], RunStart);
  }

  lemma StopIsRun(e: Env, clients: nat, steps: seq<Step>)
    requires 0 < clients
    requires var s := Run(e, clients, steps);
      |s.clients| == clients && s.clients[0].Ready? && s.queue == [] && s.pc.Polling? && s.live == Some(NEW_RECORDING)
    ensures var s := Run(e, clients, steps + [PushStop(0)] + [Poll] + [RunStop]);
      s.pc.Draining? && s.live == Some(NEW_RECORDING)
  {
    RunNext(e, clients, steps, PushStop(0));
    assert [] + [Stop] == [Stop];
    RunNext(e, clients, steps + [PushStop(0)], Poll);
    RunNext(e, clients, steps + [PushStop(0)] + [Poll], RunStop);
  }

  // After these steps stop never gets through, and nobody can start any more, whatever the
  // other threads do, when the codec library cannot allocate a picture.
  lemma StopCanHang(e: Env, clients: nat) returns (steps: seq<Step>)
    requires e.handlers && 0 < clients
    ensures var s := Run(e, clients, steps); s.pc.Draining? && s.live == Some(NEW_RECORDING)
    ensures forall more :: NoneEncodes(more) ==> Hung(Run(e, clients, steps), Run(e, clients, steps + more))
  {
    var s3 := [] + [Exchange(0)] + [Open(0, true)] + [PushStart(0)];
    var s5 := s3 + [Poll] + [RunStart];
    OneStart(e, clients);
    StartIsRun(e, clients, s3);
    StopIsRun(e, clients, s5);
    steps := s5 + [PushStop(0)] + [Poll] + [RunStop];
    forall more | NoneEncodes(more) ensures Hung(Run(e, clients, steps), Run(e, clients, steps + more)) {
      HangHolds(e, clients, steps, more);
    }
  }
}
