/** The poolcore protocol: a message loop and one solver thread, interleaved step by step. */
module Poolcore {
  import opened Cursor
  import opened Wrappers

  /** A live job sinks shares from inside its solve; an episode job (bare or coupled) returns each one. */
  datatype Kind = Live | Episode

  datatype Spec = Spec(job: nat, kind: Kind, target: nat, start: Word, blockTarget: int)

  /** What reaches the message loop. A job may be malformed or its profile switched off. */
  datatype Message = StartJob(spec: Spec) | BadJob | IdleJob(job: nat) | Preempt(job: nat) | SetTarget(target: nat)
                   | Shutdown | Eof | Other

  /** What the loop does once no solver runs. */
  datatype Next = Dispatching(spec: Spec) | Preempting(job: nat) | ShuttingDown | Ending

  datatype Main = Ready | Joining(next: Next) | Acting(next: Next) | Acking(job: nat) | Exited

  /** Inside one solver iteration: at the loop head, solving, holding a share not yet re-checked, one that
      passed, one already announced whose witness is still to come. */
  datatype Phase =
    | Head
    | Solving
    | Holding(nonce: Word, digest: nat, again: bool)
    | Passed(nonce: Word, digest: nat, again: bool)
    | Announced(nonce: Word, digest: nat)

  datatype Worker = Worker(spec: Spec, cursor: Word, phase: Phase)

  /** Everything observable, and the moments a share was found and re-checked. */
  datatype Event =
    | Dispatch(spec: Spec) | Retarget(target: nat)
    | Found(job: nat, nonce: Word, digest: nat) | Recheck(job: nat, nonce: Word, digest: nat, bar: nat)
    | Solution(job: nat, nonce: Word, digest: nat, isBlock: bool) | Witness(job: nat, nonce: Word, digest: nat)
    | Ack(job: nat, dispatched: bool) | PreemptOk(job: nat) | ShutdownOk | Reply

  /** `PcSolveState` (running, abort, target, the thread handle), the live threads, and the history. */
  datatype State = State(main: Main, running: bool, abort: bool, target: nat, handle: nat, live: map<nat, Worker>,
                         log: seq<Event>, wrapped: bool)

  function Init(): State { State(Ready, false, false, 0, 0, map[], [], false) }

  datatype Step =
    | Receive(message: Message) | Join | Act | Acknowledge
    | Enter(t: nat) | Find(t: nat, nonce: Word, digest: nat, again: bool) | Miss(t: nat, last: Word)
    | Check(t: nat) | Announce(t: nat) | Attest(t: nat)

  /** What a solver thread may do where it stands. The solver's contract is only that it scans upward
      from the cursor: what it finds may miss the target in force. Only a live job's solver goes on after a
      share. */
  predicate Able(w: Worker, step: Step) {
    match step
    case Enter(_) => w.phase.Head?
    case Find(_, nonce, _, again) =>
      w.phase.Solving? && w.cursor <= nonce && (again ==> w.spec.kind.Live?)
    case Miss(_, last) => w.phase.Solving? && w.cursor <= last
    case Check(_) => w.phase.Holding?
    case Announce(_) => w.phase.Passed?
    case Attest(_) => w.phase.Announced?
    case _ => false
  }

  predicate IsLoopStep(step: Step) { step.Receive? || step.Join? || step.Act? || step.Acknowledge? }

  predicate Enabled(s: State, step: Step) {
    match step
    case Receive(_) => s.main.Ready?
    case Join => s.main.Joining? && s.handle !in s.live
    case Act => s.main.Acting?
    case Acknowledge => s.main.Acking?
    case _ => step.t in s.live && Able(s.live[step.t], step)
  }

  function Logged(s: State, e: Event): State { s.(log := s.log + [e]) }

  /** `PcSolveState::stop`: with no solver running there is nothing to wait for. */
  function Stop(s: State, next: Next): State {
    if s.running then s.(abort := true, main := Joining(next)) else s.(main := Acting(next))
  }

  function Handle(s: State, m: Message): State {
    match m
    case StartJob(spec) => Stop(s, Dispatching(spec))
    case BadJob => Logged(s, Reply)
    case IdleJob(job) => Logged(s, Ack(job, false))
    case Preempt(job) => Stop(s, Preempting(job))
    case SetTarget(target) => Logged(s, Retarget(target)).(target := target)
    case Shutdown => Stop(s, ShuttingDown)
    case Eof => Stop(s, Ending)
    case Other => Logged(s, Reply)
  }

  function Do(s: State, next: Next): State {
    match next
    case Dispatching(spec) =>
      Logged(s, Dispatch(spec)).(target := spec.target, running := true, handle := s.handle + 1,
        live := s.live[s.handle + 1 := Worker(spec, spec.start, Head)], main := Acking(spec.job))
    case Preempting(job) => Logged(s, PreemptOk(job)).(main := Ready)
    case ShuttingDown => Logged(s, ShutdownOk).(main := Exited)
    case Ending => s.(main := Exited)
  }

  // ---------------------------------------------------------------- the solver thread

  predicate IsBlock(w: Worker, digest: nat) { w.spec.kind.Episode? && digest <= w.spec.blockTarget }

  /** Back to the loop head, one past a nonce. */
  function Onward(w: Worker, nonce: Word): (r: Worker)
    ensures r.spec == w.spec && r.phase.Head? && (r.cursor == nonce + 1 || (r.cursor == 0 && nonce + 1 == TOP))
  {
    Worker(w.spec, (nonce + 1) % TOP, Head)
  }

  /** A share is done with: a live solve goes on, or the loop starts over past it. */
  function AfterShare(w: Worker): Worker
    requires w.phase.Holding? || w.phase.Passed?
  {
    if w.phase.again then w.(phase := Solving) else Onward(w, w.phase.nonce)
  }

  /** The thread after its step, given the flag and the target it reads; none when it ends. */
  function Moved(w: Worker, step: Step, abort: bool, target: nat): Option<Worker>
    requires Able(w, step)
  {
    match step
    case Enter(_) => if abort then None else Some(w.(phase := Solving))
    case Find(_, nonce, digest, again) => Some(w.(phase := Holding(nonce, digest, again)))
    case Miss(_, last) => Some(Onward(w, last))
    case Check(_) =>
      var p := w.phase;
      Some(if p.digest > target then AfterShare(w) else w.(phase := Passed(p.nonce, p.digest, p.again)))
    case Announce(_) =>
      Some(if IsBlock(w, w.phase.digest) then w.(phase := Announced(w.phase.nonce, w.phase.digest)) else AfterShare(w))
    case Attest(_) => Some(Onward(w, w.phase.nonce))
  }

  /** What the step puts into the log. */
  function Says(w: Worker, step: Step, target: nat): Option<Event>
    requires Able(w, step)
  {
    var job := w.spec.job;
    match step
    case Enter(_) => None
    case Find(_, nonce, digest, _) => Some(Found(job, nonce, digest))
    case Miss(_, _) => None
    case Check(_) => Some(Recheck(job, w.phase.nonce, w.phase.digest, target))
    case Announce(_) => Some(Solution(job, w.phase.nonce, w.phase.digest, IsBlock(w, w.phase.digest)))
    case Attest(_) => Some(Witness(job, w.phase.nonce, w.phase.digest))
  }

  function Grown(log: seq<Event>, e: Option<Event>): seq<Event> { if e.Some? then log + [e.value] else log }

  function SolverStep(s: State, step: Step): State
    requires Enabled(s, step) && !IsLoopStep(step)
  {
    var w := s.live[step.t];
    var next := Moved(w, step, s.abort, s.target);
    s.(log := Grown(s.log, Says(w, step, s.target)),
       live := if next.Some? then s.live[step.t := next.value] else s.live - {step.t},
       wrapped := s.wrapped || (next.Some? && next.value.phase.Head? && next.value.cursor == 0))
  }

  function Apply(s: State, step: Step): State
    requires Enabled(s, step)
  {
    match step
    case Receive(m) => Handle(s, m)
    case Join => s.(running := false, abort := false, main := Acting(s.main.next))
    case Act => Do(s, s.main.next)
    case Acknowledge => Logged(s, Ack(s.main.job, true)).(main := Ready)
    case _ => SolverStep(s, step)
  }

  predicate IsRun(trace: seq<Step>)
    decreases |trace|, 0
  {
    trace == [] ||
    (var front, last := trace[..|trace| - 1], trace[|trace| - 1];
     IsRun(front) && Enabled(Final(front), last))
  }

  function Final(trace: seq<Step>): State
    requires IsRun(trace)
    decreases |trace|, 1
  {
    if trace == [] then Init() else Apply(Final(trace[..|trace| - 1]), trace[|trace| - 1])
  }

  // ---------------------------------------------------------------- one solver at most

  /** Whoever is live is the thread in the handle; a thread is live only while the state says running; the
      abort flag is up exactly while the loop waits for the thread to end. */
  predicate Threads(s: State) {
    && (forall t :: t in s.live ==> t == s.handle && s.running)
    && (s.main.Joining? ==> s.running)
    && (s.abort <==> s.main.Joining?)
    && (s.main.Acting? || s.main.Exited? ==> !s.running)
    && (s.main.Acking? ==> s.running)
  }

  lemma ThreadsStep(s: State, step: Step)
    requires Threads(s) && Enabled(s, step)
    ensures Threads(Apply(s, step))
  {
  }

  // ---------------------------------------------------------------- whose shares come out

  /** The job in force: the last dispatched, unless it has since been preempted or shut down. */
  function InForce(log: seq<Event>): Option<Spec> {
    if log == [] then None else
      match log[|log| - 1]
      case Dispatch(spec) => Some(spec)
      case PreemptOk(_) => None
      case ShutdownOk => None
      case _ => InForce(log[..|log| - 1])
  }

  function LastSolution(log: seq<Event>): Option<Event> {
    if log == [] then None else
      if log[|log| - 1].Solution? then Some(log[|log| - 1]) else LastSolution(log[..|log| - 1])
  }

  /** A solution carries the job in force and its block mark is exact; a witness repeats the block-winning
      solution just announced; an acknowledged dispatch is the one in force. */
  predicate Labelled(log: seq<Event>, e: Event) {
    match e
    case Solution(job, nonce, digest, isBlock) =>
      InForce(log).Some? && InForce(log).value.job == job &&
      (isBlock <==> InForce(log).value.kind.Episode? && digest <= InForce(log).value.blockTarget)
    case Witness(job, nonce, digest) =>
      InForce(log).Some? && InForce(log).value.job == job && LastSolution(log) == Some(Solution(job, nonce, digest, true))
    case Ack(job, dispatched) => dispatched ==> InForce(log).Some? && InForce(log).value.job == job
    case _ => true
  }

  predicate AllLabelled(log: seq<Event>) { forall i :: 0 <= i < |log| ==> Labelled(log[..i], log[i]) }

  predicate LabelsFit(s: State) {
    && AllLabelled(s.log)
    && (s.running ==> InForce(s.log).Some?)
    && (forall t :: t in s.live ==> WorkerLabelled(s.log, s.live[t]))
    && (s.main.Acking? ==> InForce(s.log).Some? && InForce(s.log).value.job == s.main.job)
  }

  /** The thread works on the job in force, and a witness to come belongs to the last solution. */
  predicate WorkerLabelled(log: seq<Event>, w: Worker) {
    && InForce(log) == Some(w.spec)
    && (w.phase.Announced? ==> LastSolution(log) == Some(Solution(w.spec.job, w.phase.nonce, w.phase.digest, true)))
  }

  lemma LabelSnoc(log: seq<Event>, e: Event)
    requires AllLabelled(log) && Labelled(log, e)
    ensures AllLabelled(log + [e])
    ensures InForce(log + [e]) ==
      (match e case Dispatch(spec) => Some(spec) case PreemptOk(_) => None case ShutdownOk => None case _ => InForce(log))
    ensures LastSolution(log + [e]) == if e.Solution? then Some(e) else LastSolution(log)
  {
    var next := log + [e];
    assert next[..|log|] == log;
    forall i | 0 <= i < |next| ensures Labelled(next[..i], next[i]) {
      assert next[..i] == log[..i] || i == |log|;
    }
  }

  /** The event a loop step adds to the log, if any. */
  function LoopSays(s: State, step: Step): Option<Event>
    requires Enabled(s, step) && IsLoopStep(step)
  {
    match step
    case Receive(BadJob) => Some(Reply)
    case Receive(IdleJob(job)) => Some(Ack(job, false))
    case Receive(SetTarget(target)) => Some(Retarget(target))
    case Receive(Other) => Some(Reply)
    case Act => (match s.main.next
      case Dispatching(spec) => Some(Dispatch(spec))
      case Preempting(job) => Some(PreemptOk(job))
      case ShuttingDown => Some(ShutdownOk)
      case Ending => None)
    case Acknowledge => Some(Ack(s.main.job, true))
    case _ => None
  }

  lemma LoopStep(s: State, step: Step)
    requires Enabled(s, step) && IsLoopStep(step)
    ensures var s', e := Apply(s, step), LoopSays(s, step);
      && s'.log == Grown(s.log, e) && s'.wrapped == s.wrapped
      && (if e.Some? && e.value.Dispatch?
          then s'.live == s.live[s.handle + 1 := Worker(e.value.spec, e.value.spec.start, Head)]
          else s'.live == s.live)
      && s'.target == (match e case Some(Dispatch(spec)) => spec.target case Some(Retarget(t)) => t case _ => s.target)
      && (e.Some? ==> !IsShare(e.value) && !e.value.Found?)
  {
    hide SolverStep, Able;
    if step.Receive? { hide Do; } else { hide Handle, Stop; }
  }

  /** When a solver is running after a loop step, one was running before or was just dispatched. */
  lemma LoopRuns(s: State, step: Step)
    requires Threads(s) && Enabled(s, step) && IsLoopStep(step)
    ensures var s', e := Apply(s, step), LoopSays(s, step);
      && (s'.running ==> e.None? || (!e.value.PreemptOk? && !e.value.ShutdownOk?))
      && (s'.running ==> s.running || (e.Some? && e.value.Dispatch?))
      && (s'.main.Acking? ==> e.Some? && e.value.Dispatch? && e.value.spec.job == s'.main.job)
  {
    hide SolverStep, Able;
    if step.Receive? { hide Do; } else { hide Handle, Stop; }
  }

  predicate IsShare(e: Event) { e.Solution? || e.Witness? }

  lemma SaysLabelled(log: seq<Event>, w: Worker, step: Step, target: nat)
    requires Able(w, step) && WorkerLabelled(log, w) && Says(w, step, target).Some?
    ensures Labelled(log, Says(w, step, target).value)
  {
    hide InForce, LastSolution;
  }

  lemma WorkerLabelStep(log: seq<Event>, w: Worker, step: Step, abort: bool, target: nat)
    requires Able(w, step) && WorkerLabelled(log, w) && AllLabelled(log)
    ensures var log' := Grown(log, Says(w, step, target));
      && AllLabelled(log') && InForce(log') == InForce(log)
      && (Moved(w, step, abort, target).Some? ==> WorkerLabelled(log', Moved(w, step, abort, target).value))
  {
    if Says(w, step, target).Some? {
      SaysLabelled(log, w, step, target);
      LabelSnoc(log, Says(w, step, target).value);
    }
    hide InForce, LastSolution, AllLabelled, Labelled, IsBlock, Onward;
  }

  lemma LabelSolver(s: State, step: Step)
    requires Threads(s) && LabelsFit(s) && Enabled(s, step) && !IsLoopStep(step)
    ensures LabelsFit(Apply(s, step))
  {
    WorkerLabelStep(s.log, s.live[step.t], step, s.abort, s.target);
    hide InForce, LastSolution, AllLabelled, Labelled, IsBlock, Moved, Says, WorkerLabelled, Grown, Able;
  }

  lemma LoopLabelled(s: State, step: Step)
    requires LabelsFit(s) && Enabled(s, step) && IsLoopStep(step) && LoopSays(s, step).Some?
    ensures Labelled(s.log, LoopSays(s, step).value)
  {
    hide InForce, AllLabelled;
  }

  lemma LabelLoop(s: State, step: Step)
    requires Threads(s) && LabelsFit(s) && Enabled(s, step) && IsLoopStep(step)
    ensures LabelsFit(Apply(s, step))
  {
    LoopStep(s, step);
    LoopRuns(s, step);
    var s', e := Apply(s, step), LoopSays(s, step);
    if e.Some? {
      LoopLabelled(s, step);
      LabelSnoc(s.log, e.value);
    }
    hide Apply, LoopSays, Enabled, InForce, LastSolution, AllLabelled, Labelled;
  }

  lemma LabelStep(s: State, step: Step)
    requires Threads(s) && LabelsFit(s) && Enabled(s, step)
    ensures LabelsFit(Apply(s, step))
  {
    hide *;
    if IsLoopStep(step) { LabelLoop(s, step); } else { LabelSolver(s, step); }
  }

  // ---------------------------------------------------------------- what a share was measured against

  /** The share target in force. */
  function TargetOf(log: seq<Event>): nat {
    if log == [] then 0 else
      match log[|log| - 1]
      case Dispatch(spec) => spec.target
      case Retarget(target) => target
      case _ => TargetOf(log[..|log| - 1])
  }

  predicate FoundIn(log: seq<Event>, job: nat, nonce: Word, digest: nat) { Found(job, nonce, digest) in log }

  /** The share was found, and later re-checked against the target then in force, which it meets. */
  predicate Met(log: seq<Event>, job: nat, nonce: Word, digest: nat) {
    exists r :: 0 <= r < |log| && MetAt(log, r, job, nonce, digest)
  }

  predicate MetAt(log: seq<Event>, r: nat, job: nat, nonce: Word, digest: nat)
    requires r < |log|
  {
    log[r] == Recheck(job, nonce, digest, TargetOf(log[..r])) && digest <= TargetOf(log[..r]) &&
    FoundIn(log[..r], job, nonce, digest)
  }

  predicate Measured(log: seq<Event>, e: Event) { e.Solution? ==> Met(log, e.job, e.nonce, e.digest) }

  predicate AllMeasured(log: seq<Event>) { forall i :: 0 <= i < |log| ==> Measured(log[..i], log[i]) }

  predicate MeasuresFit(s: State) {
    && AllMeasured(s.log)
    && s.target == TargetOf(s.log)
    && (forall t :: t in s.live ==> WorkerMeasured(s.log, s.live[t]))
  }

  /** A share being held was found; one that passed met the target. */
  predicate WorkerMeasured(log: seq<Event>, w: Worker) {
    && (w.phase.Holding? ==> FoundIn(log, w.spec.job, w.phase.nonce, w.phase.digest))
    && (w.phase.Passed? ==> Met(log, w.spec.job, w.phase.nonce, w.phase.digest))
  }

  lemma WorkerStays(log: seq<Event>, e: Event, w: Worker)
    requires WorkerMeasured(log, w)
    ensures WorkerMeasured(log + [e], w)
  {
    if w.phase.Holding? || w.phase.Passed? { MetStays(log, e, w.spec.job, w.phase.nonce, w.phase.digest); }
  }

  lemma MetStays(log: seq<Event>, e: Event, job: nat, nonce: Word, digest: nat)
    ensures Met(log, job, nonce, digest) ==> Met(log + [e], job, nonce, digest)
    ensures FoundIn(log, job, nonce, digest) ==> FoundIn(log + [e], job, nonce, digest)
    ensures FoundIn(log, job, nonce, digest) && e == Recheck(job, nonce, digest, TargetOf(log)) && digest <= TargetOf(log) ==>
      Met(log + [e], job, nonce, digest)
  {
    var next := log + [e];
    if Met(log, job, nonce, digest) {
      var r :| 0 <= r < |log| && MetAt(log, r, job, nonce, digest);
      assert next[..r] == log[..r];
      assert MetAt(next, r, job, nonce, digest);
    }
    assert next[..|log|] == log;
    assert next[|log|] == e;
    if FoundIn(log, job, nonce, digest) && e == Recheck(job, nonce, digest, TargetOf(log)) && digest <= TargetOf(log) {
      assert MetAt(next, |log|, job, nonce, digest);
    }
  }

  lemma MeasureSnoc(log: seq<Event>, e: Event)
    requires AllMeasured(log) && Measured(log, e)
    ensures AllMeasured(log + [e])
    ensures TargetOf(log + [e]) ==
      (match e case Dispatch(spec) => spec.target case Retarget(target) => target case _ => TargetOf(log))
    ensures e.Found? ==> FoundIn(log + [e], e.job, e.nonce, e.digest)
  {
    var next := log + [e];
    assert next[..|log|] == log && next[|log|] == e;
    forall i | 0 <= i < |next| ensures Measured(next[..i], next[i]) {
      assert next[..i] == log[..i] || i == |log|;
    }
  }

  lemma HeadMeasured(log: seq<Event>, w: Worker)
    requires w.phase.Head?
    ensures WorkerMeasured(log, w)
  {
  }

  lemma MeasureLoop(s: State, step: Step)
    requires MeasuresFit(s) && Enabled(s, step) && IsLoopStep(step)
    ensures MeasuresFit(Apply(s, step))
  {
    LoopStep(s, step);
    var s', e := Apply(s, step), LoopSays(s, step);
    hide Apply, LoopSays, Enabled, TargetOf, FoundIn, Met, AllMeasured, WorkerMeasured, MetAt;
    if e.Some? { MeasureSnoc(s.log, e.value); }
    forall t | t in s'.live ensures WorkerMeasured(s'.log, s'.live[t]) {
      if s'.live[t].phase.Head? {
        HeadMeasured(s'.log, s'.live[t]);
      } else if e.Some? {
        WorkerStays(s.log, e.value, s.live[t]);
      }
    }
  }

  lemma WorkerMeasureStep(log: seq<Event>, w: Worker, step: Step, abort: bool)
    requires Able(w, step) && WorkerMeasured(log, w) && AllMeasured(log)
    ensures var target := TargetOf(log);
      var log' := Grown(log, Says(w, step, target));
      && AllMeasured(log') && TargetOf(log') == target
      && (Moved(w, step, abort, target).Some? ==> WorkerMeasured(log', Moved(w, step, abort, target).value))
  {
    var target := TargetOf(log);
    var e := Says(w, step, target);
    if e.Some? {
      SaysMeasured(log, w, step, target);
      MeasureSnoc(log, e.value);
      WorkerStays(log, e.value, w);
      if step.Check? { MetStays(log, e.value, w.spec.job, w.phase.nonce, w.phase.digest); }
    }
    MovedMeasured(Grown(log, e), w, step, abort, target);
    hide TargetOf, FoundIn, Met, AllMeasured, IsBlock, MetAt, Measured, Moved, WorkerMeasured;
  }

  /** The thread after its step, once the log has what the step says. */
  lemma MovedMeasured(log: seq<Event>, w: Worker, step: Step, abort: bool, target: nat)
    requires Able(w, step) && WorkerMeasured(log, w)
    requires step.Find? ==> FoundIn(log, w.spec.job, step.nonce, step.digest)
    requires step.Check? && w.phase.digest <= target ==> Met(log, w.spec.job, w.phase.nonce, w.phase.digest)
    ensures Moved(w, step, abort, target).Some? ==> WorkerMeasured(log, Moved(w, step, abort, target).value)
  {
    hide FoundIn, Met, IsBlock, Onward;
  }

  lemma SaysMeasured(log: seq<Event>, w: Worker, step: Step, target: nat)
    requires Able(w, step) && WorkerMeasured(log, w) && Says(w, step, target).Some?
    ensures Measured(log, Says(w, step, target).value)
  {
    hide FoundIn, Met, IsBlock;
  }

  lemma MeasureSolver(s: State, step: Step)
    requires Threads(s) && MeasuresFit(s) && Enabled(s, step) && !IsLoopStep(step)
    ensures MeasuresFit(Apply(s, step))
  {
    WorkerMeasureStep(s.log, s.live[step.t], step, s.abort);
    hide TargetOf, AllMeasured, IsBlock, Moved, Says, WorkerMeasured, Grown, Able;
  }

  lemma MeasureStep(s: State, step: Step)
    requires Threads(s) && MeasuresFit(s) && Enabled(s, step)
    ensures MeasuresFit(Apply(s, step))
  {
    hide *;
    if IsLoopStep(step) { MeasureLoop(s, step); } else { MeasureSolver(s, step); }
  }

  // ---------------------------------------------------------------- nonces go up

  /** One above the last nonce announced since the last dispatch. */
  function Floor(log: seq<Event>): nat {
    if log == [] then 0 else
      match log[|log| - 1]
      case Dispatch(_) => 0
      case Solution(_, nonce, _, _) => nonce + 1
      case _ => Floor(log[..|log| - 1])
  }

  predicate Ascends(log: seq<Event>, e: Event) {
    e.Solution? && InForce(log).Some? && InForce(log).value.kind.Episode? ==> Floor(log) <= e.nonce
  }

  predicate AllAscend(log: seq<Event>) { forall i :: 0 <= i < |log| ==> Ascends(log[..i], log[i]) }

  predicate AboveFloor(w: Worker, floor: nat) {
    w.spec.kind.Episode? ==>
      match w.phase
      case Announced(nonce, _) => floor <= nonce + 1
      case Holding(nonce, _, again) => floor <= nonce && !again
      case Passed(nonce, _, again) => floor <= nonce && !again
      case _ => floor <= w.cursor
  }

  predicate NoncesFit(s: State) {
    !s.wrapped ==> AllAscend(s.log) && forall t :: t in s.live ==> AboveFloor(s.live[t], Floor(s.log))
  }

  lemma AscendSnoc(log: seq<Event>, e: Event)
    ensures AllAscend(log) && Ascends(log, e) ==> AllAscend(log + [e])
    ensures Floor(log + [e]) ==
      (match e case Dispatch(_) => 0 case Solution(_, nonce, _, _) => nonce + 1 case _ => Floor(log))
  {
    var next := log + [e];
    assert next[..|log|] == log && next[|log|] == e;
    assert forall i :: 0 <= i < |log| ==> next[..i] == log[..i];
  }

  lemma NonceLoop(s: State, step: Step)
    requires NoncesFit(s) && Enabled(s, step) && IsLoopStep(step)
    ensures NoncesFit(Apply(s, step))
  {
    LoopStep(s, step);
    var e := LoopSays(s, step);
    hide Apply, LoopSays, Enabled, Floor, AllAscend, InForce;
    if e.Some? { AscendSnoc(s.log, e.value); }
  }

  lemma WorkerNonceStep(log: seq<Event>, w: Worker, step: Step, abort: bool, target: nat)
    requires Able(w, step) && AboveFloor(w, Floor(log)) && AllAscend(log) && InForce(log) == Some(w.spec)
    ensures var log', next := Grown(log, Says(w, step, target)), Moved(w, step, abort, target);
      && AllAscend(log')
      && (next.Some? && !(next.value.phase.Head? && next.value.cursor == 0) ==> AboveFloor(next.value, Floor(log')))
  {
    var e := Says(w, step, target);
    if e.Some? { AscendSnoc(log, e.value); }
    hide Floor, AllAscend, InForce, IsBlock, Onward;
  }

  lemma NonceSolver(s: State, step: Step)
    requires Threads(s) && NoncesFit(s) && Enabled(s, step) && !IsLoopStep(step)
    requires InForce(s.log) == Some(s.live[step.t].spec)
    ensures NoncesFit(Apply(s, step))
  {
    if !s.wrapped { WorkerNonceStep(s.log, s.live[step.t], step, s.abort, s.target); }
    hide Floor, AllAscend, InForce, IsBlock, Moved, Says, AboveFloor, Grown, Able;
  }

  lemma NonceStep(s: State, step: Step)
    requires Threads(s) && LabelsFit(s) && NoncesFit(s) && Enabled(s, step)
    ensures NoncesFit(Apply(s, step))
  {
    if IsLoopStep(step) { NonceLoop(s, step); } else { NonceSolver(s, step); }
    hide Apply, Threads, NoncesFit, InForce, AllLabelled, LastSolution;
  }

  // ---------------------------------------------------------------- nothing found is lost

  /** A share found owes its re-check, a re-check that is met owes the solution, a block-winning solution
      owes the witness. */
  predicate Owing(e: Event) {
    e.Found? || (e.Recheck? && e.digest <= e.bar) || (e.Solution? && e.isBlock)
  }

  predicate Pays(e: Event, f: Event) {
    match e
    case Found(job, nonce, digest) => f.Recheck? && f.job == job && f.nonce == nonce && f.digest == digest
    case Recheck(job, nonce, digest, _) => f.Solution? && f.job == job && f.nonce == nonce && f.digest == digest
    case Solution(job, nonce, digest, _) => f == Witness(job, nonce, digest)
    case _ => true
  }

  ghost predicate Paid(log: seq<Event>, i: nat)
    requires i < |log|
  {
    exists k :: i < k < |log| && Pays(log[i], log[k])
  }

  /** The thread is about to pay. */
  predicate Holds(w: Worker, e: Event) {
    match e
    case Found(job, nonce, digest) => w.spec.job == job && w.phase.Holding? && w.phase.nonce == nonce && w.phase.digest == digest
    case Recheck(job, nonce, digest, _) => w.spec.job == job && w.phase.Passed? && w.phase.nonce == nonce && w.phase.digest == digest
    case Solution(job, nonce, digest, _) => w.spec.job == job && w.phase == Announced(nonce, digest)
    case _ => false
  }

  ghost predicate Covered(s: State, i: nat)
    requires i < |s.log|
  {
    Owing(s.log[i]) ==> Paid(s.log, i) || exists t :: t in s.live && Holds(s.live[t], s.log[i])
  }

  ghost predicate DebtsFit(s: State) { forall i: nat :: i < |s.log| ==> Covered(s, i) }

  lemma PaidStays(log: seq<Event>, e: Event, i: nat)
    requires i < |log|
    ensures Paid(log, i) ==> Paid(log + [e], i)
    ensures Pays(log[i], e) ==> Paid(log + [e], i)
  {
    hide Pays;
    var next := log + [e];
    if Paid(log, i) {
      var k :| i < k < |log| && Pays(log[i], log[k]);
      assert next[k] == log[k];
    }
    assert next[|log|] == e;
  }

  /** What the thread holds it pays with its next step, and what it takes on it then holds. */
  lemma ThreadPays(w: Worker, step: Step, abort: bool, target: nat, e: Event)
    requires Able(w, step) && Owing(e)
    ensures Holds(w, e) ==> Says(w, step, target).Some? && Pays(e, Says(w, step, target).value)
    ensures Says(w, step, target) == Some(e) ==>
      Moved(w, step, abort, target).Some? && Holds(Moved(w, step, abort, target).value, e)
  {
    hide Onward, IsBlock;
  }

  lemma DebtSolver(s: State, step: Step, i: nat)
    requires Threads(s) && DebtsFit(s) && Enabled(s, step) && !IsLoopStep(step) && i < |Apply(s, step).log|
    ensures Covered(Apply(s, step), i)
  {
    var s', w := Apply(s, step), s.live[step.t];
    var e := Says(w, step, s.target);
    hide Says, Moved, Pays, Paid, Holds, Owing, Able;
    if Owing(s'.log[i]) {
      ThreadPays(w, step, s.abort, s.target, s'.log[i]);
      if i < |s.log| {
        assert Covered(s, i) && s'.log[i] == s.log[i];
        if e.Some? { PaidStays(s.log, e.value, i); }
        if !Paid(s.log, i) {
          var t :| t in s.live && Holds(s.live[t], s.log[i]);
          assert t == step.t;
        }
      } else {
        assert e == Some(s'.log[i]);
        assert step.t in s'.live && s'.live[step.t] == Moved(w, step, s.abort, s.target).value;
      }
    }
  }

  lemma DebtLoop(s: State, step: Step, i: nat)
    requires Threads(s) && DebtsFit(s) && Enabled(s, step) && IsLoopStep(step) && i < |Apply(s, step).log|
    ensures Covered(Apply(s, step), i)
  {
    LoopStep(s, step);
    var s', e := Apply(s, step), LoopSays(s, step);
    if e.Some? { LoopFresh(s, step); }
    hide Apply, LoopSays, Pays, Paid, Holds, Enabled, Owing;
    if i < |s.log| {
      assert Covered(s, i);
      if e.Some? { PaidStays(s.log, e.value, i); }
    }
  }

  /** A loop step says nothing that is owed for, and a dispatch finds no thread alive. */
  lemma LoopFresh(s: State, step: Step)
    requires Threads(s) && Enabled(s, step) && IsLoopStep(step) && LoopSays(s, step).Some?
    ensures !Owing(LoopSays(s, step).value)
    ensures LoopSays(s, step).value.Dispatch? ==> s.live == map[]
  {
  }

  lemma DebtStep(s: State, step: Step)
    requires Threads(s) && DebtsFit(s) && Enabled(s, step)
    ensures DebtsFit(Apply(s, step))
  {
    hide *;
    forall i: nat | i < |Apply(s, step).log| ensures Covered(Apply(s, step), i) {
      if IsLoopStep(step) { DebtLoop(s, step, i); } else { DebtSolver(s, step, i); }
    }
    DebtsAre(Apply(s, step));
  }

  lemma DebtsAre(s: State)
    requires forall i: nat | i < |s.log| :: Covered(s, i)
    ensures DebtsFit(s)
  {
  }

  // ---------------------------------------------------------------- every run

  predicate Safe(s: State) { Threads(s) && LabelsFit(s) && MeasuresFit(s) && NoncesFit(s) }

  lemma {:induction false} RunIsSafe(trace: seq<Step>)
    requires IsRun(trace)
    ensures Safe(Final(trace))
  {
    if trace != [] {
      var front, step := trace[..|trace| - 1], trace[|trace| - 1];
      RunIsSafe(front);
      ThreadsStep(Final(front), step);
      LabelStep(Final(front), step);
      MeasureStep(Final(front), step);
      NonceStep(Final(front), step);
      hide Threads, LabelsFit, MeasuresFit, NoncesFit, Apply;
    }
  }

  lemma {:induction false} DebtsCovered(trace: seq<Step>)
    requires IsRun(trace)
    ensures DebtsFit(Final(trace))
  {
    if trace != [] {
      var front, step := trace[..|trace| - 1], trace[|trace| - 1];
      DebtsCovered(front);
      RunIsSafe(front);
      DebtStep(Final(front), step);
      hide Threads, LabelsFit, MeasuresFit, NoncesFit, Apply, DebtsFit;
    }
  }

  /** Nothing found is lost: in every run a share found has been re-checked, one that met its bar announced,
      and a block-winning one witnessed, unless a live thread is just about to. Once no thread holds a
      share nothing is owed. */
  lemma NothingFoundIsLost(trace: seq<Step>, i: nat)
    requires IsRun(trace) && i < |Final(trace).log| && Owing(Final(trace).log[i])
    ensures Paid(Final(trace).log, i) || exists t :: t in Final(trace).live && Holds(Final(trace).live[t], Final(trace).log[i])
    ensures Final(trace).live == map[] ==> Paid(Final(trace).log, i)
  {
    DebtsCovered(trace);
    assert Covered(Final(trace), i);
    hide IsRun, Final, Holds, Paid;
  }

  /** At most one solver thread is ever live. */
  lemma OneSolver(trace: seq<Step>)
    requires IsRun(trace)
    ensures |Final(trace).live| <= 1
  {
    RunIsSafe(trace);
    var s := Final(trace);
    assert s.live.Keys <= {s.handle};
    SubsetSize(s.live.Keys, {s.handle});
  }

  lemma {:induction false} SubsetSize(a: set<nat>, b: set<nat>)
    requires a <= b
    ensures |a| <= |b|
    decreases b
  {
    if x :| x in a { SubsetSize(a - {x}, b - {x}); }
  }

  lemma LabelledAt(trace: seq<Step>, i: nat)
    requires IsRun(trace) && i < |Final(trace).log|
    ensures Labelled(Final(trace).log[..i], Final(trace).log[i])
  {
    RunIsSafe(trace);
    hide IsRun, Final, Labelled, Threads, MeasuresFit, NoncesFit;
  }

  predicate DispatchBetween(log: seq<Event>, i: nat, j: nat) { exists k :: i < k < j && k < |log| && log[k].Dispatch? }

  lemma {:induction false} InForceSince(log: seq<Event>, i: nat, j: nat)
    requires i < j <= |log| && !DispatchBetween(log, i, j)
    ensures InForce(log[..j]) == InForce(log[..i + 1]) || InForce(log[..j]) == None
    decreases j
  {
    if j > i + 1 {
      assert log[..j][..j - 1] == log[..j - 1];
      InForceSince(log, i, j - 1);
    }
  }

  /** After a dispatching acknowledgement for a job, every solution and witness carries that job until
      another is dispatched. */
  lemma AcknowledgedJobOnly(trace: seq<Step>, i: nat, j: nat)
    requires IsRun(trace)
    requires var log := Final(trace).log;
      i < j < |log| && log[i].Ack? && log[i].dispatched && IsShare(log[j]) && !DispatchBetween(log, i, j)
    ensures Final(trace).log[j].job == Final(trace).log[i].job
  {
    LabelledAt(trace, i);
    LabelledAt(trace, j);
    var log := Final(trace).log;
    hide IsRun, Final, DispatchBetween;
    InForceSince(log, i, j);
    assert log[..i + 1][..i] == log[..i];
  }

  /** After a preempt or a shutdown is acknowledged nothing comes out until a new dispatch. */
  lemma SilentOnceStopped(trace: seq<Step>, i: nat, j: nat)
    requires IsRun(trace)
    requires var log := Final(trace).log;
      i < j < |log| && (log[i].PreemptOk? || log[i].ShutdownOk?) && IsShare(log[j])
    ensures DispatchBetween(Final(trace).log, i, j)
  {
    LabelledAt(trace, j);
    var log := Final(trace).log;
    hide IsRun, Final, DispatchBetween;
    assert log[..i + 1][..i] == log[..i];
    if !DispatchBetween(log, i, j) { InForceSince(log, i, j); }
  }

  /** Every share announced met a target that was in force after it was found. */
  lemma AnnouncedSharesMet(trace: seq<Step>, i: nat) returns (f: nat, r: nat)
    requires IsRun(trace)
    requires var log := Final(trace).log; i < |log| && log[i].Solution?
    ensures var log, e := Final(trace).log, Final(trace).log[i];
      && f < r < i && log[f] == Found(e.job, e.nonce, e.digest)
      && log[r] == Recheck(e.job, e.nonce, e.digest, TargetOf(log[..r])) && e.digest <= TargetOf(log[..r])
  {
    RunIsSafe(trace);
    var log := Final(trace).log;
    var e := log[i];
    assert Measured(log[..i], e);
    r :| 0 <= r < i && MetAt(log[..i], r, e.job, e.nonce, e.digest);
    assert log[..i][..r] == log[..r];
    f :| 0 <= f < r && log[..r][f] == Found(e.job, e.nonce, e.digest);
  }

  lemma {:induction false} FloorSince(log: seq<Event>, i: nat, j: nat)
    requires i < j <= |log| && log[i].Solution? && !DispatchBetween(log, i, j)
    requires forall k :: i <= k < j ==> Ascends(log[..k], log[k])
    requires InForce(log[..j]).Some? && InForce(log[..j]).value.kind.Episode?
    ensures log[i].nonce < Floor(log[..j])
    decreases j
  {
    assert log[..j][..j - 1] == log[..j - 1];
    if j > i + 1 {
      FloorSince(log, i, j - 1);
    }
  }

  /** On the episode path the nonces announced for one dispatch strictly increase, unless the nonce
      counter wrapped. */
  lemma NoncesIncrease(trace: seq<Step>, i: nat, j: nat)
    requires IsRun(trace) && !Final(trace).wrapped
    requires var log := Final(trace).log;
      && i < j < |log| && log[i].Solution? && log[j].Solution? && !DispatchBetween(log, i, j)
      && InForce(log[..j]).Some? && InForce(log[..j]).value.kind.Episode?
    ensures Final(trace).log[i].nonce < Final(trace).log[j].nonce
  {
    RunIsSafe(trace);
    var log := Final(trace).log;
    FloorSince(log, i, j);
    assert Ascends(log[..j], log[j]);
  }
}