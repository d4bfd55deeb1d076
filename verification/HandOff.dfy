/** The job hand-off between the stratum reader and the solve loop: a job slot, an abort flag and a
    generation counter, each access one atomic step, interleaved in every possible way. */
module HandOff {
  /** Where each thread stands. */
  datatype Reader = Idle | Announcing | Flagged | Stopping | Stopped
  datatype Solver = Start | Snapped | Loaded | Armed | Solving

  /** Publish, StoreAbort and Bump are the three steps of a notify; AbortAndBump is the coarser grain that
      performs the last two at once. HangUp and AbortOnExit end the reader. The rest is the solve loop. */
  datatype Step =
    | Publish(id: string, clean: bool) | StoreAbort | Bump | AbortAndBump | HangUp | AbortOnExit
    | Snapshot | Load | Arm | Recheck | Leave

  /** The shared state, the two threads, and when each step last happened (0 for never). */
  datatype State = State(
    job: nat, jobId: string, abort: bool, gen: nat, running: bool,
    reader: Reader, announced: nat, completed: nat,
    solver: Solver, seen: nat, mine: nat,
    now: nat, abortedAt: nat, flaggedAt: nat, bumpedAt: nat, snappedAt: nat, loadedAt: nat, armedAt: nat, checkedAt: nat)

  function Init(): State {
    State(0, "", false, 0, true, Idle, 0, 0, Start, 0, 0, 0, 0, 0, 0, 0, 0, 0, 0)
  }

  /** A notify carries new work when it is the first, is marked clean, or names another job. */
  predicate IsNewWork(s: State, id: string, clean: bool) { s.job == 0 || clean || id != s.jobId }

  predicate Enabled(s: State, step: Step) {
    match step
    case Publish(_, _) => s.reader.Idle?
    case StoreAbort => s.reader.Announcing?
    case AbortAndBump => s.reader.Announcing?
    case Bump => s.reader.Flagged?
    case HangUp => s.reader.Idle?
    case AbortOnExit => s.reader.Stopping?
    case Snapshot => s.solver.Start?
    case Load => s.solver.Snapped?
    case Arm => s.solver.Loaded?
    case Recheck => s.solver.Armed?
    case Leave => s.solver.Solving?
  }

  /** Jobs are numbered in the order they are published. */
  function Apply(s0: State, step: Step): State
    requires Enabled(s0, step)
  {
    var t := s0.now + 1;
    var s := s0.(now := t);
    match step
    case Publish(id, clean) =>
      var published := s.(job := s.job + 1, jobId := id);
      if IsNewWork(s0, id, clean) then published.(reader := Announcing, announced := s.job + 1) else published
    case StoreAbort => s.(reader := Flagged, abort := true, abortedAt := t, flaggedAt := t)
    case Bump => s.(reader := Idle, gen := s.gen + 1, bumpedAt := t, completed := s.announced)
    case AbortAndBump =>
      s.(reader := Idle, abort := true, abortedAt := t, flaggedAt := t,
         gen := s.gen + 1, bumpedAt := t, completed := s.announced)
    case HangUp => s.(reader := Stopping, running := false)
    case AbortOnExit => s.(reader := Stopped, abort := true, abortedAt := t)
    case Snapshot => s.(solver := Snapped, seen := s.gen, snappedAt := t)
    case Load => if s.job == 0 then s.(solver := Start, seen := s.gen) else s.(solver := Loaded, mine := s.job, loadedAt := t)
    case Arm => s.(solver := Armed, abort := false, armedAt := t)
    case Recheck =>
      if s.gen != s.seen || !s.running then s.(solver := Start, seen := s.gen)
      else s.(solver := Solving, checkedAt := t)
    case Leave => s.(solver := Start)
  }

  predicate IsRun(trace: seq<Step>)
    decreases |trace|, 0
  {
    trace == [] ||
    (var front, last := trace[..|trace| - 1], trace[|trace| - 1];
     IsRun(front) && Enabled(Final(front), last))
  }

  function Final(trace: seq<Step>): State
    requires IsRun(trace)
    decreases |trace|, 1
  {
    if trace == [] then Init() else Apply(Final(trace[..|trace| - 1]), trace[|trace| - 1])
  }

  /** A solve runs, not told to stop, on a job older than one whose new-work notify has completed. */
  predicate Stale(s: State) { s.solver.Solving? && !s.abort && s.mine < s.completed }

  // ---------------------------------------------------------------- what every run keeps

  predicate Past(t: nat, s: State) { t <= s.now }

  predicate Times(s: State) {
    Past(s.abortedAt, s) && Past(s.bumpedAt, s) && Past(s.snappedAt, s) && Past(s.loadedAt, s) && Past(s.armedAt, s)
    && Past(s.checkedAt, s) && s.flaggedAt <= s.abortedAt
  }

  /** The reader finishes one notify before it starts the next. */
  predicate ReaderKeeps(s: State) {
    && s.announced <= s.job
    && (s.reader.Announcing? || s.reader.Flagged? ==> s.completed < s.announced)
    && (s.reader.Idle? || s.reader.Stopping? || s.reader.Stopped? ==> s.completed == s.announced)
    && (s.completed > 0 && !s.reader.Flagged? ==> 0 < s.flaggedAt <= s.bumpedAt)
    && (s.reader.Flagged? ==> s.bumpedAt < s.flaggedAt)
  }

  /** Since its snapshot the solver has lost no bump, and a job it loaded is older than a completed
      notify only if that notify's bump came after the load. */
  predicate SolverKeeps(s: State) {
    && (s.solver.Snapped? || s.solver.Loaded? || s.solver.Armed? ==>
        s.seen <= s.gen && (s.gen == s.seen ==> s.bumpedAt <= s.snappedAt))
    && (s.solver.Loaded? || s.solver.Armed? || s.solver.Solving? ==>
        s.snappedAt < s.loadedAt && s.mine <= s.job && (s.mine < s.completed ==> s.loadedAt < s.bumpedAt))
    && (s.solver.Armed? || s.solver.Solving? ==>
        s.loadedAt < s.armedAt && (s.abort <==> s.armedAt < s.abortedAt) && s.abortedAt != s.armedAt)
    && (s.solver.Solving? ==>
        s.armedAt < s.checkedAt && (s.bumpedAt <= s.snappedAt || s.checkedAt < s.bumpedAt))
  }

  predicate Keeps(s: State) { Times(s) && ReaderKeeps(s) && SolverKeeps(s) }

  lemma ReaderStep(s: State, step: Step)
    requires Times(s) && ReaderKeeps(s) && Enabled(s, step)
    ensures Times(Apply(s, step)) && ReaderKeeps(Apply(s, step))
  {
  }

  lemma SolverStep(s: State, step: Step)
    requires Keeps(s) && Enabled(s, step)
    ensures SolverKeeps(Apply(s, step))
  {
    hide IsNewWork;
  }

  lemma StepKeeps(s: State, step: Step)
    requires Keeps(s) && Enabled(s, step)
    ensures Keeps(Apply(s, step))
  {
    ReaderStep(s, step);
    SolverStep(s, step);
    hide Times, ReaderKeeps, SolverKeeps, Apply, Enabled;
  }

  lemma {:induction false} RunKeeps(trace: seq<Step>)
    requires IsRun(trace)
    ensures Keeps(Final(trace))
  {
    if trace != [] {
      RunKeeps(trace[..|trace| - 1]);
      StepKeeps(Final(trace[..|trace| - 1]), trace[|trace| - 1]);
    }
  }

  // ---------------------------------------------------------------- the three-step grain

  /** Exactly when a solve goes stale: no abort was stored since it was armed, and the notify that
      overtook it bumped the generation only after the re-check. */
  lemma StaleWindow(trace: seq<Step>)
    requires IsRun(trace)
    ensures var s := Final(trace);
      Stale(s) <==>
        s.solver.Solving? && s.mine < s.completed && s.abortedAt < s.armedAt < s.checkedAt < s.bumpedAt
  {
    RunKeeps(trace);
  }

  predicate StoresAbort(step: Step) { step.StoreAbort? || step.AbortAndBump? || step.AbortOnExit? }

  predicate BumpAt(trace: seq<Step>, t: nat) { 0 < t <= |trace| ==> trace[t - 1].Bump? || trace[t - 1].AbortAndBump? }
  predicate FlagAt(trace: seq<Step>, t: nat) { 0 < t <= |trace| ==> trace[t - 1].StoreAbort? }
  predicate ArmAt(trace: seq<Step>, t: nat) { 0 < t <= |trace| ==> trace[t - 1].Arm? }
  predicate CheckAt(trace: seq<Step>, t: nat) { 0 < t <= |trace| ==> trace[t - 1].Recheck? }
  predicate LastAbortAt(trace: seq<Step>, t: nat) { forall k :: t <= k < |trace| ==> !StoresAbort(trace[k]) }

  /** The time stamps name the steps of the run. */
  predicate Stamped(trace: seq<Step>, s: State) {
    && s.now == |trace| && BumpAt(trace, s.bumpedAt) && ArmAt(trace, s.armedAt)
    && (s.flaggedAt != s.bumpedAt ==> FlagAt(trace, s.flaggedAt))
    && CheckAt(trace, s.checkedAt) && LastAbortAt(trace, s.abortedAt)
  }

  lemma StampsStay(front: seq<Step>, step: Step, t: nat)
    ensures t <= |front| && BumpAt(front, t) ==> BumpAt(front + [step], t)
    ensures t <= |front| && FlagAt(front, t) ==> FlagAt(front + [step], t)
    ensures t <= |front| && ArmAt(front, t) ==> ArmAt(front + [step], t)
    ensures t <= |front| && CheckAt(front, t) ==> CheckAt(front + [step], t)
    ensures LastAbortAt(front, t) && !StoresAbort(step) ==> LastAbortAt(front + [step], t)
  {
  }

  lemma StampNow(front: seq<Step>, step: Step)
    ensures var t, trace := |front| + 1, front + [step];
      && (step.Bump? || step.AbortAndBump? ==> BumpAt(trace, t))
      && (step.StoreAbort? ==> FlagAt(trace, t))
      && (step.Arm? ==> ArmAt(trace, t)) && (step.Recheck? ==> CheckAt(trace, t)) && LastAbortAt(trace, t)
  {
  }

  lemma StampStep(front: seq<Step>, s: State, step: Step)
    requires Keeps(s) && Enabled(s, step) && Stamped(front, s)
    ensures Stamped(front + [step], Apply(s, step))
  {
    StampNow(front, step);
    StampsStay(front, step, s.bumpedAt);
    StampsStay(front, step, s.flaggedAt);
    StampsStay(front, step, s.armedAt);
    StampsStay(front, step, s.checkedAt);
    StampsStay(front, step, s.abortedAt);
    assert |front + [step]| == |front| + 1;
    hide BumpAt, FlagAt, ArmAt, CheckAt, LastAbortAt, SolverKeeps, IsNewWork;
  }

  lemma {:induction false} RunStamped(trace: seq<Step>)
    requires IsRun(trace)
    ensures Stamped(trace, Final(trace))
  {
    if trace != [] {
      var front := trace[..|trace| - 1];
      RunStamped(front);
      RunKeeps(front);
      StampStep(front, Final(front), trace[|trace| - 1]);
      assert front + [trace[|trace| - 1]] == trace;
    }
  }

  /** Steps `a < r < c < b` of a run: an abort store, then the arm that wipes it, the re-check, and only
      then the bump. */
  predicate Overtaken(trace: seq<Step>, a: nat, r: nat, c: nat, b: nat) {
    a < r < c < b < |trace| && trace[a].StoreAbort? && trace[r].Arm? && trace[c].Recheck? && trace[b].Bump?
  }

  /** A stale solve can only arise that way. */
  lemma StaleOnlyWhenOvertaken(trace: seq<Step>) returns (a: nat, r: nat, c: nat, b: nat)
    requires IsRun(trace) && Stale(Final(trace))
    ensures Overtaken(trace, a, r, c, b)
    ensures forall k :: r < k < |trace| ==> !StoresAbort(trace[k])
  {
    RunKeeps(trace);
    RunStamped(trace);
    StaleWindow(trace);
    var s := Final(trace);
    hide Final, IsRun;
    a, r, c, b := s.flaggedAt - 1, s.armedAt - 1, s.checkedAt - 1, s.bumpedAt - 1;
  }

  lemma LoadedRun(front: seq<Step>)
    requires front == [Publish("a", false), StoreAbort, Bump, Snapshot, Load]
    ensures IsRun(front)
    ensures Final(front) == State(1, "a", true, 1, true, Idle, 1, 1, Loaded, 1, 1, 5, 2, 2, 3, 4, 5, 0, 0)
  {
    hide IsRun, Final;
    EmptyRun();
    var r := [];
    RunStep(r, front[0]); r := r + [front[0]];
    RunStep(r, front[1]); r := r + [front[1]];
    RunStep(r, front[2]); r := r + [front[2]];
    RunStep(r, front[3]); r := r + [front[3]];
    RunStep(r, front[4]); r := r + [front[4]];
    assert r == front;
  }

  /** The failure is real: the reader flags the new job before the solver arms and bumps after its
      re-check, and the solver keeps working on the job it loaded. */
  lemma OvertakenRun(trace: seq<Step>)
    requires trace == [Publish("a", false), StoreAbort, Bump, Snapshot, Load]
                    + [Publish("b", true), StoreAbort, Arm, Recheck, Bump]
    ensures IsRun(trace) && Stale(Final(trace)) && Final(trace).reader.Idle?
  {
    hide IsRun, Final;
    var r := [Publish("a", false), StoreAbort, Bump, Snapshot, Load];
    LoadedRun(r);
    RunStep(r, trace[5]); r := r + [trace[5]];
    RunStep(r, trace[6]); r := r + [trace[6]];
    RunStep(r, trace[7]); r := r + [trace[7]];
    RunStep(r, trace[8]); r := r + [trace[8]];
    RunStep(r, trace[9]); r := r + [trace[9]];
    assert r == trace;
  }

  lemma EmptyRun()
    ensures IsRun([]) && Final([]) == Init()
  {
  }

  lemma RunStep(front: seq<Step>, step: Step)
    requires IsRun(front) && Enabled(Final(front), step)
    ensures IsRun(front + [step]) && Final(front + [step]) == Apply(Final(front), step)
  {
    var trace := front + [step];
    assert trace[..|trace| - 1] == front;
  }

  // ---------------------------------------------------------------- the coarser grain

  /** If flagging and bumping were one step, no run would ever leave a stale solve going. */
  lemma AtomicIsSafe(trace: seq<Step>)
    requires IsRun(trace) && forall k :: 0 <= k < |trace| ==> !trace[k].StoreAbort?
    ensures !Stale(Final(trace))
  {
    if Stale(Final(trace)) {
      var a, r, c, b := StaleOnlyWhenOvertaken(trace);
      assert false;
    }
  }

  // ---------------------------------------------------------------- the methods the steps belong to

  /** The steps of one notify, when nothing comes between them. */
  function NotifySteps(s: State, id: string, clean: bool): seq<Step> {
    if IsNewWork(s, id, clean) then [Publish(id, clean), StoreAbort, Bump] else [Publish(id, clean)]
  }

  /** What the three steps of a notify do to the shared state. */
  lemma NotifyEffect(s: State, id: string, clean: bool)
    requires s.reader.Idle?
    ensures Enabled(s, Publish(id, clean))
    ensures var p := Apply(s, Publish(id, clean));
      && SharedAre(p, s.job + 1, id, s.abort, s.gen, s.running, s.seen)
      && (if IsNewWork(s, id, clean) then p.reader.Announcing? && p.announced == p.job else p.reader.Idle?)
  {
    hide IsNewWork;
  }

  lemma FlagEffect(s: State)
    requires s.reader.Announcing?
    ensures Enabled(s, StoreAbort)
    ensures var f := Apply(s, StoreAbort);
      && SharedAre(f, s.job, s.jobId, true, s.gen, s.running, s.seen) && f.announced == s.announced
      && Enabled(f, Bump)
      && var b := Apply(f, Bump);
         SharedAre(b, s.job, s.jobId, true, s.gen + 1, s.running, s.seen) && b.completed == s.announced && b.reader.Idle?
  {
  }

  predicate SharedAre(s: State, job: nat, jobId: string, abort: bool, gen: nat, running: bool, seen: nat) {
    s.job == job && s.jobId == jobId && s.abort == abort && s.gen == gen && s.running == running && s.seen == seen
  }

  lemma NewWorkIs(s: State, id: string, clean: bool)
    ensures IsNewWork(s, id, clean) <==> s.job == 0 || clean || id != s.jobId
  {
  }

  /** The fields the two threads share, next to the run they have been through. */
  class Client {
    var job: nat
    var jobId: string
    var abort: bool
    var gen: nat
    var running: bool
    var seen: nat        // the solve loop's last generation
    ghost var trace: seq<Step>

    ghost predicate Valid()
      reads this
    {
      IsRun(trace) && Shows(Final(trace))
    }

    ghost predicate Shows(s: State)
      reads this
    {
      job == s.job && jobId == s.jobId && abort == s.abort && gen == s.gen && running == s.running && seen == s.seen
    }

    constructor ()
      ensures Valid() && trace == []
    {
      job, jobId, abort, gen, running, seen, trace := 0, "", false, 0, true, 0, [];
    }

    ghost method Took(step: Step)
      requires IsRun(trace) && Enabled(Final(trace), step)
      modifies this`trace
      ensures IsRun(trace) && trace == old(trace) + [step] && Final(trace) == Apply(Final(old(trace)), step)
    {
      RunStep(trace, step);
      trace := trace + [step];
    }

    /** `HandleNotify`: publish, and for new work flag and bump. */
    method HandleNotify(id: string, clean: bool) returns (newWork: bool)
      requires Valid() && Final(trace).reader.Idle?
      modifies this`job, this`jobId, this`abort, this`gen, this`trace
      ensures Valid() && Final(trace).reader.Idle?
      ensures newWork <==> old(job) == 0 || clean || id != old(jobId)
      ensures job == old(job) + 1 && jobId == id && (!newWork ==> abort == old(abort) && gen == old(gen))
      ensures trace == old(trace) + NotifySteps(Final(old(trace)), id, clean)
      ensures newWork ==> abort && gen == old(gen) + 1 && Final(trace).completed == job
    {
      hide IsRun, Final, IsNewWork, Apply, Enabled;
      newWork := job == 0 || clean || id != jobId;
      NewWorkIs(Final(trace), id, clean);
      NotifyEffect(Final(trace), id, clean);
      job, jobId := job + 1, id;
      Took(Publish(id, clean));
      if newWork {
        FlagEffect(Final(trace));
        abort := true;
        Took(StoreAbort);
        gen := gen + 1;
        Took(Bump);
      }
    }

    /** `WaitForNewJob` with no time to wait: has the generation moved, or the connection ended? */
    method Probe() returns (signaled: bool)
      modifies this`seen
      ensures signaled <==> gen != old(seen) || !running
      ensures seen == gen
    {
      signaled := gen != seen || !running;
      seen := gen;
    }

    /** Probe, then `GetJob`: the version in the slot, 0 when there is none. */
    method ReadJob() returns (version: nat)
      requires Valid() && Final(trace).solver.Start?
      modifies this`seen, this`trace
      ensures Valid() && trace == old(trace) + [Snapshot, Load] && version == job && seen == gen
      ensures if version == 0 then Final(trace).solver.Start? else Final(trace).solver.Loaded? && Final(trace).mine == version
    {
      hide IsRun, Final, IsNewWork;
      var _ := Probe();
      Took(Snapshot);
      version := job;
      Took(Load);
    }

    /** Arm, then probe again: true commits to the job read. */
    method ArmAndCheck() returns (taken: bool)
      requires Valid() && Final(trace).solver.Loaded?
      modifies this`abort, this`seen, this`trace
      ensures Valid() && trace == old(trace) + [Arm, Recheck] && !abort
      ensures taken <==> gen == old(seen) && running
      ensures if taken then Final(trace).solver.Solving? && Final(trace).mine == Final(old(trace)).mine
        else Final(trace).solver.Start?
    {
      hide IsRun, Final, IsNewWork;
      abort := false;
      Took(Arm);
      var signaled := Probe();
      Took(Recheck);
      taken := !signaled;
    }

    /** The solve loop's job pick-up. When it commits to a job with nothing in between, that job is the
        newest and the flag is clear. */
    method PickUp() returns (taken: bool, version: nat)
      requires Valid() && Final(trace).solver.Start?
      modifies this`abort, this`seen, this`trace
      ensures Valid() && (taken <==> old(job) > 0 && running)
      ensures taken ==> version == job && !abort && Final(trace).solver.Solving? && Final(trace).mine == version
      ensures taken ==> trace == old(trace) + [Snapshot, Load] + [Arm, Recheck] && !Stale(Final(trace))
      ensures !taken ==> Final(trace).solver.Start?
    {
      hide IsRun, Final, Apply, Enabled;
      version := ReadJob();
      if version == 0 { return false, version; }
      taken := ArmAndCheck();
      CompletedWasPublished(trace);
    }
  }

  lemma CompletedWasPublished(trace: seq<Step>)
    requires IsRun(trace)
    ensures Final(trace).completed <= Final(trace).job
  {
    RunKeeps(trace);
    hide IsRun, Final;
  }
}
