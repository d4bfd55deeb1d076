/** The pool loop moves on: where a pass leaves the cursor, and which stretches are scanned again. */
module PoolProgress {
  import opened Bits
  import opened Cursor
  import opened PoolCover
  import opened PoolHistory
  import opened PoolLoop
  import opened PoolTheorems
  import opened Solver
  import opened Wrappers

  // ---------------------------------------------------------------- one pass

  /** One past the highest share handed to the sink; the base when there is none. */
  function HighWater(base: Word, hits: seq<Hit>): (h: Word)
    ensures h >= base
    decreases |hits|
  {
    if hits == [] then base else HighWater(Max(base, Wrap(hits[0].nonce + 1)), hits[1..])
  }

  lemma SunkCursor(s: State, job: Job, hit: Hit)
    ensures var r := Sunk(s, job, hit);
      && (r.going.On? ==> r.s.cursor == Max(s.cursor, Wrap(hit.nonce + 1)))
      && (!r.going.Dead? ==> r.s.range == s.range && r.s.cursor >= s.cursor)
  {
    hide Recorded, AfterRecord, Wrap, Knows;
  }

  lemma {:induction false} SunkAllCursor(s: State, job: Job, hits: seq<Hit>)
    ensures var r := SunkAll(s, job, hits);
      && (r.going.On? ==> r.s.cursor == HighWater(s.cursor, hits))
      && (!r.going.Dead? ==> r.s.range == s.range && r.s.cursor >= s.cursor)
    decreases |hits|
  {
    hide Sunk, Wrap;
    if hits != [] {
      SunkCursor(s, job, hits[0]);
      var r := Sunk(s, job, hits[0]);
      if r.going.On? { SunkAllCursor(r.s, job, hits[1..]); }
    }
  }

  /** The winner of a pass is dropped: superseded, or already submitted when it comes back. */
  predicate DropsWinner(s: State, job: Job, p: Pass, save: bool) {
    p.outcome.Returned? &&
      (p.outcome.winner.superseded || Knows(SunkAll(Begun(s, save), job, p.hits).s, job.height, p.outcome.winner))
  }

  /** Where a pass that runs to its end leaves the cursor: past everything sunk and everything scanned; past
      a dropped winner; past all three, back inside its lane, when the winner was sent. */
  lemma PassCursor(s: State, job: Job, p: Pass, save: bool)
    requires Passed(s, job, p, save).going.On?
    ensures var high, scanned := HighWater(s.cursor, p.hits), Wrap(s.cursor + p.attempted);
      Passed(s, job, p, save).s.cursor ==
        match p.outcome
        case Exhausted => Max(high, scanned)
        case Returned(w) =>
          if DropsWinner(s, job, p, save) then Wrap(w.nonce + 1) else Laned(job, Max(Max(Wrap(w.nonce + 1), high), scanned))
  {
    var b := Begun(s, save);
    BegunSent(s, save);
    SunkAllCursor(b, job, p.hits);
    PassedIs(s, job, p, save);
    hide SunkAll, Begun, Knows, Wrap, Laned, HighWater, Recorded, AfterRecord, SentHere, Passed;
  }

  /** Off lanes, a pass the process survives lowers the cursor if and only if it drops a winner at the last
      nonce while the cursor is above zero. */
  lemma FallsIff(s: State, job: Job, p: Pass, save: bool)
    requires !InLane(job) && Ordered(p, s.cursor) && !Passed(s, job, p, save).going.Dead?
    ensures Passed(s, job, p, save).s.range == s.range
    ensures Passed(s, job, p, save).s.cursor < s.cursor <==> PassDropsLast(s, job, p, save) && s.cursor > 0
  {
    if p.outcome.Returned? { WinnerLast(p, s.cursor); }
    var b := Begun(s, save);
    var sunk := SunkAll(b, job, p.hits);
    PassParts(s, job, p, save);
    hide *;
    PassedSent(s, job, p, save);
    BegunSent(s, save);
    SunkAllCursor(b, job, p.hits);
    PassedIs(s, job, p, save);
    if sunk.going.On? { EndedFallsIff(sunk.s, job, p.outcome, Wrap(s.cursor + p.attempted), s.cursor); }
  }

  lemma EndedFallsIff(s: State, job: Job, outcome: Outcome, scanned: Word, base: Word)
    requires !InLane(job) && base <= s.cursor && (outcome.Returned? ==> base <= outcome.winner.nonce)
    requires !Ended(s, job, outcome, scanned).going.Dead?
    ensures Ended(s, job, outcome, scanned).s.cursor < base <==> DropsLast(s, job, outcome) && base > 0
  {
    if outcome.Returned? { WrapIs(outcome.winner.nonce + 1); }
    hide Knows, Wrap, Recorded, AfterRecord;
  }

  /** How far a pass got: the end of what it scanned, or one past the winner it returned with. */
  function Reached(s: State, p: Pass): nat {
    if p.outcome.Returned? then p.outcome.winner.nonce + 1 else s.cursor + p.attempted
  }

  /** A pass that runs to its end leaves the cursor no lower than it got, short of the last nonce. */
  lemma PassAdvances(s: State, job: Job, p: Pass, save: bool)
    requires !InLane(job) && Passed(s, job, p, save).going.On? && Reached(s, p) <= LAST_NONCE
    ensures Passed(s, job, p, save).s.cursor >= Reached(s, p)
  {
    PassCursor(s, job, p, save);
    WrapIs(Reached(s, p));
    hide Passed, HighWater, Wrap, DropsWinner;
  }

  // ---------------------------------------------------------------- whole runs

  /** A step that keeps the range: a job on it, or a solve the process survives that does not drop a winner
      at the last nonce. */
  predicate StaysOn(w: World, step: Step) {
    match step
    case Pick(job) => !InLane(job) && job.start == w.s.range
    case Solve(p, save) =>
      w.job.Some? ==>
        !InLane(w.job.value) && Ordered(p, w.s.cursor) && !Passed(w.s, w.job.value, p, save).going.Dead? &&
        !PassDropsLast(w.s, w.job.value, p, save)
    case _ => false
  }

  lemma StepKeeps(w: World, step: Step)
    requires StaysOn(w, step)
    ensures Taken(w, step).s.range == w.s.range && Taken(w, step).s.cursor >= w.s.cursor
  {
    match step
    case Pick(_) =>
    case Solve(p, save) =>
      if w.job.Some? { FallsIff(w.s, w.job.value, p, save); }
      hide Passed, PassDropsLast;
  }

  lemma {:induction false} CursorKept(loaded: seq<Entry>, script: seq<Step>, k: nat, m: nat)
    requires k <= m <= |script| && forall j :: k <= j < m ==> StaysOn(Play(loaded, script[..j]), script[j])
    ensures Play(loaded, script[..m]).s.range == Play(loaded, script[..k]).s.range
    ensures Play(loaded, script[..m]).s.cursor >= Play(loaded, script[..k]).s.cursor
    decreases m
  {
    if k < m {
      CursorKept(loaded, script, k, m - 1);
      StepKeeps(Play(loaded, script[..m - 1]), script[m - 1]);
      PlayStep(loaded, script, m - 1);
      hide Play, Taken, StaysOn;
    }
  }

  lemma SolveAdvances(w: World, step: Step, job: Job)
    requires step.Solve? && w.job == Some(job) && !InLane(job) && Reached(w.s, step.p) <= LAST_NONCE
    requires Passed(w.s, job, step.p, step.save).going.On?
    ensures Taken(w, step).s.range == w.s.range && Taken(w, step).s.cursor >= Reached(w.s, step.p)
  {
    PassAdvances(w.s, job, step.p, step.save);
    PassedSent(w.s, job, step.p, step.save);
    hide Passed, Reached, SentOn, PassDelivers;
  }

  /** The loop moves on: after a pass that ran to its end, the next solve of the range in progress starts at
      or above where that pass got. No exhausted stretch is scanned twice. */
  lemma ScansOnward(loaded: seq<Entry>, script: seq<Step>, k: nat, m: nat, job: Job)
    requires k < m < |script| && script[k].Solve?
    requires var s := Play(loaded, script[..k]).s;
      && Play(loaded, script[..k]).job == Some(job) && !InLane(job) && Reached(s, script[k].p) <= LAST_NONCE
      && Passed(s, job, script[k].p, script[k].save).going.On?
    requires forall j :: k < j < m ==> StaysOn(Play(loaded, script[..j]), script[j])
    ensures Play(loaded, script[..m]).s.range == Play(loaded, script[..k]).s.range
    ensures Play(loaded, script[..m]).s.cursor >= Reached(Play(loaded, script[..k]).s, script[k].p)
  {
    hide *;
    SolveAdvances(Play(loaded, script[..k]), script[k], job);
    PlayStep(loaded, script, k);
    CursorKept(loaded, script, k + 1, m);
  }

  // ---------------------------------------------------------------- what is scanned again

  /** What a solve that ends without a share leaves behind: the cursor moves on, the table holds where the
      solve started. */
  lemma EmptyPass(s: State, job: Job, attempted: nat, save: bool)
    ensures var r := Passed(s, job, Pass([], attempted, Exhausted), save);
      && r.going.On? && r.s.range == s.range && r.s.table == Recorded(s.table, s.range, s.cursor)
      && r.s.cursor == Max(s.cursor, Wrap(s.cursor + attempted))
  {
    hide Recorded, AfterRecord, Wrap;
  }

  /** The end of a pass is not recorded before the next one begins. When a job on another range, or a
      reconnect, comes first, the range is resumed where the pass started: at or above its end if and only
      if nothing was scanned or the table was already there. */
  lemma ForgottenIff(s: State, job: Job, other: Job, attempted: nat, save: bool)
    requires IsTable(s.table) && !InLane(job) && !InLane(other) && job.start == s.range != other.start
    requires job.start != NO_RANGE && s.cursor + attempted <= LAST_NONCE
    ensures var after := Passed(s, job, Pass([], attempted, Exhausted), save).s;
      var back, again := Picked(Picked(after, other), job), Picked(Connected(after), job);
      && back.range == again.range == s.range
      && back.cursor == again.cursor == Max(s.cursor, Resumed(s.table, s.range))
      && (back.cursor >= s.cursor + attempted <==> attempted == 0 || Resumed(s.table, s.range) >= s.cursor + attempted)
  {
    EmptyPass(s, job, attempted, save);
    ResumeRecorded(s.table, s.range, s.cursor, s.range);
    hide Passed, Recorded, Resumed, IsTable;
  }

  /** A thousand nonces from 7 on. */
  function Thousand(): Step { Solve(Pass([], 1000, Exhausted), true) }

  /** The state after them. */
  function Scanned(): State {
    Start([]).(range := 7, cursor := 1007, table := [Entry(7, 7)], saved := [Entry(7, 7)], log := [Scan(7, 7)])
  }

  lemma FirstThousand(script: seq<Step>)
    requires |script| >= 2 && script[0] == Pick(Job(7, 0, 1)) && script[1] == Thousand()
    ensures Play([], script[..2]) == World(Scanned(), Some(Job(7, 0, 1)))
  {
    var s1 := Start([]).(range := 7, cursor := 7);
    PlayStep([], script, 0);
    assert Play([], script[..1]) == World(s1, Some(Job(7, 0, 1)));
    assert [] + [Scan(7, 7)] == [Scan(7, 7)];
    hide Play, Passed;
    ScanThousand(s1, Job(7, 0, 1), 0);
    SolveTaken([], script, 1, s1, Job(7, 0, 1), Result(Scanned(), On));
  }

  lemma BackAtSeven(script: seq<Step>)
    requires |script| >= 4 && Play([], script[..2]) == World(Scanned(), Some(Job(7, 0, 1)))
    requires script[2] == Pick(Job(50_000, 0, 1)) && script[3] == Pick(Job(7, 0, 1))
    ensures Play([], script[..4]) == World(Scanned().(cursor := 7), Some(Job(7, 0, 1)))
  {
    ThereAndBack(Scanned(), Scanned().(range := 50_000, cursor := 50_000), Scanned().(cursor := 7),
                 Job(7, 0, 1), Job(50_000, 0, 1));
    PlayStep([], script, 2);
    PlayStep([], script, 3);
    hide Play, Picked;
  }

  /** A thousand nonces scanned, a job on another range, and the same thousand nonces again. */
  lemma ScannedTwice(script: seq<Step>)
    requires script == [Pick(Job(7, 0, 1)), Thousand(), Pick(Job(50_000, 0, 1)), Pick(Job(7, 0, 1)), Thousand()]
    ensures Play([], script).s.log == [Scan(7, 7)] + [Scan(7, 7)] && Play([], script).s.cursor == 1007
  {
    FirstThousand(script);
    BackAtSeven(script);
    var s, job := Scanned().(cursor := 7), Job(7, 0, 1);
    ScanThousand(s, job, 7);
    hide Play, Passed;
    SolveTaken([], script, 4, s, job, Passed(s, job, Pass([], 1000, Exhausted), true));
    assert script[..5] == script;
  }

  lemma ThereAndBack(s2: State, s3: State, s4: State, job: Job, other: Job)
    requires s2.table == [Entry(7, 7)] && s2.range == 7 && job == Job(7, 0, 1) && other == Job(50_000, 0, 1)
    requires s3 == s2.(range := 50_000, cursor := 50_000) && s4 == s2.(cursor := 7)
    ensures Picked(s2, other) == s3 && Picked(s3, job) == s4
  {
    ResumedIs(s2.table, 7);
    ResumedIs(s2.table, 50_000);
  }

  lemma ScanThousand(s: State, job: Job, at: Word)
    requires Single(s, at) && at <= s.cursor == 7
    ensures var t := [Entry(s.range, 7)];
      Passed(s, job, Pass([], 1000, Exhausted), true) ==
        Result(s.(cursor := 1007, table := t, saved := t, log := s.log + [Scan(s.range, 7)]), On)
  {
    BegunSingle(s, at);
    Nothing(Begun(s, true), job);
    WrapIs(1007);
    hide Begun, Wrap;
  }

  // ---------------------------------------------------------------- lanes

  /** The cursor lies in the lane of the job. */
  predicate InItsLane(job: Job, cursor: Word) { (cursor - job.start) % TOP < Pow2(job.bits) }

  /** A lane job starts in its lane. An exhausted pass leaves the cursor there if and only if it did not scan
      past the lane's end. */
  lemma LaneKeptIff(s: State, job: Job, attempted: nat, save: bool)
    requires InLane(job)
    ensures InItsLane(job, Picked(s, job).cursor)
    ensures job.start <= s.cursor && s.cursor + attempted <= LAST_NONCE ==>
      (InItsLane(job, Passed(s, job, Pass([], attempted, Exhausted), save).s.cursor) <==>
        s.cursor + attempted < job.start + Pow2(job.bits))
  {
    EmptyPass(s, job, attempted, save);
    if s.cursor + attempted <= LAST_NONCE { WrapIs(s.cursor + attempted); }
    hide Passed, Pow2, Recorded, AfterRecord, Wrap;
  }

  /** A winner sent brings the cursor back into the lane, wherever it was. */
  lemma LaneRestored(s: State, job: Job, winner: Hit, scanned: Word)
    requires InLane(job) && winner.fate.Sent? && !winner.superseded && !Knows(s, job.height, winner)
    ensures InItsLane(job, Submitted(s, job, winner, scanned).s.cursor)
  {
    hide Wrap, Recorded, AfterRecord, Pow2;
  }
}
