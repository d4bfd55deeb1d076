/** The pool loop: job pick-up, the share sink, the nonce cursor and the duplicate filter, across jobs,
    reconnects and restarts. `State` and the functions on it say what each step does; the methods of
    `Session` are proved to do it. */
module PoolLoop {
  import opened Bits
  import opened Cursor
  import opened PoolHistory
  import opened Solver
  import opened Wrappers

  const NO_RANGE: Word := LAST_NONCE   // the cursor's range right after a connect

  datatype Job = Job(start: Word, bits: nat, height: int)

  /** Login pools confine each connection to a nonce lane of `2^bits`. */
  predicate InLane(job: Job) { 0 < job.bits < 64 }

  /** The cursor and its range, the duplicate filter and its block, the cursor table in memory and on disk,
      and the history. */
  datatype State = State(cursor: Word, range: Word, keys: set<(nat, nat)>, block: int,
                         table: seq<Entry>, saved: seq<Entry>, log: seq<Event>)

  function Start(loaded: seq<Entry>): State { State(0, NO_RANGE, {}, -1, loaded, loaded, []) }

  function Wrap(x: nat): Word { x % TOP }

  /** A cursor that walked out of its lane comes back into it, its offset reduced modulo the lane's size. */
  function Laned(job: Job, cursor: Word): (r: Word)
    ensures if InLane(job) then (r - job.start) % TOP < Pow2(job.bits) else r == cursor
  {
    if !InLane(job) then cursor else
      var offset, lane := (cursor - job.start) % TOP, Pow2(job.bits);
      if offset < lane then cursor else
        OffsetBack(job.start, offset % lane);
        Wrap(job.start + offset % lane)
  }

  lemma OffsetBack(start: Word, offset: nat)
    requires offset < TOP
    ensures (Wrap(start + offset) - start) % TOP == offset
  {
  }

  // ---------------------------------------------------------------- the steps

  function Logged(s: State, e: Event): State { s.(log := s.log + [e]) }

  /** A fresh connection: the cursor is forgotten, the table and the filter are not. */
  function Connected(s: State): State { s.(cursor := 0, range := NO_RANGE) }

  /** A kill and a new start: only the saved table is left. */
  function Rebooted(s: State): State {
    Logged(s, Restarted).(cursor := 0, range := NO_RANGE, keys := {}, block := -1, table := s.saved)
  }

  /** Job pick-up: a lane job restarts its lane, a new range resumes from the table, the same range goes on. */
  function Picked(s: State, job: Job): State {
    if InLane(job) then s.(range := job.start, cursor := job.start)
    else if job.start != s.range then s.(range := job.start, cursor := Resumed(s.table, job.start))
    else s
  }

  /** The cursor recorded in the table, which may be saved; the range that had to make room is dropped. */
  function Recording(s: State, save: bool): State {
    var table := Recorded(s.table, s.range, s.cursor);
    s.(table := table, saved := if save then table else s.saved, log := AfterRecord(s.log, s.table, s.range))
  }

  predicate Knows(s: State, height: int, hit: Hit) { s.block == height && (hit.nonce, hit.ntime) in s.keys }

  /** The share put forward: in the filter, which a new block height empties first, and in the history. */
  function Claimed(s: State, height: int, hit: Hit): State {
    Logged(s, Attempt(s.range, height, hit.nonce, hit.ntime, !hit.fate.Failed?))
      .(keys := (if height == s.block then s.keys else {}) + {(hit.nonce as nat, hit.ntime)}, block := height)
  }

  function Refusing(s: State, height: int, hit: Hit): State {
    Logged(s, Refused(s.range, height, hit.nonce, hit.ntime))
  }

  function Past(s: State, nonce: Word): State { s.(cursor := Max(s.cursor, Wrap(nonce + 1))) }

  /** Whether the solve goes on, its inner loop ends on a failed send, or the process is gone. */
  datatype Going = On | Broken | Dead

  datatype Result = Result(s: State, going: Going)

  /** The share sink on one share. */
  function Sunk(s: State, job: Job, hit: Hit): Result {
    if hit.superseded then Result(Past(s, hit.nonce), On)
    else if Knows(s, job.height, hit) then Result(Past(Refusing(s, job.height, hit), hit.nonce), On)
    else
      var c := Claimed(s, job.height, hit);
      match hit.fate
      case Failed => Result(c, Broken)
      case Sent => Result(Recording(Past(c, hit.nonce), true), On)
      case SentThenKilled => Result(Rebooted(c), Dead)
  }

  /** The shares of a solve, in order, until one ends it. */
  function SunkAll(s: State, job: Job, hits: seq<Hit>): Result
    decreases |hits|
  {
    if hits == [] then Result(s, On) else
      var r := Sunk(s, job, hits[0]);
      if r.going.On? then SunkAll(r.s, job, hits[1..]) else r
  }

  /** The share a solve returned with: dropped when superseded or already submitted, else put forward. */
  function Submitted(s: State, job: Job, winner: Hit, scanned: Word): Result {
    var past := Wrap(winner.nonce + 1);
    if winner.superseded then Result(s.(cursor := past), On)
    else if Knows(s, job.height, winner) then Result(Refusing(s, job.height, winner).(cursor := past), On)
    else
      var c := Claimed(s, job.height, winner);
      match winner.fate
      case Failed => Result(c, Broken)
      case Sent => Result(Recording(c.(cursor := Laned(job, Max(Max(past, s.cursor), scanned))), true), On)
      case SentThenKilled => Result(Rebooted(c), Dead)
  }

  function Ended(s: State, job: Job, outcome: Outcome, scanned: Word): Result {
    match outcome
    case Exhausted => Result(s.(cursor := Max(s.cursor, scanned)), On)
    case Returned(winner) => Submitted(s, job, winner, scanned)
  }

  function Begun(s: State, save: bool): State { Logged(Recording(s, save), Scan(s.range, s.cursor)) }

  /** One solve of the inner loop: the scan starts at the cursor, sinks its shares in order, and ends with
      a winner to submit or with the cursor moved past what was scanned. */
  function Passed(s: State, job: Job, p: Pass, save: bool): Result {
    var r := SunkAll(Begun(s, save), job, p.hits);
    if r.going.On? then Ended(r.s, job, p.outcome, Wrap(s.cursor + p.attempted)) else r
  }

  // ---------------------------------------------------------------- the session

  class Session {
    var cursor: Word
    var curRange: Word
    var submittedKeys: set<(nat, nat)>
    var submittedBlock: int
    var ranges: seq<Entry>
    var saved: seq<Entry>   // the table on disk
    ghost var log: seq<Event>

    ghost function View(): State
      reads this
    {
      State(cursor, curRange, submittedKeys, submittedBlock, ranges, saved, log)
    }

    constructor (loaded: seq<Entry>)
      ensures View() == Start(loaded)
    {
      cursor, curRange, submittedKeys, submittedBlock, ranges, saved := 0, NO_RANGE, {}, -1, loaded, loaded;
      log := [];
    }

    method Connect()
      modifies this
      ensures View() == Connected(old(View()))
    {
      cursor, curRange := 0, NO_RANGE;
    }

    method Restart()
      modifies this
      ensures View() == Rebooted(old(View()))
    {
      log := log + [Restarted];
      cursor, curRange, submittedKeys, submittedBlock, ranges := 0, NO_RANGE, {}, -1, saved;
    }

    method PickJob(job: Job)
      modifies this
      ensures View() == Picked(old(View()), job)
    {
      if InLane(job) {
        curRange, cursor := job.start, job.start;
      } else if job.start != curRange {
        curRange := job.start;
        cursor := ResumeCursor(ranges, job.start);
      }
    }

    method RecordHere(save: bool)
      modifies this
      ensures View() == Recording(old(View()), save)
    {
      log := AfterRecord(log, ranges, curRange);
      ranges := RecordCursor(ranges, curRange, cursor);
      if save { saved := ranges; }
    }

    /** The submit-side filter: a new block height clears it; a known (nonce, ntime) is refused. */
    method Claim(height: int, hit: Hit) returns (isNew: bool)
      modifies this
      ensures isNew <==> !old(Knows(View(), height, hit))
      ensures View() == if isNew then Claimed(old(View()), height, hit) else Refusing(old(View()), height, hit)
    {
      var key: (nat, nat) := (hit.nonce, hit.ntime);
      if height != submittedBlock {
        submittedKeys, submittedBlock := {}, height;
      }
      if key in submittedKeys {
        log := log + [Refused(curRange, height, hit.nonce, hit.ntime)];
        return false;
      }
      submittedKeys := submittedKeys + {key};
      log := log + [Attempt(curRange, height, hit.nonce, hit.ntime, !hit.fate.Failed?)];
      isNew := true;
    }

    /** The share sink: a superseded or already submitted share is dropped, any other is sent and the cursor
        moved past it, recorded and saved. */
    method ShareSink(job: Job, hit: Hit) returns (going: Going)
      modifies this
      ensures Result(View(), going) == Sunk(old(View()), job, hit)
    {
      hide Recorded, AfterRecord, Wrap;
      if hit.superseded {
        cursor := Max(cursor, Wrap(hit.nonce + 1));
        return On;
      }
      var isNew := Claim(job.height, hit);
      if !isNew {
        cursor := Max(cursor, Wrap(hit.nonce + 1));
        return On;
      }
      match hit.fate
      case Failed => return Broken;
      case SentThenKilled =>
        Restart();
        return Dead;
      case Sent =>
        cursor := Max(cursor, Wrap(hit.nonce + 1));
        RecordHere(true);
        going := On;
    }

    method SinkAll(job: Job, hits: seq<Hit>) returns (going: Going)
      modifies this
      ensures Result(View(), going) == SunkAll(old(View()), job, hits)
    {
      hide Sunk;
      going := On;
      for k := 0 to |hits|
        invariant going.On?
        invariant SunkAll(View(), job, hits[k..]) == SunkAll(old(View()), job, hits)
      {
        assert hits[k..][1..] == hits[k + 1..];
        going := ShareSink(job, hits[k]);
        if !going.On? { return; }
      }
    }

    method SubmitWinner(job: Job, winner: Hit, scanned: Word) returns (going: Going)
      modifies this
      ensures Result(View(), going) == Submitted(old(View()), job, winner, scanned)
    {
      hide Recorded, AfterRecord, Wrap, Laned;
      if winner.superseded {
        cursor := Wrap(winner.nonce + 1);
        return On;
      }
      var isNew := Claim(job.height, winner);
      if !isNew {
        cursor := Wrap(winner.nonce + 1);
        return On;
      }
      match winner.fate
      case Failed => return Broken;
      case SentThenKilled =>
        Restart();
        return Dead;
      case Sent =>
        cursor := Max(Max(Wrap(winner.nonce + 1), cursor), scanned);
        cursor := Laned(job, cursor);
        RecordHere(true);
        going := On;
    }

    method ScanPass(job: Job, p: Pass, save: bool) returns (going: Going)
      modifies this
      ensures Result(View(), going) == Passed(old(View()), job, p, save)
    {
      hide Recorded, AfterRecord, Wrap, SunkAll, Submitted;
      RecordHere(save);
      log := log + [Scan(curRange, cursor)];
      var base := cursor;
      going := SinkAll(job, p.hits);
      if !going.On? { return; }
      match p.outcome
      case Exhausted => cursor := Max(cursor, Wrap(base + p.attempted));
      case Returned(winner) => going := SubmitWinner(job, winner, Wrap(base + p.attempted));
    }
  }

  // ---------------------------------------------------------------- whole runs

  datatype Step = Reconnect | Kill | Pick(job: Job) | Solve(p: Pass, save: bool)

  /** The session and the job being worked on, if any. */
  datatype World = World(s: State, job: Option<Job>)

  /** A solve needs a job; a kill, on its own or inside a send, leaves none. */
  function Taken(w: World, step: Step): World {
    match step
    case Reconnect => World(Connected(w.s), None)
    case Kill => World(Rebooted(w.s), None)
    case Pick(job) => World(Picked(w.s, job), Some(job))
    case Solve(p, save) =>
      if w.job.None? then w else
        var r := Passed(w.s, w.job.value, p, save);
        World(r.s, if r.going.Dead? then None else w.job)
  }

  function Play(loaded: seq<Entry>, script: seq<Step>): World {
    if script == [] then World(Start(loaded), None)
    else Taken(Play(loaded, script[..|script| - 1]), script[|script| - 1])
  }

  /** Any run: connections, kills, jobs and solves in any order. The session, history included, ends where
      `Play` says. */
  method Run(loaded: seq<Entry>, script: seq<Step>) returns (s: Session, job: Option<Job>)
    ensures fresh(s) && World(s.View(), job) == Play(loaded, script)
  {
    hide Picked, Passed, Rebooted, Connected;
    s := new Session(loaded);
    job := None;
    for k := 0 to |script|
      invariant fresh(s) && World(s.View(), job) == Play(loaded, script[..k])
    {
      assert script[..k + 1][..k] == script[..k];
      match script[k]
      case Reconnect =>
        s.Connect();
        job := None;
      case Kill =>
        s.Restart();
        job := None;
      case Pick(next) =>
        s.PickJob(next);
        job := Some(next);
      case Solve(p, save) =>
        if job.Some? {
          var going := s.ScanPass(job.value, p, save);
          if going.Dead? { job := None; }
        }
    }
    assert script[..|script|] == script;
  }
}
