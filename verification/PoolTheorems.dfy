/** What every run of the pool loop keeps: no share goes out twice, solves start above what was sent, and
    exactly when they do not. */
module PoolTheorems {
  import opened Cursor
  import opened PoolHistory
  import opened PoolLoop
  import opened Solver
  import opened Wrappers

  // ---------------------------------------------------------------- the duplicate filter is exact

  /** No pair was put forward twice without a change of height or a restart between, and the filter holds
      exactly the pairs put forward since. */
  ghost predicate Exact(s: State) { AttemptedOnce(s.log) && Remembers(s.log, s.keys, s.block) }

  lemma QuietExact(s: State, e: Event)
    requires Exact(s) && !e.Attempt? && !e.Restarted?
    ensures Exact(Logged(s, e))
  {
    OtherKeeps(s.log, s.keys, s.block, e);
    hide AttemptedOnce, Remembers;
  }

  lemma RecordingExact(s: State, save: bool)
    requires Exact(s)
    ensures Exact(Recording(s, save))
  {
    if Evicted(s.table, s.range) == {} {
      assert s.log + [] == s.log;
    } else {
      QuietExact(s, Dropped(s.table[0].base));
    }
    hide AttemptedOnce, Remembers;
  }

  lemma ClaimedExact(s: State, height: int, hit: Hit)
    requires Exact(s) && !Knows(s, height, hit)
    ensures Exact(Claimed(s, height, hit))
  {
    AttemptKeeps(s.log, s.keys, s.block, Attempt(s.range, height, hit.nonce, hit.ntime, !hit.fate.Failed?));
    hide AttemptedOnce, Remembers;
  }

  lemma RebootedExact(s: State)
    requires Exact(s)
    ensures Exact(Rebooted(s))
  {
    OtherKeeps(s.log, s.keys, s.block, Restarted);
    hide AttemptedOnce, Remembers;
  }

  /** Moving the cursor or the range leaves the filter alone. */
  lemma SameFilter(s: State, t: State)
    requires Exact(s) && t.log == s.log && t.keys == s.keys && t.block == s.block
    ensures Exact(t)
  {
  }

  lemma SunkExact(s: State, job: Job, hit: Hit)
    requires Exact(s)
    ensures Exact(Sunk(s, job, hit).s)
  {
    var r := Sunk(s, job, hit);
    if hit.superseded {
      SameFilter(s, r.s);
    } else if Knows(s, job.height, hit) {
      QuietExact(s, Refused(s.range, job.height, hit.nonce, hit.ntime));
      SameFilter(Refusing(s, job.height, hit), r.s);
    } else {
      ClaimedExact(s, job.height, hit);
      var c := Claimed(s, job.height, hit);
      hide Exact, Claimed, Recording, Rebooted;
      match hit.fate
      case Failed =>
      case Sent =>
        SameFilter(c, Past(c, hit.nonce));
        RecordingExact(Past(c, hit.nonce), true);
      case SentThenKilled => RebootedExact(c);
    }
  }

  lemma {:induction false} SunkAllExact(s: State, job: Job, hits: seq<Hit>)
    requires Exact(s)
    ensures Exact(SunkAll(s, job, hits).s)
    decreases |hits|
  {
    hide Exact, Sunk;
    if hits != [] {
      SunkExact(s, job, hits[0]);
      var r := Sunk(s, job, hits[0]);
      if r.going.On? { SunkAllExact(r.s, job, hits[1..]); }
    }
  }

  lemma SubmittedExact(s: State, job: Job, winner: Hit, scanned: Word)
    requires Exact(s)
    ensures Exact(Submitted(s, job, winner, scanned).s)
  {
    var r := Submitted(s, job, winner, scanned);
    if winner.superseded {
      SameFilter(s, r.s);
    } else if Knows(s, job.height, winner) {
      QuietExact(s, Refused(s.range, job.height, winner.nonce, winner.ntime));
      SameFilter(Refusing(s, job.height, winner), r.s);
    } else {
      ClaimedExact(s, job.height, winner);
      var c := Claimed(s, job.height, winner);
      hide Exact, Claimed, Recording, Rebooted, Laned;
      match winner.fate
      case Failed =>
      case Sent =>
        var moved := c.(cursor := Laned(job, Max(Max(Wrap(winner.nonce + 1), s.cursor), scanned)));
        SameFilter(c, moved);
        RecordingExact(moved, true);
      case SentThenKilled => RebootedExact(c);
    }
  }

  lemma BegunExact(s: State, save: bool)
    requires Exact(s)
    ensures Exact(Begun(s, save))
  {
    RecordingExact(s, save);
    QuietExact(Recording(s, save), Scan(s.range, s.cursor));
    hide Exact, Recording;
  }

  lemma EndedExact(s: State, job: Job, outcome: Outcome, scanned: Word)
    requires Exact(s)
    ensures Exact(Ended(s, job, outcome, scanned).s)
  {
    match outcome
    case Exhausted => SameFilter(s, s.(cursor := Max(s.cursor, scanned)));
    case Returned(winner) => SubmittedExact(s, job, winner, scanned);
  }

  lemma PassedExact(s: State, job: Job, p: Pass, save: bool)
    requires Exact(s)
    ensures Exact(Passed(s, job, p, save).s)
  {
    BegunExact(s, save);
    var b := Begun(s, save);
    SunkAllExact(b, job, p.hits);
    var r := SunkAll(b, job, p.hits);
    hide Exact, SunkAll, Ended, Begun;
    EndedExact(r.s, job, p.outcome, Wrap(s.cursor + p.attempted));
  }

  /** In every run: no (nonce, ntime) pair is put forward twice at one height in one process, and the filter
      knows exactly what was put forward. */
  lemma {:induction false} NothingTwice(loaded: seq<Entry>, script: seq<Step>)
    ensures Exact(Play(loaded, script).s)
  {
    if script == [] {
    } else {
      var w, step := Play(loaded, script[..|script| - 1]), script[|script| - 1];
      NothingTwice(loaded, script[..|script| - 1]);
      match step
      case Reconnect => SameFilter(w.s, Connected(w.s));
      case Kill => RebootedExact(w.s);
      case Pick(job) => SameFilter(w.s, Picked(w.s, job));
      case Solve(p, save) => if w.job.Some? { PassedExact(w.s, w.job.value, p, save); }
    }
  }

  /** A share dropped as already submitted: in every run its pair has exactly one attempt since the last
      change of height or restart, and it went out in this block if and only if that attempt did. */
  lemma RefusedIff(loaded: seq<Entry>, script: seq<Step>, height: int, hit: Hit) returns (i: nat)
    requires Knows(Play(loaded, script).s, height, hit)
    ensures var log := Play(loaded, script).s.log;
      && IsLive(log, i, hit.nonce, hit.ntime) && log[i].height == height
      && (forall j: nat :: IsLive(log, j, hit.nonce, hit.ntime) ==> j == i)
      && ((exists j: nat :: IsLive(log, j, hit.nonce, hit.ntime) && log[j].sent) <==> log[i].sent)
  {
    NothingTwice(loaded, script);
    var s := Play(loaded, script).s;
    i := RefusedWasAttempted(s.log, s.keys, s.block, hit.nonce, hit.ntime);
  }

  // ---------------------------------------------------------------- stepping through concrete runs

  lemma PlaySnoc(loaded: seq<Entry>, front: seq<Step>, step: Step)
    ensures Play(loaded, front + [step]) == Taken(Play(loaded, front), step)
  {
    assert (front + [step])[..|front|] == front;
  }

  lemma OneHit(s: State, job: Job, hit: Hit)
    ensures SunkAll(s, job, []) == Result(s, On) && SunkAll(s, job, [hit]) == Sunk(s, job, hit)
  {
    assert [hit][1..] == [];
    hide Sunk;
  }

  /** The first solve on a range, with an empty table. */
  lemma FirstScan(s: State, save: bool)
    requires s.table == []
    ensures var t := [Entry(s.range, s.cursor)];
      Begun(s, save) == s.(table := t, saved := if save then t else s.saved, log := s.log + [Scan(s.range, s.cursor)])
  {
    assert s.log + [] == s.log;
  }

  /** A further solve on the table's only range. */
  lemma NextScan(s: State, save: bool, at: Word)
    requires s.table == [Entry(s.range, at)]
    ensures var t := [Entry(s.range, Max(s.cursor, at))];
      Begun(s, save) == s.(table := t, saved := if save then t else s.saved, log := s.log + [Scan(s.range, s.cursor)])
  {
    assert s.log + [] == s.log;
    assert Find(s.table, s.range) == 0;
  }

  /** A share lost for good: its send fails, the solver finds it again, and it is dropped as already sent. */
  lemma LostShare(script: seq<Step>)
    requires var share := Hit(9, 0, false, Failed);
      script == [Pick(Job(7, 0, 1))] + [Solve(Pass([share], 3, Exhausted), true)]
              + [Solve(Pass([share.(fate := Sent)], 3, Exhausted), true)]
    ensures Play([], script).s.log ==
      [Scan(7, 7), Attempt(7, 1, 9, 0, false), Scan(7, 7), Refused(7, 1, 9, 0)]
  {
    var job, share := Job(7, 0, 1), Hit(9, 0, false, Failed);
    var again := share.(fate := Sent);
    assert Play([], []) == World(Start([]), None);
    PlaySnoc([], [], script[0]);
    PlaySnoc([], [script[0]], script[1]);
    PlaySnoc([], [script[0]] + [script[1]], script[2]);
    assert [] + [script[0]] == [script[0]];
    assert [script[0]] + [script[1]] + [script[2]] == script;
    hide Play;
    var s1 := Start([]).(range := 7, cursor := 7);
    FirstScan(s1, true);
    OneHit(Begun(s1, true), job, share);
    var s2 := Passed(s1, job, Pass([share], 3, Exhausted), true).s;
    NextScan(s2, true, 7);
    OneHit(Begun(s2, true), job, again);
  }
}
