/** Solves start above what was sent: what keeps it, exactly when it fails, and runs in which it does. */
module PoolCover {
  import opened Cursor
  import opened PoolHistory
  import opened PoolLoop
  import opened PoolTheorems
  import opened Solver
  import opened Wrappers

  /** So far every solve started above every nonce sent on its range, and both tables cover all that was sent. */
  ghost predicate Covered(s: State) {
    && IsTable(s.table) && IsTable(s.saved) && ScansAhead(s.log)
    && TableCovers(s.log, s.table) && TableCovers(s.log, s.saved)
  }

  /** The nonces sent on the current range. */
  function SentHere(s: State): set<nat> { SentOn(s.log, s.range) }

  predicate Ahead(s: State) { Above(s.cursor, SentHere(s)) }

  // ---------------------------------------------------------------- what a pass sends

  /** The nonce a share puts on the wire, if any. */
  function Delivers(s: State, job: Job, hit: Hit): set<nat> {
    if hit.superseded || Knows(s, job.height, hit) || hit.fate.Failed? then {} else {hit.nonce as nat}
  }

  function DeliversAll(s: State, job: Job, hits: seq<Hit>): set<nat>
    decreases |hits|
  {
    if hits == [] then {} else
      var r := Sunk(s, job, hits[0]);
      Delivers(s, job, hits[0]) + if r.going.On? then DeliversAll(r.s, job, hits[1..]) else {}
  }

  function EndDelivers(s: State, job: Job, outcome: Outcome): set<nat> {
    if outcome.Returned? then Delivers(s, job, outcome.winner) else {}
  }

  /** The nonces a whole pass puts on the wire. */
  function PassDelivers(s: State, job: Job, p: Pass, save: bool): set<nat> {
    var b := Begun(s, save);
    var r := SunkAll(b, job, p.hits);
    DeliversAll(b, job, p.hits) + if r.going.On? then EndDelivers(r.s, job, p.outcome) else {}
  }

  lemma RecordingSent(s: State, save: bool)
    ensures SentHere(Recording(s, save)) == SentHere(s)
  {
    AfterRecordSent(s.log, s.table, s.range, s.range);
  }

  lemma QuietSent(s: State, e: Event)
    requires !e.Dropped? && !e.Attempt?
    ensures SentOn(Logged(s, e).log, s.range) == SentHere(s)
  {
    SentSnoc(s.log, e, s.range);
  }

  lemma ClaimedSent(s: State, height: int, hit: Hit)
    ensures SentHere(Claimed(s, height, hit)) == if hit.fate.Failed? then SentHere(s) else SentHere(s) + {hit.nonce}
  {
    SentSnoc(s.log, Attempt(s.range, height, hit.nonce, hit.ntime, !hit.fate.Failed?), s.range);
  }

  lemma BegunSent(s: State, save: bool)
    ensures Begun(s, save).range == s.range && Begun(s, save).cursor == s.cursor && SentHere(Begun(s, save)) == SentHere(s)
  {
    RecordingSent(s, save);
    QuietSent(Recording(s, save), Scan(s.range, s.cursor));
  }

  /** What the sink sends is what it adds to the range's sent nonces. */
  lemma SunkSent(s: State, job: Job, hit: Hit)
    ensures var r := Sunk(s, job, hit);
      && SentOn(r.s.log, s.range) == SentHere(s) + Delivers(s, job, hit)
      && (!r.going.Dead? ==> r.s.range == s.range)
  {
    var c := Claimed(s, job.height, hit);
    ClaimedSent(s, job.height, hit);
    RecordingSent(Past(c, hit.nonce), true);
    QuietSent(s, Refused(s.range, job.height, hit.nonce, hit.ntime));
    QuietSent(c, Restarted);
    hide SentOn, Knows, Past;
    assert SentHere(s) + {} == SentHere(s);
  }

  lemma {:induction false} SunkAllSent(s: State, job: Job, hits: seq<Hit>)
    ensures var r := SunkAll(s, job, hits);
      && SentOn(r.s.log, s.range) == SentHere(s) + DeliversAll(s, job, hits)
      && (!r.going.Dead? ==> r.s.range == s.range)
    decreases |hits|
  {
    hide SentOn, Sunk, Delivers;
    if hits != [] {
      SunkSent(s, job, hits[0]);
      var r := Sunk(s, job, hits[0]);
      if r.going.On? { SunkAllSent(r.s, job, hits[1..]); }
    }
  }

  lemma SubmittedSent(s: State, job: Job, winner: Hit, scanned: Word)
    ensures var r := Submitted(s, job, winner, scanned);
      && SentOn(r.s.log, s.range) == SentHere(s) + Delivers(s, job, winner)
      && (!r.going.Dead? ==> r.s.range == s.range)
  {
    var c := Claimed(s, job.height, winner);
    ClaimedSent(s, job.height, winner);
    RecordingSent(c.(cursor := Laned(job, Max(Max(Wrap(winner.nonce + 1), s.cursor), scanned))), true);
    QuietSent(s, Refused(s.range, job.height, winner.nonce, winner.ntime));
    QuietSent(c, Restarted);
    hide SentOn, Knows, Laned, Wrap;
    assert SentHere(s) + {} == SentHere(s);
  }

  lemma EndedSent(s: State, job: Job, outcome: Outcome, scanned: Word)
    ensures var r := Ended(s, job, outcome, scanned);
      && SentOn(r.s.log, s.range) == SentHere(s) + EndDelivers(s, job, outcome)
      && (!r.going.Dead? ==> r.s.range == s.range)
  {
    if outcome.Returned? { SubmittedSent(s, job, outcome.winner, scanned); }
    hide Submitted, Delivers, SentOn;
    assert SentHere(s) + {} == SentHere(s);
  }

  /** A pass adds to the sent nonces of its range exactly the shares it put on the wire. */
  lemma PassedSent(s: State, job: Job, p: Pass, save: bool)
    ensures var r := Passed(s, job, p, save);
      && SentOn(r.s.log, s.range) == SentHere(s) + PassDelivers(s, job, p, save)
      && (!r.going.Dead? ==> r.s.range == s.range)
  {
    var b := Begun(s, save);
    BegunSent(s, save);
    SunkAllSent(b, job, p.hits);
    var r := SunkAll(b, job, p.hits);
    EndedSent(r.s, job, p.outcome, Wrap(s.cursor + p.attempted));
    hide SentOn, Begun, SunkAll, Ended, DeliversAll, EndDelivers;
  }

  // ---------------------------------------------------------------- exactly when the cursor stays ahead

  lemma WrapIs(x: nat)
    requires x <= TOP
    ensures Wrap(x) == if x == TOP then 0 else x
  {
  }

  lemma NotAboveLast(cursor: Word, nonces: set<nat>)
    requires LAST_NONCE in nonces
    ensures !Above(cursor, nonces)
  {
  }

  lemma AboveMore(cursor: Word, nonces: set<nat>, more: Word, n: nat)
    requires Above(cursor, nonces) && cursor <= more
    ensures Above(more, nonces) && (n < more ==> Above(more, nonces + {n}))
  {
  }

  /** The sink keeps the cursor ahead unless it sends the last nonce. */
  lemma SunkAhead(s: State, job: Job, hit: Hit)
    requires Ahead(s) && !Sunk(s, job, hit).going.Dead?
    ensures LAST_NONCE !in Delivers(s, job, hit) ==> Ahead(Sunk(s, job, hit).s)
  {
    SunkSent(s, job, hit);
    WrapIs(hit.nonce + 1);
    AboveMore(s.cursor, SentHere(s), Max(s.cursor, Wrap(hit.nonce + 1)), hit.nonce);
    hide SentOn, Above, Wrap;
    assert SentHere(s) + {} == SentHere(s);
  }

  lemma {:induction false} SunkAllAhead(s: State, job: Job, hits: seq<Hit>)
    requires Ahead(s) && !SunkAll(s, job, hits).going.Dead? && LAST_NONCE !in DeliversAll(s, job, hits)
    ensures Ahead(SunkAll(s, job, hits).s)
    decreases |hits|
  {
    hide Ahead, Sunk, Delivers;
    if hits != [] {
      SunkAhead(s, job, hits[0]);
      var r := Sunk(s, job, hits[0]);
      if r.going.On? { SunkAllAhead(r.s, job, hits[1..]); }
    }
  }

  /** Shares below a bound do not take the cursor past it. */
  lemma {:induction false} SunkAllBelow(s: State, job: Job, hits: seq<Hit>, w: Word)
    requires s.cursor <= w && forall k :: 0 <= k < |hits| ==> hits[k].nonce < w
    ensures !SunkAll(s, job, hits).going.Dead? ==> SunkAll(s, job, hits).s.cursor <= w
    decreases |hits|
  {
    if hits != [] {
      WrapIs(hits[0].nonce + 1);
      hide Wrap, Knows, Claimed, Refusing;
      var r := Sunk(s, job, hits[0]);
      if r.going.On? { SunkAllBelow(r.s, job, hits[1..], w); }
    }
  }

  /** A winner at the last nonce that is dropped, as superseded or already submitted. */
  predicate DropsLast(s: State, job: Job, outcome: Outcome) {
    outcome.Returned? && outcome.winner.nonce == LAST_NONCE &&
      (outcome.winner.superseded || Knows(s, job.height, outcome.winner))
  }

  predicate PassDropsLast(s: State, job: Job, p: Pass, save: bool) {
    var r := SunkAll(Begun(s, save), job, p.hits);
    r.going.On? && DropsLast(r.s, job, p.outcome)
  }

  lemma SubmittedAheadIff(s: State, job: Job, w: Hit, scanned: Word)
    requires Ahead(s) && !InLane(job) && s.cursor <= w.nonce && !Submitted(s, job, w, scanned).going.Dead?
    ensures var r, end := Submitted(s, job, w, scanned), Returned(w);
      Ahead(r.s) <==> LAST_NONCE !in EndDelivers(s, job, end) && (DropsLast(s, job, end) ==> SentHere(r.s) == {})
  {
    var r, past := Submitted(s, job, w, scanned), Wrap(w.nonce + 1);
    SubmittedSent(s, job, w, scanned);
    WrapIs(w.nonce + 1);
    assert SentHere(s) + {} == SentHere(s);
    if w.nonce == LAST_NONCE {
      if LAST_NONCE in SentHere(r.s) { NotAboveLast(r.s.cursor, SentHere(r.s)); }
      hide SentOn, Wrap;
    } else {
      AboveMore(s.cursor, SentHere(s), past, w.nonce);
      AboveMore(s.cursor, SentHere(s), Max(Max(past, s.cursor), scanned), w.nonce);
      hide SentOn, Above, Wrap;
    }
  }

  lemma EndedAheadIff(s: State, job: Job, outcome: Outcome, scanned: Word)
    requires Ahead(s) && !InLane(job) && !Ended(s, job, outcome, scanned).going.Dead?
    requires outcome.Returned? ==> s.cursor <= outcome.winner.nonce
    ensures var r := Ended(s, job, outcome, scanned);
      Ahead(r.s) <==>
        LAST_NONCE !in EndDelivers(s, job, outcome) && (DropsLast(s, job, outcome) ==> SentHere(r.s) == {})
  {
    match outcome
    case Exhausted =>
      AboveMore(s.cursor, SentHere(s), Max(s.cursor, scanned), 0);
      hide SentOn, Above;
    case Returned(w) =>
      SubmittedAheadIff(s, job, w, scanned);
      hide Ahead, SentHere, Submitted, EndDelivers, DropsLast;
  }

  /** From a cursor ahead of what was sent, a pass within the contract leaves it ahead if and only if it does
      not send the last nonce, and does not drop a winner there while anything has been sent on the range. */
  lemma PassAheadIff(s: State, job: Job, p: Pass, save: bool)
    requires Ahead(s) && !InLane(job) && Ordered(p, s.cursor) && !Passed(s, job, p, save).going.Dead?
    ensures var r := Passed(s, job, p, save);
      Ahead(r.s) <==>
        LAST_NONCE !in PassDelivers(s, job, p, save) &&
        (PassDropsLast(s, job, p, save) ==> SentHere(s) + PassDelivers(s, job, p, save) == {})
  {
    var b, scanned := Begun(s, save), Wrap(s.cursor + p.attempted);
    var sunk, r := SunkAll(b, job, p.hits), Passed(s, job, p, save);
    PassParts(s, job, p, save);
    if p.outcome.Returned? { WinnerLast(p, s.cursor); }
    AheadIs(s);
    AheadIs(b);
    AheadIs(r.s);
    hide *;
    BegunSent(s, save);
    PassedSent(s, job, p, save);
    PassedIs(s, job, p, save);
    if LAST_NONCE in PassDelivers(s, job, p, save) {
      NotAboveLast(r.s.cursor, SentHere(r.s));
    } else {
      if p.outcome.Returned? { SunkAllBelow(b, job, p.hits, p.outcome.winner.nonce); }
      SunkAllAhead(b, job, p.hits);
      if sunk.going.On? { EndedAheadIff(sunk.s, job, p.outcome, scanned); }
    }
  }

  lemma AheadIs(s: State)
    ensures Ahead(s) <==> Above(s.cursor, SentHere(s))
    ensures SentHere(s) == SentOn(s.log, s.range)
  {
  }

  lemma WinnerLast(p: Pass, base: Word)
    requires Ordered(p, base) && p.outcome.Returned?
    ensures base <= p.outcome.winner.nonce && forall k :: 0 <= k < |p.hits| ==> p.hits[k].nonce < p.outcome.winner.nonce
  {
  }

  lemma PassParts(s: State, job: Job, p: Pass, save: bool)
    ensures var b := Begun(s, save);
      var r := SunkAll(b, job, p.hits);
      && PassDelivers(s, job, p, save) ==
           DeliversAll(b, job, p.hits) + (if r.going.On? then EndDelivers(r.s, job, p.outcome) else {})
      && (PassDropsLast(s, job, p, save) <==> r.going.On? && DropsLast(r.s, job, p.outcome))
  {
    hide Begun, SunkAll, DeliversAll, EndDelivers, DropsLast;
  }

  // ---------------------------------------------------------------- whole runs on plain pools

  /** No share at the last nonce, no kill inside a send. */
  predicate IsPlainHit(hit: Hit) { hit.nonce != LAST_NONCE && !hit.fate.SentThenKilled? }

  predicate IsPlainPass(p: Pass) {
    (forall k :: 0 <= k < |p.hits| ==> IsPlainHit(p.hits[k])) && (p.outcome.Returned? ==> IsPlainHit(p.outcome.winner))
  }

  /** Plain pools assign no lane and no range based at the last word; the solver keeps its contract. */
  predicate IsPlainStep(w: World, step: Step) {
    match step
    case Pick(job) => !InLane(job) && job.start != NO_RANGE
    case Solve(p, _) => w.job.Some? ==> Ordered(p, w.s.cursor) && IsPlainPass(p)
    case _ => true
  }

  predicate IsPlainRun(loaded: seq<Entry>, script: seq<Step>) {
    script == [] ||
    (var front, last := script[..|script| - 1], script[|script| - 1];
     IsPlainRun(loaded, front) && IsPlainStep(Play(loaded, front), last))
  }

  lemma QuietCovered(s: State, e: Event)
    requires Covered(s) && !e.Attempt? && (e.Scan? ==> Above(e.base, SentOn(s.log, e.range)))
    ensures Covered(Logged(s, e))
  {
    ScanSnoc(s.log, e);
    QuietCovers(s.log, s.table, e);
    QuietCovers(s.log, s.saved, e);
    hide TableCovers, ScansAhead, IsTable;
  }

  lemma RecordingCovered(s: State, save: bool)
    requires IsTable(s.table) && IsTable(s.saved) && ScansAhead(s.log) && CoversOthers(s.log, s.table, s.range) && Ahead(s)
    requires save || TableCovers(s.log, s.saved)
    ensures Covered(Recording(s, save)) && Ahead(Recording(s, save))
  {
    RecordingSent(s, save);
    RecordedEntry(s.table, s.range, s.cursor, s.range);
    RecordCovers(s.log, s.table, s.range, s.cursor);
    if !save { AfterRecordCovers(s.log, s.table, s.range, s.saved); }
    RecordScans(s.log, s.table, s.range);
    hide TableCovers, CoversOthers, ScansAhead, IsTable, Recorded, AfterRecord, Above, SentOn;
  }

  lemma BegunCovered(s: State, save: bool)
    requires Covered(s) && Ahead(s)
    ensures Covered(Begun(s, save)) && Ahead(Begun(s, save))
  {
    BegunSent(s, save);
    CoversAll(s.log, s.table, s.range);
    RecordingCovered(s, save);
    RecordingSent(s, save);
    QuietCovered(Recording(s, save), Scan(s.range, s.cursor));
    hide Covered, SentHere;
  }

  lemma ClaimedCovered(s: State, height: int, hit: Hit)
    requires Covered(s) && Ahead(s)
    ensures var c := Claimed(s, height, hit);
      && ScansAhead(c.log) && CoversOthers(c.log, s.table, s.range) && (hit.fate.Failed? ==> Covered(c))
  {
    AttemptScans(s.log, s.table, s.saved, s.cursor, Attempt(s.range, height, hit.nonce, hit.ntime, !hit.fate.Failed?));
    hide TableCovers, CoversOthers, ScansAhead, IsTable, Above, SentOn;
  }

  /** A share sent, with the cursor moved past it and saved. */
  lemma SentCovered(s: State, height: int, hit: Hit, moved: Word)
    requires Covered(s) && Ahead(s) && hit.fate.Sent? && s.cursor <= moved && hit.nonce < moved
    ensures var c := Claimed(s, height, hit).(cursor := moved); Covered(Recording(c, true)) && Ahead(Recording(c, true))
  {
    ClaimedCovered(s, height, hit);
    ClaimedSent(s, height, hit);
    AboveMore(s.cursor, SentHere(s), moved, hit.nonce);
    hide TableCovers, CoversOthers, ScansAhead, IsTable, Above, SentOn, Recording;
    RecordingCovered(Claimed(s, height, hit).(cursor := moved), true);
  }

  /** What was covered stays covered when the cursor moves. */
  lemma MovedCovered(s: State, cursor: Word)
    requires Covered(s)
    ensures Covered(s.(cursor := cursor))
  {
  }

  /** The sink on a share below the last nonce, spelled out. */
  lemma SunkIs(s: State, job: Job, hit: Hit)
    requires IsPlainHit(hit)
    ensures var r, c, past := Sunk(s, job, hit), Claimed(s, job.height, hit), Max(s.cursor, hit.nonce + 1);
      && !r.going.Dead?
      && (hit.superseded ==> r.s == s.(cursor := past))
      && (!hit.superseded && Knows(s, job.height, hit) ==> r.s == Refusing(s, job.height, hit).(cursor := past))
      && (!hit.superseded && !Knows(s, job.height, hit) ==>
          (hit.fate.Failed? && r.s == c) || (hit.fate.Sent? && r.s == Recording(c.(cursor := past), true)))
  {
    WrapIs(hit.nonce + 1);
    hide Wrap, Knows, Recording;
  }

  lemma SunkCovered(s: State, job: Job, hit: Hit)
    requires Covered(s) && Ahead(s) && IsPlainHit(hit)
    ensures Covered(Sunk(s, job, hit).s) && Ahead(Sunk(s, job, hit).s) && !Sunk(s, job, hit).going.Dead?
  {
    PlainSunkAhead(s, job, hit);
    SunkIs(s, job, hit);
    hide Covered, Ahead, Claimed, Recording, Knows, Sunk, Logged;
    var past := Max(s.cursor, hit.nonce + 1);
    if hit.superseded {
      MovedCovered(s, past);
    } else if Knows(s, job.height, hit) {
      QuietCovered(s, Refused(s.range, job.height, hit.nonce, hit.ntime));
      MovedCovered(Refusing(s, job.height, hit), past);
    } else {
      ClaimedCovered(s, job.height, hit);
      if hit.fate.Sent? { SentCovered(s, job.height, hit, past); }
    }
  }

  lemma PlainSunkAhead(s: State, job: Job, hit: Hit)
    requires Ahead(s) && IsPlainHit(hit)
    ensures Ahead(Sunk(s, job, hit).s)
  {
    SunkIs(s, job, hit);
    SunkAhead(s, job, hit);
    hide Ahead, Sunk, Knows;
  }

  lemma {:induction false} SunkAllCovered(s: State, job: Job, hits: seq<Hit>)
    requires Covered(s) && Ahead(s) && forall k :: 0 <= k < |hits| ==> IsPlainHit(hits[k])
    ensures var r := SunkAll(s, job, hits); Covered(r.s) && Ahead(r.s) && !r.going.Dead?
    decreases |hits|
  {
    hide Covered, Ahead, Sunk, IsPlainHit;
    if hits != [] {
      SunkCovered(s, job, hits[0]);
      var r := Sunk(s, job, hits[0]);
      if r.going.On? { SunkAllCovered(r.s, job, hits[1..]); }
    }
  }

  /** The submission of a winner below the last nonce, outside any lane, spelled out. */
  lemma SubmittedIs(s: State, job: Job, w: Hit, scanned: Word)
    requires IsPlainHit(w) && !InLane(job)
    ensures var r, c := Submitted(s, job, w, scanned), Claimed(s, job.height, w);
      && !r.going.Dead?
      && (w.superseded ==> r.s == s.(cursor := w.nonce + 1))
      && (!w.superseded && Knows(s, job.height, w) ==> r.s == Refusing(s, job.height, w).(cursor := w.nonce + 1))
      && (!w.superseded && !Knows(s, job.height, w) ==>
          (w.fate.Failed? && r.s == c) ||
          (w.fate.Sent? && r.s == Recording(c.(cursor := Max(Max(w.nonce + 1, s.cursor), scanned)), true)))
  {
    WrapIs(w.nonce + 1);
    hide Wrap, Knows, Claimed, Recording, Refusing;
  }

  lemma SubmittedCovered(s: State, job: Job, w: Hit, scanned: Word)
    requires Covered(s) && Ahead(s) && IsPlainHit(w) && !InLane(job) && s.cursor <= w.nonce
    ensures var r := Submitted(s, job, w, scanned); Covered(r.s) && !r.going.Dead?
  {
    SubmittedIs(s, job, w, scanned);
    hide Covered, Ahead, Claimed, Recording, Knows, Submitted, Logged;
    if w.superseded {
      MovedCovered(s, w.nonce + 1);
    } else if Knows(s, job.height, w) {
      QuietCovered(s, Refused(s.range, job.height, w.nonce, w.ntime));
      MovedCovered(Refusing(s, job.height, w), w.nonce + 1);
    } else {
      ClaimedCovered(s, job.height, w);
      if w.fate.Sent? { SentCovered(s, job.height, w, Max(Max(w.nonce + 1, s.cursor), scanned)); }
    }
  }

  lemma EndedCovered(s: State, job: Job, outcome: Outcome, scanned: Word)
    requires Covered(s) && Ahead(s) && !InLane(job)
    requires outcome.Returned? ==> IsPlainHit(outcome.winner) && s.cursor <= outcome.winner.nonce
    ensures var r := Ended(s, job, outcome, scanned); Covered(r.s) && !r.going.Dead?
  {
    match outcome
    case Exhausted => MovedCovered(s, Max(s.cursor, scanned));
    case Returned(w) => SubmittedCovered(s, job, w, scanned);
    hide Covered, Submitted;
  }

  lemma PassedIs(s: State, job: Job, p: Pass, save: bool)
    ensures var r := SunkAll(Begun(s, save), job, p.hits);
      Passed(s, job, p, save) == if r.going.On? then Ended(r.s, job, p.outcome, Wrap(s.cursor + p.attempted)) else r
  {
    hide Begun, SunkAll, Ended, Wrap;
  }

  lemma PlainEnd(p: Pass, base: Word)
    requires Ordered(p, base) && IsPlainPass(p)
    ensures forall k :: 0 <= k < |p.hits| ==> IsPlainHit(p.hits[k])
    ensures p.outcome.Returned? ==>
      var w := p.outcome.winner;
      IsPlainHit(w) && base <= w.nonce && forall k :: 0 <= k < |p.hits| ==> p.hits[k].nonce < w.nonce
  {
    hide IsPlainHit;
  }

  lemma PassedCovered(s: State, job: Job, p: Pass, save: bool)
    requires Covered(s) && Ahead(s) && !InLane(job) && Ordered(p, s.cursor) && IsPlainPass(p)
    ensures var r := Passed(s, job, p, save); Covered(r.s) && !r.going.Dead?
  {
    var b := Begun(s, save);
    PlainEnd(p, s.cursor);
    hide *;
    BegunSent(s, save);
    if p.outcome.Returned? { SunkAllBelow(b, job, p.hits, p.outcome.winner.nonce); }
    BegunCovered(s, save);
    SunkAllCovered(b, job, p.hits);
    PassedIs(s, job, p, save);
    var sunk := SunkAll(b, job, p.hits);
    if sunk.going.On? { EndedCovered(sunk.s, job, p.outcome, Wrap(s.cursor + p.attempted)); }
  }

  /** No plain pass sends or drops anything at the last nonce. */
  lemma PlainPassAhead(s: State, job: Job, p: Pass, save: bool)
    requires Ahead(s) && !InLane(job) && Ordered(p, s.cursor) && IsPlainPass(p) && !Passed(s, job, p, save).going.Dead?
    ensures Ahead(Passed(s, job, p, save).s) && Passed(s, job, p, save).s.range == s.range
  {
    PassedSent(s, job, p, save);
    PlainEnd(p, s.cursor);
    PassAheadIff(s, job, p, save);
    PlainDelivers(Begun(s, save), job, p.hits);
    hide Ahead, SentOn, Passed, Begun, SunkAll, DeliversAll;
  }

  lemma {:induction false} PlainDelivers(s: State, job: Job, hits: seq<Hit>)
    requires forall k :: 0 <= k < |hits| ==> IsPlainHit(hits[k])
    ensures LAST_NONCE !in DeliversAll(s, job, hits)
    decreases |hits|
  {
    hide Sunk;
    if hits != [] {
      PlainDelivers(Sunk(s, job, hits[0]).s, job, hits[1..]);
    }
  }

  /** Resuming a range starts above everything the table covers there. */
  lemma ResumedAbove(log: seq<Event>, table: seq<Entry>, base: Word)
    requires IsTable(table) && TableCovers(log, table)
    ensures Above(Resumed(table, base), SentOn(log, base))
  {
    ResumedIs(table, base);
    hide IsTable, SentOn, Resumed, Find;
  }

  /** Between steps of a plain run: everything is covered, and a range in progress is one a job named. */
  ghost predicate Between(w: World) {
    && Covered(w.s)
    && (w.s.range != NO_RANGE ==> Ahead(w.s))
    && (w.job.Some? ==> w.s.range == w.job.value.start != NO_RANGE && !InLane(w.job.value))
  }

  lemma PassedBetween(s: State, job: Job, p: Pass, save: bool)
    requires Covered(s) && Ahead(s) && !InLane(job) && Ordered(p, s.cursor) && IsPlainPass(p)
    ensures var r := Passed(s, job, p, save); Covered(r.s) && Ahead(r.s) && r.s.range == s.range && !r.going.Dead?
  {
    hide *;
    PassedCovered(s, job, p, save);
    PlainPassAhead(s, job, p, save);
  }

  lemma TakenBetween(w: World, step: Step)
    requires Between(w) && IsPlainStep(w, step)
    ensures Between(Taken(w, step))
  {
    match step
    case Reconnect =>
    case Kill => QuietCovered(w.s, Restarted);
    case Pick(job) => if job.start != w.s.range { ResumedAbove(w.s.log, w.s.table, job.start); }
    case Solve(p, save) => if w.job.Some? { PassedBetween(w.s, w.job.value, p, save); }
  }

  lemma {:induction false} PlainRunBetween(loaded: seq<Entry>, script: seq<Step>)
    requires IsTable(loaded) && IsPlainRun(loaded, script)
    ensures Between(Play(loaded, script))
  {
    if script != [] {
      PlainRunBetween(loaded, script[..|script| - 1]);
      TakenBetween(Play(loaded, script[..|script| - 1]), script[|script| - 1]);
    }
  }

  /** On plain pools every solve of every run starts above every nonce sent on its range, while the range
      keeps its place in the table: across jobs, reconnects, and kills between steps. */
  lemma SolvesStartAhead(loaded: seq<Entry>, script: seq<Step>)
    requires IsTable(loaded) && IsPlainRun(loaded, script)
    ensures ScansAhead(Play(loaded, script).s.log)
  {
    PlainRunBetween(loaded, script);
  }

  // ---------------------------------------------------------------- where the promise fails

  /** A kill between a send and the save that follows it: the range resumes above the nonce just sent if and
      only if the table on disk already did. */
  lemma KilledSendIff(s: State, job: Job, hit: Hit)
    requires Covered(s) && s.range == job.start != NO_RANGE && !InLane(job)
    requires !hit.superseded && !Knows(s, job.height, hit) && hit.fate.SentThenKilled?
    ensures Ahead(Picked(Sunk(s, job, hit).s, job)) <==> Resumed(s.saved, job.start) > hit.nonce
  {
    SunkSent(s, job, hit);
    ResumedAbove(s.log, s.saved, job.start);
    var t := Picked(Sunk(s, job, hit).s, job);
    assert t.range == s.range && t.cursor == Resumed(s.saved, job.start);
    hide SentOn, Resumed, TableCovers, ScansAhead, IsTable;
    assert SentHere(t) == SentHere(s) + {hit.nonce as nat};
  }

  /** Right after a connect a range based at the last word is taken for the one in progress: its solve starts
      at zero, which is ahead if and only if nothing has been sent on it. Every other range starts ahead. */
  lemma FirstPickIff(s: State, job: Job)
    requires Covered(s) && !InLane(job)
    ensures Ahead(Picked(Connected(s), job)) <==> job.start != NO_RANGE || SentOn(s.log, NO_RANGE) == {}
  {
    if job.start != NO_RANGE { ResumedAbove(s.log, s.table, job.start); }
    hide SentOn, Resumed, TableCovers, ScansAhead, IsTable;
  }

  // ---------------------------------------------------------------- concrete runs

  /** A table with room for one range only: the state of the runs below. */
  predicate Single(s: State, at: Word) { s.table == [Entry(s.range, at)] || (s.table == [] && at == 0) }

  lemma BegunSingle(s: State, at: Word)
    requires Single(s, at)
    ensures var t := [Entry(s.range, Max(s.cursor, at))];
      Begun(s, true) == s.(table := t, saved := t, log := s.log + [Scan(s.range, s.cursor)])
  {
    if s.table == [] { FirstScan(s, true); } else { NextScan(s, true, at); }
  }

  lemma Nothing(s: State, job: Job)
    ensures SunkAll(s, job, []) == Result(s, On)
  {
  }

  /** A solve that finds nothing. */
  lemma ScanOnly(s: State, job: Job, at: Word)
    requires Single(s, at)
    ensures var t := [Entry(s.range, Max(s.cursor, at))];
      Passed(s, job, Pass([], 0, Exhausted), true) ==
        Result(s.(table := t, saved := t, log := s.log + [Scan(s.range, s.cursor)]), On)
  {
    BegunSingle(s, at);
    Nothing(Begun(s, true), job);
    WrapIs(s.cursor);
    hide Begun, Wrap;
  }

  /** A solve whose superseded winner is at the last nonce. */
  lemma ScanDropsLast(s: State, job: Job, at: Word)
    requires Single(s, at)
    ensures var t := [Entry(s.range, Max(s.cursor, at))];
      Passed(s, job, Pass([], 0, Returned(Hit(LAST_NONCE, 0, true, Sent))), true) ==
        Result(s.(cursor := 0, table := t, saved := t, log := s.log + [Scan(s.range, s.cursor)]), On)
  {
    BegunSingle(s, at);
    Nothing(Begun(s, true), job);
    WrapIs(TOP);
    hide Begun, Wrap, Knows;
  }

  /** A solve that sends its winner: it goes into the filter, the log, and both tables. */
  lemma ScanSends(s: State, job: Job, at: Word, nonce: Word, fate: Fate)
    requires Single(s, at) && !InLane(job) && s.keys == {} && at <= s.cursor <= nonce < LAST_NONCE && !fate.Failed?
    ensures var p := Pass([], 0, Returned(Hit(nonce, 0, false, fate)));
      var t, u := [Entry(s.range, s.cursor)], [Entry(s.range, nonce + 1)];
      var sent := s.(keys := {(nonce as nat, 0)}, block := job.height, table := t, saved := t,
                     log := s.log + [Scan(s.range, s.cursor)] + [Attempt(s.range, job.height, nonce, 0, true)]);
      Passed(s, job, p, true) ==
        if fate.Sent? then Result(sent.(cursor := nonce + 1, table := u, saved := u), On)
        else Result(Rebooted(sent), Dead)
  {
    var b := Begun(s, true);
    BegunSingle(s, at);
    Nothing(b, job);
    WrapIs(nonce + 1);
    WrapIs(s.cursor);
    var c := Claimed(b, job.height, Hit(nonce, 0, false, fate)).(cursor := nonce + 1);
    assert c.table == [Entry(c.range, s.cursor)];
    assert c.log + [] == c.log;
    assert Find(c.table, c.range) == 0;
    hide Begun, Wrap, Find;
    assert {} + {(nonce as nat, 0)} == {(nonce as nat, 0)};
  }

  /** Two solves that share a range: a nonce sent before the second started, at or above its base. */
  lemma Behind(log: seq<Event>, i: nat, range: Word, base: Word, n: nat)
    requires i < |log| && log[i] == Scan(range, base) && n in SentOn(log[..i], range) && base <= n
    ensures !ScansAhead(log)
  {
    assert !Above(base, SentOn(log[..i], range));
  }

  lemma PlayStep(loaded: seq<Entry>, script: seq<Step>, k: nat)
    requires k < |script|
    ensures Play(loaded, script[..0]) == World(Start(loaded), None)
    ensures Play(loaded, script[..k + 1]) == Taken(Play(loaded, script[..k]), script[k])
  {
    assert script[..k + 1][..k] == script[..k];
  }

  /** A solve step taken with a job at hand. */
  lemma SolveTaken(loaded: seq<Entry>, script: seq<Step>, k: nat, s: State, job: Job, r: Result)
    requires k < |script| && script[k].Solve? && Play(loaded, script[..k]) == World(s, Some(job))
    requires Passed(s, job, script[k].p, script[k].save) == r
    ensures Play(loaded, script[..k + 1]) == World(r.s, if r.going.Dead? then None else Some(job))
  {
    PlayStep(loaded, script, k);
    hide Play, Passed;
  }

  function Quiet(): Step { Solve(Pass([], 0, Exhausted), true) }

  function Winner(nonce: Word, superseded: bool, fate: Fate): Step {
    Solve(Pass([], 0, Returned(Hit(nonce, 0, superseded, fate))), true)
  }

  lemma PickedAgain(s: State, job: Job)
    requires s.table == [Entry(job.start, job.start)] && s.range != job.start && !InLane(job)
    ensures Picked(s, job) == s.(range := job.start, cursor := job.start)
  {
    ResumedIs(s.table, job.start);
  }

  /** The history and the state once a first job has sent its share at nonce 9. */
  function FirstSent(start: Word, base: Word): seq<Event> { [Scan(start, base), Attempt(start, 1, 9, 0, true)] }

  lemma FirstJob(script: seq<Step>, start: Word, base: Word, fate: Fate)
    requires |script| >= 2 && script[0] == Pick(Job(start, 0, 1)) && script[1] == Winner(9, false, fate) && !fate.Failed?
    requires base == (if start == NO_RANGE then 0 else start) && base <= 9
    ensures var log, t, u := FirstSent(start, base), [Entry(start, base)], [Entry(start, 10)];
      Play([], script[..2]) ==
        if fate.Sent? then World(State(10, start, {(9, 0)}, 1, u, u, log), Some(Job(start, 0, 1)))
        else World(State(0, NO_RANGE, {}, -1, t, t, log + [Restarted]), None)
  {
    var job, s1 := Job(start, 0, 1), State(base, start, {}, -1, [], [], []);
    PlayStep([], script, 0);
    assert Play([], script[..1]) == World(s1, Some(job));
    hide Play, Passed, Picked;
    ScanSends(s1, job, 0, 9, fate);
    assert [] + [Scan(start, base)] + [Attempt(start, 1, 9, 0, true)] == FirstSent(start, base);
    SolveTaken([], script, 1, s1, job, Passed(s1, job, script[1].p, true));
  }

  /** A scan at or below nonce 9 after the first share was sent, one event between. */
  lemma BehindFirst(start: Word, base: Word, between: seq<Event>, again: Word)
    requires |between| <= 1 && (forall k :: 0 <= k < |between| ==> !between[k].Attempt? && !between[k].Dropped?)
    requires again <= 9
    ensures !ScansAhead(FirstSent(start, base) + between + [Scan(start, again)])
  {
    var front, e := FirstSent(start, base) + between, Attempt(start, 1, 9, 0, true);
    var log := front + [Scan(start, again)];
    SentSnoc([Scan(start, base)], e, start);
    assert [Scan(start, base)] + [e] == FirstSent(start, base);
    if between == [] {
      assert front == FirstSent(start, base);
    } else {
      SentSnoc(FirstSent(start, base), between[0], start);
      assert front == FirstSent(start, base) + [between[0]];
    }
    assert log[..|front|] == front;
    hide SentOn, ScansAhead;
    Behind(log, |front|, start, again, 9);
  }

  /** A share sent, then a superseded winner at the last nonce: the next solve starts at zero, below the
      share. Nothing else about the run is out of the ordinary. */
  lemma LastNonceRun(script: seq<Step>)
    requires script == [Pick(Job(7, 0, 1)), Winner(9, false, Sent), Winner(LAST_NONCE, true, Sent), Quiet()]
    ensures var log := Play([], script).s.log;
      log == FirstSent(7, 7) + [Scan(7, 10)] + [Scan(7, 0)] && !ScansAhead(log)
  {
    var job, log, t := Job(7, 0, 1), FirstSent(7, 7), [Entry(7, 10)];
    var s2 := State(10, 7, {(9, 0)}, 1, t, t, log);
    var s3 := State(0, 7, {(9, 0)}, 1, t, t, log + [Scan(7, 10)]);
    var s4 := State(0, 7, {(9, 0)}, 1, t, t, log + [Scan(7, 10)] + [Scan(7, 0)]);
    FirstJob(script, 7, 7, Sent);
    assert script[..4] == script;
    hide Play, Passed, ScansAhead, FirstSent;
    ScanDropsLast(s2, job, 10);
    SolveTaken([], script, 2, s2, job, Result(s3, On));
    ScanOnly(s3, job, 10);
    SolveTaken([], script, 3, s3, job, Result(s4, On));
    BehindFirst(7, 7, [Scan(7, 10)], 0);
  }

  /** A share sent on a range based at the last word, then a reconnect: the range is scanned from zero again. */
  lemma LastRangeRun(script: seq<Step>)
    requires script == [Pick(Job(NO_RANGE, 0, 1)), Winner(9, false, Sent), Reconnect, Pick(Job(NO_RANGE, 0, 1)), Quiet()]
    ensures var log := Play([], script).s.log;
      log == FirstSent(NO_RANGE, 0) + [] + [Scan(NO_RANGE, 0)] && !ScansAhead(log)
  {
    var job, log, t := Job(NO_RANGE, 0, 1), FirstSent(NO_RANGE, 0), [Entry(NO_RANGE, 10)];
    var s4 := State(0, NO_RANGE, {(9, 0)}, 1, t, t, log);
    var s5 := State(0, NO_RANGE, {(9, 0)}, 1, t, t, log + [Scan(NO_RANGE, 0)]);
    FirstJob(script, NO_RANGE, 0, Sent);
    PlayStep([], script, 2);
    PlayStep([], script, 3);
    assert script[..5] == script && log + [] == log;
    hide Play, Passed, ScansAhead, FirstSent;
    ScanOnly(s4, job, 10);
    SolveTaken([], script, 4, s4, job, Result(s5, On));
    BehindFirst(NO_RANGE, 0, [], 0);
  }

  /** A kill between the send of a share and the save of the table: the new process starts below the share. */
  lemma KilledSendRun(script: seq<Step>)
    requires script == [Pick(Job(7, 0, 1)), Winner(9, false, SentThenKilled), Pick(Job(7, 0, 1)), Quiet()]
    ensures var log := Play([], script).s.log;
      log == FirstSent(7, 7) + [Restarted] + [Scan(7, 7)] && !ScansAhead(log)
  {
    var job, log, t := Job(7, 0, 1), FirstSent(7, 7), [Entry(7, 7)];
    var s2 := State(0, NO_RANGE, {}, -1, t, t, log + [Restarted]);
    var s3 := State(7, 7, {}, -1, t, t, log + [Restarted]);
    var s4 := State(7, 7, {}, -1, t, t, log + [Restarted] + [Scan(7, 7)]);
    FirstJob(script, 7, 7, SentThenKilled);
    PickedAgain(s2, job);
    PlayStep([], script, 2);
    assert script[..4] == script;
    hide Play, Passed, Picked, ScansAhead, FirstSent;
    ScanOnly(s3, job, 7);
    SolveTaken([], script, 3, s3, job, Result(s4, On));
    BehindFirst(7, 7, [Restarted], 7);
  }
}
