/** The multi-GPU supervisor: one child per device, respawned with a growing delay, given up on together. */
module Supervisor {
  import opened Bits
  import opened Wrappers

  const MAX_RESPAWNS: nat := 10
  const BACKOFF_CAP: nat := 60
  const FIRST_BACKOFF: nat := 5
  const HEALTHY_RUN_MS: int := 600_000

  /** `ChildSlot`: the child's pid (-1 when down), its place on the ladder, and when it was spawned. */
  datatype Slot = Slot(pid: int, restarts: nat, backoff: nat, spawned: int)

  datatype Status = ExitCode(code: nat) | Signal(number: nat)

  /** One return of waitpid. A reaped child comes with the clock at that moment, and with what a respawn
      would yield: a pid (-1 when the fork fails) and the clock after it. */
  datatype Wait =
    | Interrupted
    | WaitFailed
    | Reaped(pid: int, status: Status, now: int, forked: int, later: int)

  predicate Up(s: Slot) { s.pid > 0 }

  /** Every non-zero exit code and every signal is abnormal. */
  predicate Abnormal(status: Status) { status.Signal? || status.code != 0 }

  function StatusCode(status: Status): nat { if status.Signal? then 128 + status.number else status.code }

  // ---------------------------------------------------------------- the ladder

  function Min(a: nat, b: nat): nat { if a < b then a else b }

  /** The delay before restart `restarts + 1`: 5, 10, 20, 40, then 60 seconds. */
  function Delay(restarts: nat): nat { Min(BACKOFF_CAP, FIRST_BACKOFF * Pow2(restarts)) }

  predicate OnLadder(s: Slot) { s.restarts <= MAX_RESPAWNS && s.backoff == Delay(s.restarts) }

  lemma DelayDoubles(restarts: nat)
    ensures Delay(0) == FIRST_BACKOFF
    ensures Delay(restarts + 1) == Min(Delay(restarts) * 2, BACKOFF_CAP)
  {
  }

  /** A long run since the last spawn starts the ladder over. */
  function Rested(s: Slot, now: int): Slot {
    if now - s.spawned >= HEALTHY_RUN_MS then s.(restarts := 0, backoff := FIRST_BACKOFF) else s
  }

  // ---------------------------------------------------------------- the measure

  /** The exits a slot can still cause: its restarts left, and its life. */
  function Left(s: Slot): nat { (if s.restarts <= MAX_RESPAWNS then MAX_RESPAWNS - s.restarts else 0) + One(Up(s)) }

  function TotalLeft(slots: seq<Slot>): nat {
    if slots == [] then 0 else TotalLeft(slots[..|slots| - 1]) + Left(slots[|slots| - 1])
  }

  lemma {:induction false} TotalUpdate(slots: seq<Slot>, i: nat, s: Slot)
    requires i < |slots|
    ensures TotalLeft(slots[i := s]) == TotalLeft(slots) - Left(slots[i]) + Left(s)
  {
    var n := |slots| - 1;
    if i < n {
      TotalUpdate(slots[..n], i, s);
      assert slots[i := s][..n] == slots[..n][i := s];
    } else {
      assert slots[i := s][..n] == slots[..n];
    }
  }

  lemma {:induction false} TotalAtMost(slots: seq<Slot>)
    ensures TotalLeft(slots) <= |slots| * (MAX_RESPAWNS + 1)
  {
    if slots != [] { TotalAtMost(slots[..|slots| - 1]); }
  }

  // ---------------------------------------------------------------- what the loop does

  datatype Outcome = Running | Returned(code: nat) | Capped(code: nat)

  /** The slots and the exit code, how many returns of waitpid have been handled, how many exits each slot
      has had, and whether anything abnormal, or a ten-minute run before a crash, has been seen. */
  datatype Book = Book(slots: seq<Slot>, rc: nat, outcome: Outcome, waits: nat, handled: seq<nat>,
                       troubled: bool, rested: bool)

  /** The first slot with this pid; their number when there is none. */
  function SlotOf(slots: seq<Slot>, pid: int): (i: nat)
    ensures i <= |slots| && forall k :: 0 <= k < i ==> slots[k].pid != pid
    ensures i < |slots| ==> slots[i].pid == pid
  {
    if slots == [] || slots[0].pid == pid then 0 else
      var i := 1 + SlotOf(slots[1..], pid);
      assert forall k :: 0 < k < i ==> slots[k] == slots[1..][k - 1];
      i
  }

  predicate AllDown(slots: seq<Slot>) { forall i :: 0 <= i < |slots| ==> !Up(slots[i]) }

  predicate RanLong(s: Slot, w: Wait)
    requires w.Reaped?
  {
    Abnormal(w.status) && w.now - s.spawned >= HEALTHY_RUN_MS
  }

  /** The cap: a crash with ten restarts behind it and no long run since the last spawn. */
  predicate AtCap(s: Slot, w: Wait)
    requires w.Reaped?
  {
    Abnormal(w.status) && Rested(s, w.now).restarts >= MAX_RESPAWNS
  }

  /** The slot after its child was reaped: down for good after a clean exit or at the cap, else one rung up
      the ladder and respawned if the fork succeeds. */
  function AfterExit(s: Slot, w: Wait): Slot
    requires w.Reaped?
  {
    if !Abnormal(w.status) then s.(pid := -1) else
      var r := Rested(s, w.now);
      if r.restarts >= MAX_RESPAWNS then r.(pid := -1) else
        var up := r.(restarts := r.restarts + 1, backoff := Min(r.backoff * 2, BACKOFF_CAP));
        if w.forked < 0 then up.(pid := -1) else up.(pid := w.forked, spawned := w.later)
  }

  function CodeAfter(rc: nat, s: Slot, w: Wait): nat
    requires w.Reaped?
  {
    if !Abnormal(w.status) then rc else if !AtCap(s, w) && w.forked < 0 then 1 else StatusCode(w.status)
  }

  function Exited(b: Book, i: nat, w: Wait): Book
    requires w.Reaped? && i < |b.slots| == |b.handled|
  {
    var rc := CodeAfter(b.rc, b.slots[i], w);
    b.(slots := b.slots[i := AfterExit(b.slots[i], w)], rc := rc, waits := b.waits + 1,
       handled := b.handled[i := b.handled[i] + 1],
       outcome := if AtCap(b.slots[i], w) then Capped(if rc != 0 then rc else 1) else Running,
       troubled := b.troubled || Abnormal(w.status), rested := b.rested || RanLong(b.slots[i], w))
  }

  /** One turn of the loop: nothing once it has ended, the end when every child is down, else one return of
      waitpid handled. */
  function Turn(b: Book, w: Wait): Book
    requires |b.slots| == |b.handled|
  {
    if !b.outcome.Running? then b
    else if AllDown(b.slots) then b.(outcome := Returned(b.rc))
    else match w
      case Interrupted => b.(waits := b.waits + 1)
      case WaitFailed => b.(rc := 1, outcome := Returned(1), waits := b.waits + 1, troubled := true)
      case Reaped(pid, _, _, _, _) =>
        var i := SlotOf(b.slots, pid);
        if i == |b.slots| then b.(waits := b.waits + 1) else Exited(b, i, w)
  }

  function Turns(b: Book, waits: seq<Wait>): (r: Book)
    requires |b.slots| == |b.handled|
    ensures |r.slots| == |r.handled| == |b.slots|
  {
    if waits == [] then b else Turn(Turns(b, waits[..|waits| - 1]), waits[|waits| - 1])
  }

  /** The loop over a list of returns: its condition is looked at once more at the end. */
  function Watched(b: Book, waits: seq<Wait>): (r: Book)
    requires |b.slots| == |b.handled|
    ensures |r.slots| == |r.handled| == |b.slots|
  {
    var r := Turns(b, waits);
    if r.outcome.Running? && AllDown(r.slots) then r.(outcome := Returned(r.rc)) else r
  }

  /** All children just spawned. */
  function Spawned(pids: seq<int>, now: int): (b: Book)
    ensures |b.slots| == |b.handled| == |pids|
  {
    Book(seq(|pids|, i requires 0 <= i < |pids| => Slot(pids[i], 0, FIRST_BACKOFF, now)), 0, Running, 0,
         seq(|pids|, _ => 0), false, false)
  }

  class Rig {
    var slots: array<Slot>
    var rc: nat
    ghost var waits: nat
    ghost var handled: seq<nat>
    ghost var troubled: bool
    ghost var rested: bool

    ghost function View(outcome: Outcome): Book
      reads this, slots
    {
      Book(slots[..], rc, outcome, waits, handled, troubled, rested)
    }

    constructor (pids: seq<int>, now: int)
      ensures View(Running) == Spawned(pids, now) && fresh(slots)
    {
      slots := new Slot[|pids|](i requires 0 <= i < |pids| => Slot(pids[i], 0, FIRST_BACKOFF, now));
      rc, waits, troubled, rested := 0, 0, false, false;
      handled := seq(|pids|, _ => 0);
    }

    method LiveCount() returns (n: nat)
      ensures n == 0 <==> AllDown(slots[..])
    {
      n := 0;
      for i := 0 to slots.Length
        invariant n == 0 <==> forall k :: 0 <= k < i ==> !Up(slots[k])
      {
        if slots[i].pid > 0 { n := n + 1; }
      }
    }

    method FindSlot(pid: int) returns (idx: nat)
      ensures idx == SlotOf(slots[..], pid)
    {
      idx := 0;
      while idx < slots.Length && slots[idx].pid != pid
        invariant idx <= slots.Length && forall k :: 0 <= k < idx ==> slots[k].pid != pid
      {
        idx := idx + 1;
      }
    }

    /** One reaped child of ours. False when the respawn cap is hit: then nothing is respawned and the
        caller stops the whole rig. */
    method HandleExit(idx: nat, w: Wait) returns (go: bool)
      requires w.Reaped? && idx < slots.Length == |handled|
      modifies this`rc, this`waits, this`handled, this`troubled, this`rested, slots
      ensures go <==> !AtCap(old(slots[idx]), w)
      ensures Up(slots[idx]) <==> Abnormal(w.status) && go && w.forked > 0
      ensures Up(slots[idx]) ==> slots[idx].pid == w.forked && slots[idx].spawned == w.later
      ensures Abnormal(w.status) && go ==>
        slots[idx].restarts == if old(RanLong(slots[idx], w)) then 1 else old(slots[idx].restarts) + 1
      ensures !Abnormal(w.status) || !go ==> slots[idx].restarts == old(slots[idx].restarts)
      ensures View(if go then Running else Capped(if rc != 0 then rc else 1)) == Exited(old(View(Running)), idx, w)
    {
      ghost var before := slots[..];
      troubled, rested := troubled || Abnormal(w.status), rested || RanLong(slots[idx], w);
      waits, handled := waits + 1, handled[idx := handled[idx] + 1];
      var slot := slots[idx].(pid := -1);
      go := true;
      if Abnormal(w.status) {
        rc := StatusCode(w.status);
        if w.now - slot.spawned >= HEALTHY_RUN_MS {
          slot := slot.(restarts := 0, backoff := FIRST_BACKOFF);
        }
        if slot.restarts >= MAX_RESPAWNS {
          go := false;
        } else {
          slot := slot.(restarts := slot.restarts + 1, backoff := Min(slot.backoff * 2, BACKOFF_CAP));
          if w.forked < 0 {
            rc := 1;
          } else {
            slot := slot.(pid := w.forked, spawned := w.later);
          }
        }
      }
      slots[idx] := slot;
      assert slots[..] == before[idx := AfterExit(before[idx], w)];
    }

    /** The supervisor loop over the returns of waitpid, until every child is down, waitpid fails, or the
        cap is hit. */
    method Supervise(returned: seq<Wait>) returns (outcome: Outcome)
      requires |handled| == slots.Length
      modifies this`rc, this`waits, this`handled, this`troubled, this`rested, slots
      ensures View(outcome) == Watched(old(View(Running)), returned)
    {
      hide Exited, AllDown, Turns, Watched, AtCap, RanLong, Abnormal;
      ghost var start := View(Running);
      WatchedIs(start, returned);
      for k := 0 to |returned|
        invariant |handled| == slots.Length && View(Running) == Turns(start, returned[..k])
      {
        TurnsSnoc(start, returned, k);
        var live := LiveCount();
        if live == 0 {
          TurnsEnded(start, returned, k + 1);
          return Returned(rc);
        }
        match returned[k]
        case Interrupted => waits := waits + 1;
        case WaitFailed =>
          rc, troubled, waits := 1, true, waits + 1;
          TurnsEnded(start, returned, k + 1);
          return Returned(rc);
        case Reaped(pid, _, _, _, _) =>
          var idx := FindSlot(pid);
          if idx == slots.Length {
            waits := waits + 1;
          } else {
            var go := HandleExit(idx, returned[k]);
            if !go {
              TurnsEnded(start, returned, k + 1);
              return Capped(if rc != 0 then rc else 1);
            }
          }
      }
      assert returned[..|returned|] == returned;
      var live := LiveCount();
      outcome := if live == 0 then Returned(rc) else Running;
    }
  }

  lemma WatchedIs(b: Book, waits: seq<Wait>)
    requires |b.slots| == |b.handled|
    ensures Turns(b, waits[..0]) == b
    ensures var r := Turns(b, waits);
      Watched(b, waits) == if r.outcome.Running? && AllDown(r.slots) then r.(outcome := Returned(r.rc)) else r
  {
  }

  lemma TurnsSnoc(b: Book, waits: seq<Wait>, k: nat)
    requires |b.slots| == |b.handled| && k < |waits|
    ensures Turns(b, waits[..k + 1]) == Turn(Turns(b, waits[..k]), waits[k])
  {
    assert waits[..k + 1][..k] == waits[..k];
  }

  /** Once the loop has ended, further returns change nothing. */
  lemma {:induction false} TurnsEnded(b: Book, waits: seq<Wait>, k: nat)
    requires |b.slots| == |b.handled| && k <= |waits| && !Turns(b, waits[..k]).outcome.Running?
    ensures Turns(b, waits) == Turns(b, waits[..k]) == Watched(b, waits)
    decreases |waits| - k
  {
    if k == |waits| {
      assert waits[..k] == waits;
    } else {
      TurnsSnoc(b, waits, k);
      TurnsEnded(b, waits, k + 1);
    }
  }

  // ---------------------------------------------------------------- every run

  /** A pid waitpid or fork can return. */
  predicate IsWait(w: Wait) { w.Reaped? ==> w.pid > 0 && (w.forked > 0 || w.forked == -1) }

  predicate AreWaits(waits: seq<Wait>) { forall k :: 0 <= k < |waits| ==> IsWait(waits[k]) }

  /** Every slot is on the ladder; without a long run a slot's exits and what it has left never exceed
      eleven; the exit code is zero exactly while nothing went wrong. */
  predicate Fits(b: Book) {
    && |b.slots| == |b.handled|
    && (forall i :: 0 <= i < |b.slots| ==> OnLadder(b.slots[i]))
    && (!b.rested ==> forall i :: 0 <= i < |b.slots| ==> b.handled[i] + Left(b.slots[i]) <= MAX_RESPAWNS + 1)
    && (b.rc == 0 <==> !b.troubled)
    && (b.outcome.Capped? ==> b.troubled && b.outcome.code == b.rc)
    && (b.outcome.Returned? ==> b.outcome.code == b.rc && (AllDown(b.slots) || b.troubled))
  }

  lemma SpawnedFits(pids: seq<int>, now: int)
    ensures Fits(Spawned(pids, now))
  {
    DelayDoubles(0);
  }

  /** One exit: the slot stays on the ladder and, short of a long run, has less left than before. */
  lemma AfterExitLeft(s: Slot, w: Wait)
    requires OnLadder(s) && Up(s) && w.Reaped? && IsWait(w)
    ensures OnLadder(AfterExit(s, w))
    ensures !RanLong(s, w) ==> Left(AfterExit(s, w)) < Left(s)
  {
    DelayDoubles(Rested(s, w.now).restarts);
    hide Delay;
  }

  lemma ExitedFits(b: Book, i: nat, w: Wait)
    requires Fits(b) && w.Reaped? && IsWait(w) && i < |b.slots| && Up(b.slots[i])
    ensures Fits(Exited(b, i, w))
    ensures !Exited(b, i, w).rested ==> TotalLeft(Exited(b, i, w).slots) < TotalLeft(b.slots)
  {
    AfterExitLeft(b.slots[i], w);
    TotalUpdate(b.slots, i, AfterExit(b.slots[i], w));
    hide OnLadder, Left, AfterExit, TotalLeft, RanLong;
  }

  lemma TurnFits(b: Book, w: Wait)
    requires Fits(b) && IsWait(w)
    ensures Fits(Turn(b, w))
  {
    if w.Reaped? && SlotOf(b.slots, w.pid) < |b.slots| { ExitedFits(b, SlotOf(b.slots, w.pid), w); }
    hide Exited, OnLadder, Left;
  }

  lemma {:induction false} TurnsFit(b: Book, waits: seq<Wait>)
    requires Fits(b) && AreWaits(waits)
    ensures Fits(Turns(b, waits))
  {
    if waits != [] {
      TurnsFit(b, waits[..|waits| - 1]);
      TurnFits(Turns(b, waits[..|waits| - 1]), waits[|waits| - 1]);
    }
  }

  /** Over every list of returns: restarts never exceed ten and the delay is always min(60, 5 * 2^restarts);
      without a ten-minute run no slot has more than eleven exits; a capped rig exits non-zero; an exit code
      of zero means nothing went wrong and every child is down. */
  lemma LadderHolds(pids: seq<int>, now: int, waits: seq<Wait>)
    requires AreWaits(waits)
    ensures var r := Watched(Spawned(pids, now), waits);
      && (forall i :: 0 <= i < |pids| ==> r.slots[i].restarts <= MAX_RESPAWNS && r.slots[i].backoff == Delay(r.slots[i].restarts))
      && (!r.rested ==> forall i :: 0 <= i < |pids| ==> r.handled[i] <= MAX_RESPAWNS + 1)
      && (r.outcome.Capped? ==> r.outcome.code != 0)
      && (r.outcome.Returned? ==> (r.outcome.code == 0 <==> !r.troubled) && (r.outcome.code == 0 ==> AllDown(r.slots)))
  {
    SpawnedFits(pids, now);
    TurnsFit(Spawned(pids, now), waits);
    hide Turns, Delay;
  }

  // ---------------------------------------------------------------- what the books record

  /** This return is handled as the exit of slot `i`. */
  predicate ReapsSlot(b: Book, w: Wait, i: nat) {
    b.outcome.Running? && !AllDown(b.slots) && w.Reaped? && i == SlotOf(b.slots, w.pid) < |b.slots|
  }

  predicate IsTrouble(b: Book, w: Wait) {
    b.outcome.Running? && !AllDown(b.slots) &&
      (w.WaitFailed? || (w.Reaped? && SlotOf(b.slots, w.pid) < |b.slots| && Abnormal(w.status)))
  }

  predicate IsLongRun(b: Book, w: Wait) {
    b.outcome.Running? && !AllDown(b.slots) &&
      w.Reaped? && SlotOf(b.slots, w.pid) < |b.slots| && RanLong(b.slots[SlotOf(b.slots, w.pid)], w)
  }

  /** How many of the returns are exits of slot `i`. */
  function ExitsOf(b: Book, waits: seq<Wait>, i: nat): nat
    requires |b.slots| == |b.handled|
  {
    if waits == [] then 0 else
      var front, w := waits[..|waits| - 1], waits[|waits| - 1];
      ExitsOf(b, front, i) + One(ReapsSlot(Turns(b, front), w, i))
  }

  /** How many of the returns are handled at all. */
  function Consumed(b: Book, waits: seq<Wait>): (n: nat)
    requires |b.slots| == |b.handled|
    ensures n <= |waits|
  {
    if waits == [] then 0 else
      var r := Turns(b, waits[..|waits| - 1]);
      Consumed(b, waits[..|waits| - 1]) + One(r.outcome.Running? && !AllDown(r.slots))
  }

  lemma TurnCounts(b: Book, w: Wait, i: nat)
    requires |b.slots| == |b.handled| && i < |b.slots|
    ensures Turn(b, w).handled[i] == b.handled[i] + One(ReapsSlot(b, w, i))
    ensures Turn(b, w).waits == b.waits + One(b.outcome.Running? && !AllDown(b.slots))
  {
  }

  lemma TurnFlags(b: Book, w: Wait)
    requires |b.slots| == |b.handled|
    ensures Turn(b, w).troubled == (b.troubled || IsTrouble(b, w))
    ensures Turn(b, w).rested == (b.rested || IsLongRun(b, w))
  {
  }

  /** Per slot, the exits counted are the returns that reaped it; the returns handled are all of them while
      the loop runs. */
  lemma {:induction false} ExitsCounted(b: Book, waits: seq<Wait>, i: nat)
    requires |b.slots| == |b.handled| && i < |b.slots|
    ensures var r := Watched(b, waits);
      && r.handled[i] == b.handled[i] + ExitsOf(b, waits, i)
      && r.waits == b.waits + Consumed(b, waits)
      && (r.outcome.Running? ==> r.waits == b.waits + |waits|)
  {
    if waits != [] {
      var front, w := waits[..|waits| - 1], waits[|waits| - 1];
      ExitsCounted(b, front, i);
      TurnCounts(Turns(b, front), w, i);
    }
  }

  datatype Cause = Trouble | LongRun | Cap | Failure

  /** What makes a return remarkable, where it is handled. */
  predicate Is(c: Cause, b: Book, w: Wait) {
    match c
    case Trouble => IsTrouble(b, w)
    case LongRun => IsLongRun(b, w)
    case Cap => HitsCap(b, w)
    case Failure => Fails(b, w)
  }

  predicate IsAt(c: Cause, b: Book, waits: seq<Wait>, k: nat)
    requires |b.slots| == |b.handled|
  {
    k < |waits| && Is(c, Turns(b, waits[..k]), waits[k])
  }

  predicate Seen(c: Cause, b: Book, waits: seq<Wait>)
    requires |b.slots| == |b.handled|
  {
    waits != [] && (Seen(c, b, waits[..|waits| - 1]) || Is(c, Turns(b, waits[..|waits| - 1]), waits[|waits| - 1]))
  }

  lemma {:induction false} SeenIff(c: Cause, b: Book, waits: seq<Wait>)
    requires |b.slots| == |b.handled|
    ensures Seen(c, b, waits) <==> exists k: nat :: IsAt(c, b, waits, k)
  {
    hide Turns, Is;
    if waits != [] {
      var n := |waits| - 1;
      SeenIff(c, b, waits[..n]);
      forall k: nat | k < n ensures IsAt(c, b, waits[..n], k) <==> IsAt(c, b, waits, k) {
        assert waits[..n][..k] == waits[..k];
      }
      assert IsAt(c, b, waits, n) <==> Is(c, Turns(b, waits[..n]), waits[n]);
    }
  }

  lemma {:induction false} FlagsAreSeen(b: Book, waits: seq<Wait>)
    requires |b.slots| == |b.handled|
    ensures Turns(b, waits).troubled <==> b.troubled || Seen(Trouble, b, waits)
    ensures Turns(b, waits).rested <==> b.rested || Seen(LongRun, b, waits)
  {
    if waits != [] {
      var front := waits[..|waits| - 1];
      FlagsAreSeen(b, front);
      TurnFlags(Turns(b, front), waits[|waits| - 1]);
      hide Turn, IsTrouble, IsLongRun;
    }
  }

  /** `troubled` and `rested` are up exactly when some return handled so far was trouble, or a crash after a
      long run. */
  lemma FlagsRecord(b: Book, waits: seq<Wait>)
    requires |b.slots| == |b.handled|
    ensures Watched(b, waits).troubled <==> b.troubled || exists k: nat :: IsAt(Trouble, b, waits, k)
    ensures Watched(b, waits).rested <==> b.rested || exists k: nat :: IsAt(LongRun, b, waits, k)
  {
    FlagsAreSeen(b, waits);
    SeenIff(Trouble, b, waits);
    SeenIff(LongRun, b, waits);
    hide Turns, Seen, IsAt;
  }

  lemma {:induction false} EndIsSeen(b: Book, waits: seq<Wait>)
    requires |b.slots| == |b.handled| && b.outcome.Running?
    ensures var r := Turns(b, waits);
      && (r.outcome.Capped? <==> Seen(Cap, b, waits))
      && (r.outcome.Returned? ==> AllDown(r.slots) || Seen(Failure, b, waits))
      && (!r.outcome.Running? <== Seen(Failure, b, waits))
  {
    if waits != [] {
      var front := waits[..|waits| - 1];
      EndIsSeen(b, front);
      TurnEnds(Turns(b, front), waits[|waits| - 1]);
      hide Turn, HitsCap, Fails;
    }
  }

  /** Why the loop ended: it was capped exactly when some return hit the cap; it returned because some wait
      failed, or because every child is down. */
  lemma EndHasACause(b: Book, waits: seq<Wait>)
    requires |b.slots| == |b.handled| && b.outcome.Running?
    ensures var r := Watched(b, waits);
      && (r.outcome.Capped? <==> exists k: nat :: IsAt(Cap, b, waits, k))
      && (r.outcome.Returned? ==> AllDown(r.slots) || exists k: nat :: IsAt(Failure, b, waits, k))
  {
    EndIsSeen(b, waits);
    SeenIff(Cap, b, waits);
    SeenIff(Failure, b, waits);
    hide Turns, Seen, IsAt, AllDown;
  }

  predicate HitsCap(b: Book, w: Wait) {
    b.outcome.Running? && !AllDown(b.slots) &&
      w.Reaped? && SlotOf(b.slots, w.pid) < |b.slots| && AtCap(b.slots[SlotOf(b.slots, w.pid)], w)
  }

  predicate Fails(b: Book, w: Wait) { b.outcome.Running? && !AllDown(b.slots) && w.WaitFailed? }

  lemma TurnEnds(b: Book, w: Wait)
    requires |b.slots| == |b.handled|
    ensures var r := Turn(b, w);
      && (!b.outcome.Running? ==> r == b)
      && (b.outcome.Running? ==> (r.outcome.Capped? <==> HitsCap(b, w)))
      && (b.outcome.Running? && r.outcome.Returned? ==> AllDown(r.slots) || Fails(b, w))
      && (Fails(b, w) || HitsCap(b, w) ==> b.outcome.Running? && !r.outcome.Running?)
  {
  }

  // ---------------------------------------------------------------- where a slot ends up

  /** What one exit makes of its slot: up again exactly after a crash short of the cap whose fork gave a pid,
      and then as the fork left it; one rung up the ladder, or on its first after a long run. */
  lemma AfterExitIs(s: Slot, w: Wait)
    requires w.Reaped?
    ensures var t := AfterExit(s, w);
      && (Up(t) <==> Abnormal(w.status) && !AtCap(s, w) && w.forked > 0)
      && (Up(t) ==> t.pid == w.forked && t.spawned == w.later)
      && (t.restarts == if !Abnormal(w.status) || AtCap(s, w) then s.restarts else if RanLong(s, w) then 1 else s.restarts + 1)
  {
  }

  /** Return `k` is handled as an exit of slot `i`. */
  predicate ExitAt(b: Book, waits: seq<Wait>, i: nat, k: nat)
    requires |b.slots| == |b.handled|
  {
    k < |waits| && ReapsSlot(Turns(b, waits[..k]), waits[k], i)
  }

  /** ... and none after it. */
  ghost predicate IsLastExit(b: Book, waits: seq<Wait>, i: nat, k: nat)
    requires |b.slots| == |b.handled|
  {
    ExitAt(b, waits, i, k) && forall m: nat :: ExitAt(b, waits, i, m) ==> m <= k
  }

  /** The slot a return finds when it is handled. */
  function SlotAt(b: Book, waits: seq<Wait>, i: nat, k: nat): Slot
    requires |b.slots| == |b.handled| && i < |b.slots| && k < |waits|
  {
    Turns(b, waits[..k]).slots[i]
  }

  lemma ExitSnoc(b: Book, front: seq<Wait>, w: Wait, i: nat, k: nat)
    requires |b.slots| == |b.handled|
    ensures ExitAt(b, front + [w], i, k) <==>
      if k < |front| then ExitAt(b, front, i, k) else k == |front| && ReapsSlot(Turns(b, front), w, i)
  {
    if k < |front| { assert (front + [w])[..k] == front[..k]; }
    assert (front + [w])[..|front|] == front;
    hide Turns, ReapsSlot;
  }

  lemma TurnSlot(b: Book, w: Wait, i: nat)
    requires |b.slots| == |b.handled| && i < |b.slots|
    ensures Turn(b, w).slots[i] == if ReapsSlot(b, w, i) then AfterExit(b.slots[i], w) else b.slots[i]
  {
    hide AfterExit;
  }

  /** A slot is as its last exit left it, or as it was spawned when it has had none. */
  lemma {:induction false} SlotIsLastExit(b: Book, waits: seq<Wait>, i: nat) returns (k: nat)
    requires |b.slots| == |b.handled| && i < |b.slots|
    ensures if IsLastExit(b, waits, i, k) then Turns(b, waits).slots[i] == AfterExit(SlotAt(b, waits, i, k), waits[k])
            else (forall m: nat :: !ExitAt(b, waits, i, m)) && Turns(b, waits).slots[i] == b.slots[i]
  {
    if waits == [] {
      k := 0;
    } else {
      var front, w := waits[..|waits| - 1], waits[|waits| - 1];
      assert waits == front + [w];
      var t := Turns(b, front);
      TurnSlot(t, w, i);
      k := SlotIsLastExit(b, front, i);
      LastSnoc(b, front, w, i, k);
      hide AfterExit, ReapsSlot, ExitAt, Turn, IsLastExit;
      if ReapsSlot(t, w, i) {
        k := |front|;
        assert waits[..k] == front;
      } else if IsLastExit(b, front, i, k) {
        LastIsInside(b, front, i, k);
        assert waits[..k] == front[..k];
      }
    }
  }

  /** One more return: the last exit is this one, or the one before stays the last, or there is still none. */
  lemma LastSnoc(b: Book, front: seq<Wait>, w: Wait, i: nat, k: nat)
    requires |b.slots| == |b.handled|
    ensures ReapsSlot(Turns(b, front), w, i) ==> IsLastExit(b, front + [w], i, |front|)
    ensures !ReapsSlot(Turns(b, front), w, i) ==>
      (IsLastExit(b, front + [w], i, k) <==> IsLastExit(b, front, i, k)) &&
      ((forall m: nat :: !ExitAt(b, front, i, m)) ==> forall m: nat :: !ExitAt(b, front + [w], i, m))
  {
    hide ReapsSlot, Turns;
    forall m: nat
      ensures ExitAt(b, front + [w], i, m) <==>
        if m < |front| then ExitAt(b, front, i, m) else m == |front| && ReapsSlot(Turns(b, front), w, i)
    {
      ExitSnoc(b, front, w, i, m);
    }
    assert forall m: nat :: ExitAt(b, front, i, m) ==> m < |front|;
    hide ExitAt;
  }

  lemma LastIsInside(b: Book, waits: seq<Wait>, i: nat, k: nat)
    requires |b.slots| == |b.handled| && IsLastExit(b, waits, i, k)
    ensures k < |waits|
  {
  }

  /** Nobody stays down without a cause: over every list of returns a slot whose child was spawned is down at
      the end if and only if its last exit was clean, at the cap, or followed by a fork that failed. */
  lemma DownHasACause(pids: seq<int>, now: int, waits: seq<Wait>, i: nat) returns (k: nat)
    requires i < |pids| && pids[i] > 0
    ensures var b := Spawned(pids, now);
      !Up(Watched(b, waits).slots[i]) <==>
        IsLastExit(b, waits, i, k) && k < |waits| && waits[k].Reaped? &&
        (!Abnormal(waits[k].status) || AtCap(SlotAt(b, waits, i, k), waits[k]) || waits[k].forked <= 0)
  {
    var b := Spawned(pids, now);
    k := SlotIsLastExit(b, waits, i);
    if IsLastExit(b, waits, i, k) {
      LastIsInside(b, waits, i, k);
      assert waits[k].Reaped?;
      AfterExitIs(SlotAt(b, waits, i, k), waits[k]);
    }
    hide AfterExit, ExitAt, Turns, AtCap;
  }

  // ---------------------------------------------------------------- which exit the code reports

  /** The exit code after a return that was trouble. */
  function TroubleCode(b: Book, w: Wait): nat
    requires IsTrouble(b, w)
  {
    if w.WaitFailed? then 1
    else if w.forked < 0 && !AtCap(b.slots[SlotOf(b.slots, w.pid)], w) then 1
    else if w.status.Signal? then 128 + w.status.number else w.status.code
  }

  /** The exit code is that of the last trouble: 1 for a failed wait or fork, else the child's own status,
      128 and the signal's number for a signal. */
  lemma {:induction false} CodeIsLastTrouble(b: Book, waits: seq<Wait>) returns (k: nat)
    requires |b.slots| == |b.handled|
    ensures if IsAt(Trouble, b, waits, k)
      then (forall m: nat :: IsAt(Trouble, b, waits, m) ==> m <= k) &&
        Watched(b, waits).rc == TroubleCode(Turns(b, waits[..k]), waits[k])
      else (forall m: nat :: !IsAt(Trouble, b, waits, m)) && Watched(b, waits).rc == b.rc
  {
    if waits == [] {
      k := 0;
    } else {
      var front, w := waits[..|waits| - 1], waits[|waits| - 1];
      assert waits == front + [w];
      var t := Turns(b, front);
      TurnCode(t, w);
      k := CodeIsLastTrouble(b, front);
      hide IsTrouble, Turn, TroubleCode;
      forall m: nat ensures IsAt(Trouble, b, waits, m) <==>
        if m < |front| then IsAt(Trouble, b, front, m) else m == |front| && IsTrouble(t, w) {
        if m < |front| { assert waits[..m] == front[..m]; }
        assert waits[..|front|] == front;
      }
      if IsTrouble(t, w) {
        k := |front|;
        assert waits[..k] == front;
      } else if IsAt(Trouble, b, front, k) {
        assert waits[..k] == front[..k];
      }
    }
  }

  lemma TurnCode(b: Book, w: Wait)
    requires |b.slots| == |b.handled|
    ensures Turn(b, w).rc == if IsTrouble(b, w) then TroubleCode(b, w) else b.rc
  {
  }

  /** Without a long run every handled exit makes the measure fall, so the loop ends. */
  lemma ExitsShrink(b: Book, w: Wait, i: nat)
    requires Fits(b) && IsWait(w) && ReapsSlot(b, w, i) && !Turn(b, w).rested
    ensures TotalLeft(Turn(b, w).slots) < TotalLeft(b.slots)
  {
    ExitedFits(b, i, w);
    hide TotalLeft, Exited, Fits;
  }
}
