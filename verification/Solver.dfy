/** The ENC_RC solve loop, and the contract a solve call offers the pool loop. */
module Solver {
  import Arith
  import opened Cursor

  /** What one nonce yields: the seeds may fail, the episode may be malformed, or there is a digest. */
  datatype Trial = BadSeeds | NullDigest | Digest(value: nat)

  predicate Loses(t: Trial, target: nat) { t.Digest? && t.value > target }

  predicate Wins(t: Trial, target: nat) { t.Digest? && t.value <= target }

  const LAST_NONCE: Word := 0xFFFF_FFFF_FFFF_FFFF

  /** Why a solve that spent `attempted` nonces without a winner ended: the budget or the nonces ran out,
      the flag was up, or the next nonce has no digest. */
  predicate Stopped(nonce0: Word, maxTries: nat, attempted: nat, trial: nat -> Trial, aborts: nat -> bool) {
    attempted == maxTries || nonce0 + attempted > LAST_NONCE || aborts(attempted) || !trial(nonce0 + attempted).Digest?
  }

  /** The nonces from `from` up to, not including, `to`. */
  function Span(from: nat, to: nat): (s: set<nat>)
    ensures forall n :: n in s <==> from <= n < to
  {
    if from >= to then {} else Span(from, to - 1) + {to - 1}
  }

  /** `SolveMatMulRCEpisode`: nonces upward from the block's own, at most `maxTries` of them. A winner is
      the first nonce whose digest meets the target; a nonce is passed over only if it loses. `aborts` is
      what the abort flag reads before each attempt; `tried` collects the nonces given a trial. */
  method SolveEpisode(nonce0: Word, maxTries: nat, target: nat, trial: nat -> Trial, aborts: nat -> bool)
    returns (solved: bool, nonce: Word, tries: nat, ghost tried: set<nat>)
    ensures tries <= maxTries && nonce0 <= nonce
    ensures forall n :: nonce0 <= n < nonce0 + (maxTries - tries) ==> Loses(trial(n), target)
    ensures forall k :: 0 <= k < maxTries - tries ==> !aborts(k)
    ensures solved ==> Wins(trial(nonce), target) && nonce == nonce0 + (maxTries - tries) && tries > 0
    ensures solved ==> !aborts(maxTries - tries) && tried == Span(nonce0, nonce + 1)
    ensures !solved ==> Stopped(nonce0, maxTries, maxTries - tries, trial, aborts)
    ensures !solved ==> nonce == nonce0 + (maxTries - tries) || nonce == LAST_NONCE == nonce0 + (maxTries - tries) - 1
    ensures tries == 0 ==> tried == Span(nonce0, nonce0 + maxTries)
    ensures (forall n :: trial(n).Digest?) && (forall k :: !aborts(k)) && nonce0 + maxTries <= LAST_NONCE ==>
      (solved <==> exists n :: nonce0 <= n < nonce0 + maxTries && Wins(trial(n), target))
  {
    nonce, tries, tried := nonce0, maxTries, {};
    while tries > 0
      invariant tries <= maxTries && nonce == nonce0 + (maxTries - tries)
      invariant forall n :: nonce0 <= n < nonce ==> Loses(trial(n), target)
      invariant forall k :: 0 <= k < maxTries - tries ==> !aborts(k)
      invariant tried == Span(nonce0, nonce)
    {
      if aborts(maxTries - tries) { return false, nonce, tries, tried; }
      var t := trial(nonce);
      tried := tried + {nonce};
      if t.BadSeeds? || t.NullDigest? { return false, nonce, tries, tried; }
      if t.value <= target { return true, nonce, tries, tried; }
      tries := tries - 1;
      if nonce == LAST_NONCE { return false, nonce, tries, tried; }
      nonce := nonce + 1;
    }
    solved := false;
  }

  // ---------------------------------------------------------------- the poolcore worker's windows

  ghost predicate Undisturbed(trial: nat -> Trial, aborts: nat -> bool) {
    (forall n :: trial(n).Digest?) && (forall k :: !aborts(k))
  }

  /** One window of the poolcore episode worker. The next one starts one past the nonce the solver stopped
      at. If some nonce of the window wins, that nonce was the last tried; if none does, it was not tried:
      the window skips it. */
  method EpisodeWindow(cursor: Word, maxTries: nat, target: nat, trial: nat -> Trial, aborts: nat -> bool)
    returns (won: bool, nonce: Word, next: Word, ghost tried: set<nat>)
    ensures nonce < LAST_NONCE ==> next == nonce + 1
    ensures nonce == LAST_NONCE ==> next == 0
    ensures won ==> Wins(trial(nonce), target) && tried == Span(cursor, nonce + 1)
    ensures Undisturbed(trial, aborts) && cursor + maxTries < LAST_NONCE ==>
      if exists n :: cursor <= n < cursor + maxTries && Wins(trial(n), target)
      then won && tried == Span(cursor, next)
      else !won && next == cursor + maxTries + 1 && tried == Span(cursor, next - 1)
  {
    var tries;
    won, nonce, tries, tried := SolveEpisode(cursor, maxTries, target, trial, aborts);
    next := (nonce + 1) % (LAST_NONCE + 1);
  }

  /** The nonces `k` windows without a winner try: all but the last of every `maxTries + 1`. */
  function Tried(start: nat, maxTries: nat, k: nat): set<nat> {
    if k == 0 then {} else
      var from := start + (k - 1) * (maxTries + 1);
      Tried(start, maxTries, k - 1) + if from >= 0 then Span(from, from + maxTries) else {}
  }

  lemma WindowFits(start: nat, step: nat, k: nat)
    ensures start + k * step >= start && start + (k + 1) * step == start + k * step + step
  {
  }

  /** Nonce `n` lies in window `j`; its offset there decides. */
  lemma {:induction false} TriedIff(start: nat, maxTries: nat, k: nat, n: nat)
    requires start <= n < start + k * (maxTries + 1)
    ensures n in Tried(start, maxTries, k) <==> (n - start) % (maxTries + 1) != maxTries
  {
    var step := maxTries + 1;
    if k > 0 {
      var from := start + (k - 1) * step;
      WindowFits(start, step, k - 1);
      TriedBelow(start, maxTries, k - 1, n);
      if n < from {
        TriedIff(start, maxTries, k - 1, n);
      } else {
        Offset(n - start, k - 1, n - from, step);
      }
    }
  }

  lemma Offset(x: int, q: int, r: int, step: int)
    requires x == q * step + r && 0 <= r < step
    ensures x % step == r
  {
    Arith.DivModUnique(x, q, r, step);
  }

  lemma {:induction false} TriedBelow(start: nat, maxTries: nat, k: nat, n: nat)
    ensures n in Tried(start, maxTries, k) ==> start <= n < start + k * (maxTries + 1)
  {
    if k > 0 {
      WindowFits(start, maxTries + 1, k - 1);
      TriedBelow(start, maxTries, k - 1, n);
    }
  }

  /** The worker over `k` windows in which nothing wins and nobody interferes: of the nonces it walks over,
      exactly the last of every `maxTries + 1` is never tried. */
  method EpisodeWorker(start: Word, k: nat, maxTries: nat, target: nat, trial: nat -> Trial, aborts: nat -> bool)
    returns (cursor: Word, ghost tried: set<nat>)
    requires Undisturbed(trial, aborts) && start + k * (maxTries + 1) <= LAST_NONCE
    requires forall n :: start <= n < start + k * (maxTries + 1) ==> Loses(trial(n), target)
    ensures cursor == start + k * (maxTries + 1)
    ensures forall n :: start <= n < cursor ==> (n in tried <==> (n - start) % (maxTries + 1) != maxTries)
    ensures forall n :: n in tried ==> start <= n < cursor
  {
    cursor, tried := start, {};
    for j := 0 to k
      invariant cursor == start + j * (maxTries + 1) && tried == Tried(start, maxTries, j)
    {
      WindowFits(start, maxTries + 1, j);
      Mono(start, maxTries + 1, j + 1, k);
      var won, nonce;
      ghost var more;
      won, nonce, cursor, more := EpisodeWindow(cursor, maxTries, target, trial, aborts);
      tried := tried + more;
    }
    forall n | start <= n < cursor ensures n in tried <==> (n - start) % (maxTries + 1) != maxTries {
      TriedIff(start, maxTries, k, n);
    }
    forall n | n in tried ensures start <= n < cursor { TriedBelow(start, maxTries, k, n); }
  }

  lemma Mono(start: nat, step: nat, j: nat, k: nat)
    requires j <= k
    ensures start + j * step <= start + k * step
  {
  }

  /** With the worker's window of a million nonces: from 0 on, nonce 1 000 000 is passed over and the scan
      resumes at 1 000 001. */
  method FirstSkipped(target: nat, trial: nat -> Trial, aborts: nat -> bool) returns (cursor: Word, ghost tried: set<nat>)
    requires Undisturbed(trial, aborts) && forall n :: 0 <= n < 2_000_002 ==> Loses(trial(n), target)
    ensures cursor == 2_000_002 && 999_999 in tried && 1_000_000 !in tried && 1_000_001 in tried
  {
    cursor, tried := EpisodeWorker(0, 2, 1_000_000, target, trial, aborts);
  }

  // ---------------------------------------------------------------- the contract

  /** What became of a share put forward: its send failed, it went out, or it went out and the process was
      killed before the cursor table was saved. */
  datatype Fate = Failed | Sent | SentThenKilled

  /** One share handed to the sink or returned by the solver; `superseded` when the connection's job has
      moved to another block by then. */
  datatype Hit = Hit(nonce: Word, ntime: nat, superseded: bool, fate: Fate)

  datatype Outcome = Exhausted | Returned(winner: Hit)

  /** One solve call: the shares sunk in order, how many nonces were spent, how it ended. */
  datatype Pass = Pass(hits: seq<Hit>, attempted: nat, outcome: Outcome)

  /** The contract of a solve from `base`: upward, in order, the winner last. */
  predicate Ordered(p: Pass, base: Word) {
    && (forall k :: 0 <= k < |p.hits| ==> base <= p.hits[k].nonce)
    && (forall i, j :: 0 <= i < j < |p.hits| ==> p.hits[i].nonce < p.hits[j].nonce)
    && (p.outcome.Returned? ==> IsLast(p.outcome.winner.nonce, p.hits, base))
  }

  predicate IsLast(nonce: Word, hits: seq<Hit>, base: Word) {
    base <= nonce && forall k :: 0 <= k < |hits| ==> hits[k].nonce < nonce
  }

  /** The episode solver, which sinks nothing, as a solve call: it meets the contract, and the pass says
      what the solve did. */
  method SolvePass(nonce0: Word, maxTries: nat, target: nat, trial: nat -> Trial, aborts: nat -> bool, ntime: nat,
                   superseded: bool, fate: Fate)
    returns (p: Pass)
    ensures Ordered(p, nonce0) && p.hits == [] && p.attempted <= maxTries
    ensures forall n :: nonce0 <= n < nonce0 + p.attempted ==> Loses(trial(n), target)
    ensures forall k :: 0 <= k < p.attempted ==> !aborts(k)
    ensures match p.outcome
      case Returned(w) =>
        w.nonce == nonce0 + p.attempted && w.ntime == ntime && w.superseded == superseded && w.fate == fate &&
        Wins(trial(w.nonce), target) && p.attempted < maxTries && !aborts(p.attempted)
      case Exhausted => Stopped(nonce0, maxTries, p.attempted, trial, aborts)
  {
    var solved, nonce, tries, _ := SolveEpisode(nonce0, maxTries, target, trial, aborts);
    p := Pass([], maxTries - tries, if solved then Returned(Hit(nonce, ntime, superseded, fate)) else Exhausted);
  }
}
