/** The history of the pool loop: what went out, what was refused, where solves started. */
module PoolHistory {
  import opened Cursor

  /** What the loop does that can be seen: a solve starts, a share is put forward (and reaches the socket
      or not) or refused as already submitted, a range drops out of the cursor table, the process is killed
      and started again. */
  datatype Event =
    | Scan(range: Word, base: Word)
    | Attempt(range: Word, height: int, nonce: Word, ntime: nat, sent: bool)
    | Refused(range: Word, height: int, nonce: Word, ntime: nat)
    | Dropped(range: Word)
    | Restarted

  // ---------------------------------------------------------------- no share is put forward twice

  /** No attempt after `i` was for another block, in the same process. */
  predicate SameBlockSince(log: seq<Event>, i: nat)
    requires i < |log| && log[i].Attempt?
  {
    forall k :: i < k < |log| ==> !log[k].Restarted? && (log[k].Attempt? ==> log[k].height == log[i].height)
  }

  predicate SameShare(a: Event, b: Event) {
    a.Attempt? && b.Attempt? && a.nonce == b.nonce && a.ntime == b.ntime
  }

  /** Two attempts at one (nonce, ntime) pair have a change of block height, or a restart, between them. */
  predicate AttemptedOnce(log: seq<Event>) {
    forall i, j :: 0 <= i < j < |log| && SameShare(log[i], log[j]) ==> !SameBlockSince(log[..j + 1], i)
  }

  /** Entry `i` is an attempt at this pair, and no change of height or restart has come since. */
  predicate IsLive(log: seq<Event>, i: nat, nonce: nat, ntime: nat) {
    i < |log| && log[i].Attempt? && log[i].nonce == nonce && log[i].ntime == ntime && SameBlockSince(log, i)
  }

  /** The filter holds exactly the pairs attempted since the last change of height or restart. */
  ghost predicate Remembers(log: seq<Event>, keys: set<(nat, nat)>, block: int) {
    && (forall nonce: nat, ntime: nat :: (nonce, ntime) in keys <==> exists i: nat :: IsLive(log, i, nonce, ntime))
    && (forall i: nat, nonce: nat, ntime: nat :: IsLive(log, i, nonce, ntime) ==> log[i].height == block)
  }

  lemma SinceShorter(log: seq<Event>, e: Event, i: nat)
    requires i < |log| && log[i].Attempt?
    ensures SameBlockSince(log + [e], i)
       <==> SameBlockSince(log, i) && !e.Restarted? && (e.Attempt? ==> e.height == log[i].height)
  {
    var next := log + [e];
    assert next[|log|] == e;
    assert forall k :: 0 <= k < |log| ==> next[k] == log[k];
  }

  /** Which pairs are live after one more event. */
  lemma LiveSnoc(log: seq<Event>, e: Event, i: nat, nonce: nat, ntime: nat)
    ensures IsLive(log + [e], i, nonce, ntime) <==>
      if i < |log| then IsLive(log, i, nonce, ntime) && !e.Restarted? && (e.Attempt? ==> e.height == log[i].height)
      else i == |log| && e.Attempt? && e.nonce == nonce && e.ntime == ntime
  {
    if i < |log| && log[i].Attempt? { SinceShorter(log, e, i); }
  }

  lemma OnceSnoc(log: seq<Event>, e: Event)
    requires AttemptedOnce(log)
    requires e.Attempt? ==> forall i: nat :: IsLive(log, i, e.nonce, e.ntime) ==> log[i].height != e.height
    ensures AttemptedOnce(log + [e])
  {
    var next := log + [e];
    forall i, j | 0 <= i < j < |next| && SameShare(next[i], next[j]) ensures !SameBlockSince(next[..j + 1], i) {
      if j < |log| {
        assert next[..j + 1] == log[..j + 1];
      } else {
        assert next[..j + 1] == next;
        SinceShorter(log, e, i);
        assert IsLive(log, i, e.nonce, e.ntime) || !SameBlockSince(log, i);
      }
    }
  }

  /** Putting forward a share the filter does not know. */
  lemma AttemptKeeps(log: seq<Event>, keys: set<(nat, nat)>, block: int, e: Event)
    requires AttemptedOnce(log) && Remembers(log, keys, block) && e.Attempt?
    requires e.height == block ==> (e.nonce, e.ntime) !in keys
    ensures AttemptedOnce(log + [e])
    ensures Remembers(log + [e], (if e.height == block then keys else {}) + {(e.nonce, e.ntime)}, e.height)
  {
    forall i: nat | IsLive(log, i, e.nonce, e.ntime) ensures log[i].height != e.height {
      assert (e.nonce, e.ntime) in keys;
    }
    OnceSnoc(log, e);
    var next, keys' := log + [e], (if e.height == block then keys else {}) + {(e.nonce, e.ntime)};
    forall i: nat, nonce: nat, ntime: nat
      ensures IsLive(next, i, nonce, ntime) <==>
        if i < |log| then IsLive(log, i, nonce, ntime) && e.height == block
        else i == |log| && e.nonce == nonce && e.ntime == ntime
    {
      LiveSnoc(log, e, i, nonce, ntime);
    }
    hide IsLive;
    forall nonce: nat, ntime: nat
      ensures (nonce, ntime) in keys' <==> exists i: nat :: IsLive(next, i, nonce, ntime)
    {
      if nonce == e.nonce && ntime == e.ntime {
        assert IsLive(next, |log|, nonce, ntime);
      } else if (nonce, ntime) in keys && e.height == block {
        var i: nat :| IsLive(log, i, nonce, ntime);
        LiveInLog(log, i, nonce, ntime);
        assert IsLive(next, i, nonce, ntime);
      }
    }
    forall i: nat, nonce: nat, ntime: nat | IsLive(next, i, nonce, ntime) ensures next[i].height == e.height {
      LiveInLog(next, i, nonce, ntime);
    }
  }

  lemma LiveInLog(log: seq<Event>, i: nat, nonce: nat, ntime: nat)
    requires IsLive(log, i, nonce, ntime)
    ensures i < |log| && log[i].Attempt?
  {
  }

  /** Any other event leaves the filter exact; a restart empties it. */
  lemma OtherKeeps(log: seq<Event>, keys: set<(nat, nat)>, block: int, e: Event)
    requires AttemptedOnce(log) && Remembers(log, keys, block) && !e.Attempt?
    ensures AttemptedOnce(log + [e])
    ensures if e.Restarted? then Remembers(log + [e], {}, -1) else Remembers(log + [e], keys, block)
  {
    OnceSnoc(log, e);
    var next := log + [e];
    forall i: nat, nonce: nat, ntime: nat
      ensures IsLive(next, i, nonce, ntime) <==> !e.Restarted? && IsLive(log, i, nonce, ntime)
    {
      LiveSnoc(log, e, i, nonce, ntime);
    }
    forall i: nat, nonce: nat, ntime: nat | IsLive(log, i, nonce, ntime) ensures next[i] == log[i] {
      LiveInLog(log, i, nonce, ntime);
    }
    hide IsLive;
    forall nonce: nat, ntime: nat | !e.Restarted?
      ensures (nonce, ntime) in keys <==> exists i: nat :: IsLive(next, i, nonce, ntime)
    {
      if (nonce, ntime) in keys {
        var i: nat :| IsLive(log, i, nonce, ntime);
        assert IsLive(next, i, nonce, ntime);
      }
    }
  }

  /** A pair in the filter has exactly one attempt since the last change of height or restart. It went out
      in this block if and only if that attempt did. */
  lemma RefusedWasAttempted(log: seq<Event>, keys: set<(nat, nat)>, block: int, nonce: nat, ntime: nat) returns (i: nat)
    requires AttemptedOnce(log) && Remembers(log, keys, block) && (nonce, ntime) in keys
    ensures IsLive(log, i, nonce, ntime) && log[i].height == block
    ensures forall j: nat :: IsLive(log, j, nonce, ntime) ==> j == i
    ensures (exists j: nat :: IsLive(log, j, nonce, ntime) && log[j].sent) <==> log[i].sent
  {
    i :| IsLive(log, i, nonce, ntime);
    forall j: nat | IsLive(log, j, nonce, ntime) ensures j == i {
      if i <= j { LiveOnce(log, i, j, nonce, ntime); } else { LiveOnce(log, j, i, nonce, ntime); }
    }
  }

  lemma LiveOnce(log: seq<Event>, i: nat, j: nat, nonce: nat, ntime: nat)
    requires AttemptedOnce(log) && IsLive(log, i, nonce, ntime) && IsLive(log, j, nonce, ntime) && i <= j
    ensures i == j
  {
    assert SameShare(log[i], log[j]);
    SincePrefix(log, i, j + 1);
  }

  lemma SincePrefix(log: seq<Event>, i: nat, n: nat)
    requires i < n <= |log| && log[i].Attempt? && SameBlockSince(log, i)
    ensures SameBlockSince(log[..n], i)
  {
  }

  // ---------------------------------------------------------------- solves start above what was sent

  /** The nonces sent on a range since it last dropped out of the table. */
  function SentOn(log: seq<Event>, range: Word): (s: set<nat>) {
    if log == [] then {} else
      var front, e := log[..|log| - 1], log[|log| - 1];
      if e == Dropped(range) then {}
      else if e.Attempt? && e.range == range && e.sent then SentOn(front, range) + {e.nonce}
      else SentOn(front, range)
  }

  predicate Above(cursor: Word, nonces: set<nat>) { forall n :: n in nonces ==> n < cursor }

  /** Every solve started above every nonce sent on its range. */
  predicate ScansAhead(log: seq<Event>) {
    forall i :: 0 <= i < |log| && log[i].Scan? ==>
      Above(log[i].base, SentOn(log[..i], log[i].range))
  }

  /** The table covers every nonce sent; a range without an entry has none outstanding. */
  ghost predicate TableCovers(log: seq<Event>, ranges: seq<Entry>) {
    forall range: Word :: if Has(ranges, range) then Above(ranges[Find(ranges, range)].cursor, SentOn(log, range))
                    else SentOn(log, range) == {}
  }

  ghost predicate CoversOthers(log: seq<Event>, ranges: seq<Entry>, base: Word) {
    forall range: Word :: range != base ==>
      if Has(ranges, range) then Above(ranges[Find(ranges, range)].cursor, SentOn(log, range)) else SentOn(log, range) == {}
  }

  lemma CoversAll(log: seq<Event>, ranges: seq<Entry>, base: Word)
    requires TableCovers(log, ranges)
    ensures CoversOthers(log, ranges, base)
  {
  }

  lemma SentSnoc(log: seq<Event>, e: Event, range: Word)
    ensures SentOn(log + [e], range) ==
      if e == Dropped(range) then {}
      else if e.Attempt? && e.range == range && e.sent then SentOn(log, range) + {e.nonce} else SentOn(log, range)
  {
    assert (log + [e])[..|log|] == log;
  }

  lemma ScanSnoc(log: seq<Event>, e: Event)
    requires ScansAhead(log)
    requires e.Scan? ==> Above(e.base, SentOn(log, e.range))
    ensures ScansAhead(log + [e])
  {
    var next := log + [e];
    forall i | 0 <= i < |next| && next[i].Scan?
      ensures Above(next[i].base, SentOn(next[..i], next[i].range))
    {
      assert next[..i] == log[..i];
      if i == |log| { assert log[..i] == log; }
    }
  }

  /** An event that sends nothing leaves a covering table covering. */
  lemma QuietCovers(log: seq<Event>, ranges: seq<Entry>, e: Event)
    requires TableCovers(log, ranges) && !(e.Attempt? && e.sent)
    ensures TableCovers(log + [e], ranges)
    ensures forall range: Word, cursor: Word :: Above(cursor, SentOn(log, range)) ==> Above(cursor, SentOn(log + [e], range))
  {
    forall range: Word ensures SentOn(log + [e], range) <= SentOn(log, range) {
      SentSnoc(log, e, range);
    }
  }

  /** What recording a cursor does to the log: the range that had to make room is dropped. */
  function AfterRecord(log: seq<Event>, ranges: seq<Entry>, base: Word): seq<Event> {
    log + if Evicted(ranges, base) == {} then [] else [Dropped(ranges[0].base)]
  }

  lemma RecordCovers(log: seq<Event>, ranges: seq<Entry>, base: Word, cursor: Word)
    requires IsTable(ranges) && Above(cursor, SentOn(log, base))
    requires CoversOthers(log, ranges, base)
    ensures TableCovers(AfterRecord(log, ranges, base), Recorded(ranges, base, cursor))
  {
    var next, r' := AfterRecord(log, ranges, base), Recorded(ranges, base, cursor);
    forall range: Word
      ensures if Has(r', range) then Above(r'[Find(r', range)].cursor, SentOn(next, range))
              else SentOn(next, range) == {}
    {
      RecordedEntry(ranges, base, cursor, range);
      AfterRecordSent(log, ranges, base, range);
    }
  }

  lemma AfterRecordCovers(log: seq<Event>, ranges: seq<Entry>, base: Word, saved: seq<Entry>)
    requires TableCovers(log, saved)
    ensures TableCovers(AfterRecord(log, ranges, base), saved)
  {
    if Evicted(ranges, base) == {} {
      assert log + [] == log;
    } else {
      QuietCovers(log, saved, Dropped(ranges[0].base));
    }
  }

  lemma AfterRecordSent(log: seq<Event>, ranges: seq<Entry>, base: Word, range: Word)
    ensures SentOn(AfterRecord(log, ranges, base), range) == if range in Evicted(ranges, base) then {} else SentOn(log, range)
  {
    if Evicted(ranges, base) == {} {
      assert log + [] == log;
    } else {
      SentSnoc(log, Dropped(ranges[0].base), range);
    }
  }

  /** An attempt on a range leaves the other ranges covered; one that did not go out leaves all covered. */
  lemma AttemptScans(log: seq<Event>, ranges: seq<Entry>, saved: seq<Entry>, cursor: Word, e: Event)
    requires e.Attempt? && ScansAhead(log) && TableCovers(log, ranges) && Above(cursor, SentOn(log, e.range))
    requires TableCovers(log, saved)
    ensures ScansAhead(log + [e]) && CoversOthers(log + [e], ranges, e.range)
    ensures SentOn(log + [e], e.range) == if e.sent then SentOn(log, e.range) + {e.nonce} else SentOn(log, e.range)
    ensures !e.sent ==> TableCovers(log + [e], ranges) && TableCovers(log + [e], saved)
  {
    ScanSnoc(log, e);
    forall range: Word
      ensures SentOn(log + [e], range) == SentOn(log, range) + if e.sent && e.range == range then {e.nonce} else {}
    {
      SentSnoc(log, e, range);
    }
  }

  lemma RecordScans(log: seq<Event>, ranges: seq<Entry>, base: Word)
    requires ScansAhead(log)
    ensures ScansAhead(AfterRecord(log, ranges, base))
  {
    if Evicted(ranges, base) == {} {
      assert log + [] == log;
    } else {
      ScanSnoc(log, Dropped(ranges[0].base));
    }
  }
}
