/** The debounced ENC_RC activation latch, driven by the jobs a pool announces. */
module Latch {
  const RING: nat := 8
  const LATCH_JOBS: nat := 1
  const UNLATCH_JOBS: nat := 3
  const NEVER: int := 0x7FFF_FFFF   // the height that stands for "not latched"

  datatype Job = Job(id: string, height: int, announces: bool)

  /** The activation height with its operator pin, the two streaks and the ring of recent job ids. */
  datatype State = State(auto: bool, pinned: bool, height: int, rcStreak: nat, plainStreak: nat, recent: seq<string>)

  predicate Latched(s: State) { s.height != NEVER }

  function Pushed(recent: seq<string>, id: string): (r: seq<string>) {
    var grown := recent + [id];
    if |grown| > RING then grown[1..] else grown
  }

  predicate Counts(s: State, job: Job) { job.height > 0 && s.auto && job.id !in s.recent }

  function LatchAt(s: State, h: int): State { if h <= 0 || s.pinned || Latched(s) then s else s.(height := h) }

  function Unlatch(s: State): State { if s.pinned then s else s.(height := NEVER) }

  /** The streaks, then the switch, for a job that counts. */
  function Judge(s0: State, job: Job): State {
    var s := if job.announces then s0.(rcStreak := s0.rcStreak + 1, plainStreak := 0)
             else s0.(plainStreak := s0.plainStreak + 1, rcStreak := 0);
    if !Latched(s) then if s.rcStreak < LATCH_JOBS then s else LatchAt(s, job.height)
    else if s.plainStreak >= UNLATCH_JOBS && job.height >= s.height then Unlatch(s).(plainStreak := 0)
    else s
  }

  function Observe(s: State, job: Job): State {
    if Counts(s, job) then Judge(s.(recent := Pushed(s.recent, job.id)), job) else s
  }

  function Run(s: State, stream: seq<Job>): State {
    if stream == [] then s else Observe(Run(s, stream[..|stream| - 1]), stream[|stream| - 1])
  }

  function Initial(pinned: bool, height: int): State { State(true, pinned, height, 0, 0, []) }

  /** `MaybeLatchRCFromJob` and the process-wide state it keeps. */
  class RcLatch {
    var auto: bool
    var pinned: bool
    var height: int
    var rcStreak: nat
    var plainStreak: nat
    var recent: seq<string>

    function View(): State
      reads this
    {
      State(auto, pinned, height, rcStreak, plainStreak, recent)
    }

    constructor (auto: bool, pinned: bool, height: int)
      ensures View() == Initial(pinned, height).(auto := auto)
    {
      this.auto, this.pinned, this.height := auto, pinned, height;
      rcStreak, plainStreak, recent := 0, 0, [];
    }

    method LatchHeight(h: int) returns (changed: bool)
      modifies this`height
      ensures View() == LatchAt(old(View()), h)
      ensures changed <==> h > 0 && !old(pinned) && !Latched(old(View()))
      ensures h != NEVER ==> (changed <==> View() != old(View()))
    {
      if h <= 0 || pinned || height != NEVER { return false; }
      height := h;
      changed := true;
    }

    method UnlatchHeight() returns (changed: bool)
      modifies this`height
      ensures View() == Unlatch(old(View()))
      ensures changed <==> View() != old(View())
    {
      if pinned || height == NEVER { return false; }
      height := NEVER;
      changed := true;
    }

    method MaybeLatchFromJob(job: Job)
      modifies this
      ensures View() == Observe(old(View()), job)
    {
      if job.height <= 0 || !auto { return; }
      if job.id in recent { return; }
      recent := recent + [job.id];
      if |recent| > RING { recent := recent[1..]; }
      if job.announces {
        rcStreak, plainStreak := rcStreak + 1, 0;
      } else {
        plainStreak, rcStreak := plainStreak + 1, 0;
      }
      if height == NEVER {
        if rcStreak < LATCH_JOBS { return; }
        var _ := LatchHeight(job.height);
        return;
      }
      if plainStreak >= UNLATCH_JOBS && job.height >= height {
        var _ := UnlatchHeight();
        plainStreak := 0;
      }
    }
  }

  /** A whole stream of jobs. */
  method Watch(stream: seq<Job>, auto: bool, pinned: bool, height: int) returns (latch: RcLatch)
    ensures fresh(latch) && latch.View() == Run(Initial(pinned, height).(auto := auto), stream)
  {
    latch := new RcLatch(auto, pinned, height);
    for k := 0 to |stream|
      invariant fresh(latch) && latch.View() == Run(Initial(pinned, height).(auto := auto), stream[..k])
    {
      assert stream[..k + 1][..k] == stream[..k];
      latch.MaybeLatchFromJob(stream[k]);
    }
    assert stream[..|stream|] == stream;
  }

  // ---------------------------------------------------------------- which jobs count

  function LastIds(jobs: seq<Job>): (ids: seq<string>) {
    var n := if |jobs| > RING then RING else |jobs|;
    seq(n, k requires 0 <= k < n => jobs[|jobs| - n + k].id)
  }

  /** The jobs of a stream that get past the ring. */
  function Counted(stream: seq<Job>): (c: seq<Job>) {
    if stream == [] then [] else
      var c, job := Counted(stream[..|stream| - 1]), stream[|stream| - 1];
      if job.height <= 0 || job.id in LastIds(c) then c else c + [job]
  }

  lemma {:induction false} RingHoldsLastCounted(stream: seq<Job>, pinned: bool, height: int)
    ensures Run(Initial(pinned, height), stream).recent == LastIds(Counted(stream))
    ensures Run(Initial(pinned, height), stream).auto
  {
    if stream != [] {
      var front, job := stream[..|stream| - 1], stream[|stream| - 1];
      RingHoldsLastCounted(front, pinned, height);
      PushedLast(Counted(front), job);
    }
  }

  lemma PushedLast(c: seq<Job>, job: Job)
    ensures Pushed(LastIds(c), job.id) == LastIds(c + [job])
  {
  }

  // ---------------------------------------------------------------- the streaks

  /** How many jobs at the end carry, or lack, the signal. */
  function Trailing(jobs: seq<Job>, announces: bool): (n: nat)
    ensures n <= |jobs|
    ensures forall k :: |jobs| - n <= k < |jobs| ==> jobs[k].announces == announces
    ensures n < |jobs| ==> jobs[|jobs| - n - 1].announces != announces
  {
    if jobs == [] || jobs[|jobs| - 1].announces != announces then 0
    else 1 + Trailing(jobs[..|jobs| - 1], announces)
  }

  lemma TrailingSnoc(jobs: seq<Job>, job: Job, announces: bool)
    ensures Trailing(jobs + [job], announces) == if job.announces == announces then 1 + Trailing(jobs, announces) else 0
  {
    assert (jobs + [job])[..|jobs|] == jobs;
  }

  /** At most one streak is non-zero; each counts only jobs at the end of what counted; a pin is kept. */
  predicate StreaksFit(s: State, counted: seq<Job>, pinned: bool, height: int) {
    && (s.rcStreak == 0 || s.plainStreak == 0)
    && s.rcStreak == Trailing(counted, true)
    && s.plainStreak <= Trailing(counted, false)
    && s.pinned == pinned && (pinned ==> s.height == height)
  }

  lemma JudgeStreaks(s: State, counted: seq<Job>, job: Job, pinned: bool, height: int)
    requires StreaksFit(s, counted, pinned, height)
    ensures StreaksFit(Judge(s, job), counted + [job], pinned, height)
  {
    TrailingSnoc(counted, job, true);
    TrailingSnoc(counted, job, false);
    hide Trailing;
  }

  lemma RunStep(front: seq<Job>, job: Job, pinned: bool, height: int)
    ensures var s, t := Run(Initial(pinned, height), front), Run(Initial(pinned, height), front + [job]);
      if job.height > 0 && job.id !in LastIds(Counted(front))
      then t == Judge(s.(recent := Pushed(s.recent, job.id)), job) && Counted(front + [job]) == Counted(front) + [job]
      else t == s && Counted(front + [job]) == Counted(front)
  {
    RingHoldsLastCounted(front, pinned, height);
    assert (front + [job])[..|front|] == front;
    hide Judge, LastIds, Pushed;
  }

  lemma {:induction false} StreaksCount(stream: seq<Job>, pinned: bool, height: int)
    ensures StreaksFit(Run(Initial(pinned, height), stream), Counted(stream), pinned, height)
  {
    if stream != [] {
      var front, job := stream[..|stream| - 1], stream[|stream| - 1];
      StreaksCount(front, pinned, height);
      RunStep(front, job, pinned, height);
      assert front + [job] == stream;
      hide Run, Counted, Judge, LastIds, Pushed;
      var s := Run(Initial(pinned, height), front);
      JudgeStreaks(s.(recent := Pushed(s.recent, job.id)), Counted(front), job, pinned, height);
    }
  }

  lemma {:induction false} NeighboursDistinct(stream: seq<Job>, i: nat, j: nat)
    requires i < j < |Counted(stream)| && j - i <= RING
    ensures Counted(stream)[i].id != Counted(stream)[j].id
  {
    var front, job := stream[..|stream| - 1], stream[|stream| - 1];
    var c := Counted(front);
    if j < |c| {
      NeighboursDistinct(front, i, j);
    } else {
      var n := if |c| > RING then RING else |c|;
      assert LastIds(c)[i - (|c| - n)] == c[i].id;
    }
  }

  /** A latch falls only after three consecutive distinct jobs without the signal, the last of them at or
      above the latched height; and never when the operator pinned it. */
  lemma UnlatchNeedsThree(front: seq<Job>, job: Job, pinned: bool, height: int)
    requires Latched(Run(Initial(pinned, height), front)) && !Latched(Run(Initial(pinned, height), front + [job]))
    ensures var c, n := Counted(front + [job]), |Counted(front + [job])|;
      && n >= 3 && c[n - 1] == job
      && !c[n - 3].announces && !c[n - 2].announces && !c[n - 1].announces
      && c[n - 3].id != c[n - 2].id && c[n - 3].id != c[n - 1].id && c[n - 2].id != c[n - 1].id
      && job.height >= Run(Initial(pinned, height), front).height && !pinned
  {
    RunStep(front, job, pinned, height);
    StreaksCount(front, pinned, height);
    TrailingSnoc(Counted(front), job, false);
    var stream := front + [job];
    hide Run, Counted, LastIds, Pushed;
    var c := Counted(stream);
    assert Trailing(c, false) >= 3;
    NeighboursDistinct(stream, |c| - 3, |c| - 2);
    NeighboursDistinct(stream, |c| - 3, |c| - 1);
    NeighboursDistinct(stream, |c| - 2, |c| - 1);
  }

  /** A latch is set only by a job that announces, to that job's height. */
  lemma LatchNeedsSignal(s: State, job: Job)
    requires !Latched(s) && Latched(Observe(s, job))
    ensures job.announces && Counts(s, job) && Observe(s, job).height == job.height && !s.pinned
    ensures Observe(s, job).plainStreak == 0
  {
  }

  /** A stream that keeps announcing at and above the latched height never loses the latch, whatever
      streaks it starts from. */
  lemma {:induction false} AnnouncedStaysLatched(s: State, stream: seq<Job>)
    requires Latched(s)
    requires forall k :: 0 <= k < |stream| && stream[k].height >= s.height ==> stream[k].announces
    ensures Run(s, stream).height == s.height
  {
    if stream != [] {
      AnnouncedStaysLatched(s, stream[..|stream| - 1]);
    }
  }

  // ---------------------------------------------------------------- interleaved sessions

  predicate Seen(jobs: seq<Job>, id: string) { exists k :: 0 <= k < |jobs| && jobs[k].id == id }

  /** The stream with each job at its first arrival only. */
  function Deduplicated(stream: seq<Job>): (d: seq<Job>) {
    if stream == [] then [] else
      var d, job := Deduplicated(stream[..|stream| - 1]), stream[|stream| - 1];
      if job.height <= 0 || Seen(d, job.id) then d else d + [job]
  }

  /** Every repeat arrives while fewer than eight other jobs have made their first appearance since. */
  predicate RepeatsWithinRing(stream: seq<Job>) {
    stream == [] ||
    (var front, job := stream[..|stream| - 1], stream[|stream| - 1];
     var d := Deduplicated(front);
     RepeatsWithinRing(front) && (job.height > 0 && Seen(d, job.id) ==> Recent(d, job.id)))
  }

  predicate Recent(d: seq<Job>, id: string) { exists k :: 0 <= k < |d| && |d| - RING <= k && d[k].id == id }

  lemma RecentIsLast(d: seq<Job>, id: string)
    ensures Recent(d, id) <==> id in LastIds(d)
  {
    var n := if |d| > RING then RING else |d|;
    if Recent(d, id) {
      var k :| 0 <= k < |d| && |d| - RING <= k && d[k].id == id;
      assert LastIds(d)[k - (|d| - n)] == id;
    }
    if id in LastIds(d) {
      var k :| 0 <= k < n && LastIds(d)[k] == id;
      assert d[|d| - n + k].id == id;
    }
  }

  lemma {:induction false} CountsAtLeastFirsts(stream: seq<Job>)
    ensures |Counted(stream)| >= |Deduplicated(stream)|
    ensures forall id :: Seen(Counted(stream), id) <==> Seen(Deduplicated(stream), id)
  {
    if stream != [] {
      var front, job := stream[..|stream| - 1], stream[|stream| - 1];
      CountsAtLeastFirsts(front);
      var c, d := Counted(front), Deduplicated(front);
      LastAreSeen(c, job.id);
      forall id: string ensures Seen(c + [job], id) <==> Seen(c, id) || id == job.id { SeenSnoc(c, job, id); }
      forall id: string ensures Seen(d + [job], id) <==> Seen(d, id) || id == job.id { SeenSnoc(d, job, id); }
    }
  }

  lemma LastAreSeen(c: seq<Job>, id: string)
    ensures id in LastIds(c) ==> Seen(c, id)
  {
    RecentIsLast(c, id);
  }

  lemma SeenSnoc(c: seq<Job>, job: Job, id: string)
    ensures Seen(c + [job], id) <==> Seen(c, id) || id == job.id
  {
    if Seen(c, id) {
      var k :| 0 <= k < |c| && c[k].id == id;
      assert (c + [job])[k].id == id;
    }
    assert (c + [job])[|c|].id == job.id;
  }

  /** The ring counts each job exactly once if and only if every repeat arrives within it. */
  lemma {:induction false} CountedOnceIff(stream: seq<Job>)
    ensures Counted(stream) == Deduplicated(stream) <==> RepeatsWithinRing(stream)
  {
    if stream != [] {
      var front, job := stream[..|stream| - 1], stream[|stream| - 1];
      CountedOnceIff(front);
      CountsAtLeastFirsts(front);
      RecentIsLast(Deduplicated(front), job.id);
      RecentIsLast(Counted(front), job.id);
      LastAreSeen(Counted(front), job.id);
    }
  }

  lemma {:induction false} StreaksFollowCounted(stream: seq<Job>, other: seq<Job>, pinned: bool, height: int)
    requires Counted(stream) == other && Counted(other) == other
    ensures Run(Initial(pinned, height), stream) == Run(Initial(pinned, height), other)
    decreases |stream|
  {
    if stream != [] {
      var front, job := stream[..|stream| - 1], stream[|stream| - 1];
      var c := Counted(front);
      RingHoldsLastCounted(front, pinned, height);
      if job.height <= 0 || job.id in LastIds(c) {
        StreaksFollowCounted(front, other, pinned, height);
      } else {
        assert other[..|other| - 1] == c;
        CountedPrefix(other, job);
        StreaksFollowCounted(front, c, pinned, height);
        RingHoldsLastCounted(c, pinned, height);
      }
    }
  }

  lemma CountedPrefix(other: seq<Job>, job: Job)
    requires other != [] && Counted(other) == other && other[|other| - 1] == job
    ensures Counted(other[..|other| - 1]) == other[..|other| - 1]
    ensures job.height > 0 && job.id !in LastIds(other[..|other| - 1])
  {
    CountedShorter(other[..|other| - 1]);
  }

  lemma {:induction false} CountedShorter(stream: seq<Job>)
    ensures |Counted(stream)| <= |stream|
  {
    if stream != [] { CountedShorter(stream[..|stream| - 1]); }
  }

  lemma {:induction false} FirstsCountOnce(stream: seq<Job>)
    ensures Counted(Deduplicated(stream)) == Deduplicated(stream)
  {
    if stream != [] {
      var front, job := stream[..|stream| - 1], stream[|stream| - 1];
      FirstsCountOnce(front);
      var d := Deduplicated(front);
      LastAreSeen(d, job.id);
      assert (d + [job])[..|d|] == d;
    }
  }

  /** Two sessions interleaved in any way reach the state of the deduplicated stream, if their repeats
      arrive within the ring. */
  lemma InterleavingIsHarmless(stream: seq<Job>, pinned: bool, height: int)
    requires RepeatsWithinRing(stream)
    ensures Run(Initial(pinned, height), stream) == Run(Initial(pinned, height), Deduplicated(stream))
  {
    CountedOnceIff(stream);
    FirstsCountOnce(stream);
    StreaksFollowCounted(stream, Deduplicated(stream), pinned, height);
  }

  // ---------------------------------------------------------------- when the switch moves

  /** Exactly when a counted job moves the switch: an announcement latches, at its own height, unless a pin
      forbids it; a job without the signal de-latches when it is the third in a row, stands at or above the
      latched height, and no pin forbids it. */
  lemma SwitchIff(s: State, job: Job)
    requires Counts(s, job)
    ensures !Latched(s) ==>
      (Latched(Observe(s, job)) <==> job.announces && !s.pinned && job.height != NEVER) &&
      (Latched(Observe(s, job)) ==> Observe(s, job).height == job.height)
    ensures Latched(s) ==>
      (!Latched(Observe(s, job)) <==> !job.announces && s.plainStreak >= 2 && job.height >= s.height && !s.pinned) &&
      (Latched(Observe(s, job)) ==> Observe(s, job).height == s.height)
  {
  }

  /** A counted job without the signal, at or above the latched height. */
  predicate IsPlain(s: State, job: Job) { Counts(s, job) && !job.announces && job.height >= s.height }

  /** Three jobs the ring has not seen, none with the signal, all at or above the height: whatever came
      before, the latch has fallen. */
  lemma ThreePlainJobsFall(s: State, a: Job, b: Job, c: Job)
    requires Latched(s) && !s.pinned && s.auto && IsPlain(s, a) && IsPlain(s, b) && IsPlain(s, c)
    requires a.id != b.id && a.id != c.id && b.id != c.id
    ensures !Latched(Run(s, [a, b, c]))
  {
    var t := Observe(s, a);
    var u := Observe(t, b);
    assert [a] == [a, b][..1] && [a, b] == [a, b, c][..2] && [a][..0] == [];
    assert Run(s, [a]) == t && Run(s, [a, b]) == u && Run(s, [a, b, c]) == Observe(u, c);
    SwitchIff(s, a);
    PlainCounts(s, a, b.id);
    PlainCounts(s, a, c.id);
    SwitchIff(t, b);
    PlainCounts(t, b, c.id);
    SwitchIff(u, c);
    hide Observe, Run, Pushed;
  }

  /** What a counted job without the signal leaves for the next: the streak, and a ring with one id more. */
  lemma PlainCounts(s: State, job: Job, other: string)
    requires Counts(s, job) && !job.announces
    ensures var t := Observe(s, job);
      && t.auto && t.pinned == s.pinned && (other != job.id && other !in s.recent ==> other !in t.recent)
      && (Latched(t) && !s.pinned ==> t.plainStreak == s.plainStreak + 1)
      && (!Latched(s) ==> !Latched(t))
  {
  }
}
