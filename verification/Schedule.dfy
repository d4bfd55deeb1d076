/** The full-bank page schedule and how often it visits each page. */
module Schedule {
  import opened Arith
  import opened Bytes
  import opened Xof
  import opened Permutation
  import opened Wrappers

  const FULL_BANK_TAG := "BTX_RC_COUP_FULL_BANK_V3"

  /** The coupled puzzle shape. */
  datatype CoupParams = CoupParams(barriers: nat, lobes: nat, lobeWidth: nat, bankPages: nat,
                                   rowsPerLobe: nat, pagesPerBarrierLobe: nat, exchangeRounds: nat)

  const MEDIUM := CoupParams(4, 4, 64, 64, 32, 4, 0)
  const PRODUCTION := CoupParams(8, 8, 8192, 1536, 128, 24, 4)

  /** The episode-global page permutation: it depends on sigma and the bank size only. */
  function PagePerm(sha: Hash, sigma: Digest, bankPages: nat): (perm: seq<nat>)
    requires bankPages >= 1
    ensures |perm| == bankPages
  {
    Shuffled(sha, TaggedU32(sha, FULL_BANK_TAG, sigma, bankPages), bankPages)
  }

  /** The index of slot `k` of a lobe at a barrier, in 64-bit arithmetic. */
  function Slot(p: CoupParams, barrier: nat, lobe: nat, k: nat): nat {
    ((barrier * p.lobes + lobe) * p.pagesPerBarrierLobe % W64 + k) % W64
  }

  function PageAt(perm: seq<nat>, slot: nat): nat
    requires |perm| >= 1
  {
    perm[slot % |perm|]
  }

  function Selection(perm: seq<nat>, p: CoupParams, barrier: nat, lobe: nat): (ids: seq<nat>)
    requires |perm| >= 1
    ensures |ids| == p.pagesPerBarrierLobe
  {
    seq<nat>(p.pagesPerBarrierLobe, k requires 0 <= k < p.pagesPerBarrierLobe => PageAt(perm, Slot(p, barrier, lobe, k)))
  }

  method SelectPages(barrier: nat, lobe: nat, sha: Hash, sigma: Digest, p: CoupParams) returns (ids: seq<nat>)
    requires p.bankPages >= 1
    ensures IsPerm(PagePerm(sha, sigma, p.bankPages), p.bankPages)
    ensures ids == Selection(PagePerm(sha, sigma, p.bankPages), p, barrier, lobe)
    ensures forall k :: 0 <= k < |ids| ==> ids[k] < p.bankPages
  {
    hide Shuffled;
    var pi := Shuffle(sha, TaggedU32(sha, FULL_BANK_TAG, sigma, p.bankPages), p.bankPages);
    var perm := pi[..];
    ghost var all := Selection(perm, p, barrier, lobe);
    hide Slot, PageAt;
    ids := [];
    for k := 0 to p.pagesPerBarrierLobe
      invariant ids == all[..k]
    {
      PrefixSnoc(all, k);
      ids := ids + [PageAt(perm, Slot(p, barrier, lobe, k))];
    }
    WholePrefix(all);
    SelectionInBank(perm, p, barrier, lobe);
  }

  lemma SelectionInBank(perm: seq<nat>, p: CoupParams, barrier: nat, lobe: nat)
    requires |perm| >= 1 && IsPerm(perm, |perm|)
    ensures forall k :: 0 <= k < p.pagesPerBarrierLobe ==> Selection(perm, p, barrier, lobe)[k] < |perm|
  {
  }

  // ---------------------------------------------------------------- coverage

  /** Every page selected by the first `l` lobes at a barrier, in order. */
  function LobesUpTo(perm: seq<nat>, p: CoupParams, barrier: nat, l: nat): seq<nat>
    requires |perm| >= 1
  {
    if l == 0 then [] else LobesUpTo(perm, p, barrier, l - 1) + Selection(perm, p, barrier, l - 1)
  }

  /** Every page selected over the first `b` barriers, by all lobes, in order. */
  function EpisodePages(perm: seq<nat>, p: CoupParams, b: nat): seq<nat>
    requires |perm| >= 1
  {
    if b == 0 then [] else EpisodePages(perm, p, b - 1) + LobesUpTo(perm, p, b - 1, p.lobes)
  }

  /** What `len` consecutive slots from `from` on read; the slot counter has 64 bits. */
  function Slots(perm: seq<nat>, from: nat, len: nat): (c: seq<nat>)
    requires |perm| >= 1
    ensures |c| == len
  {
    seq<nat>(len, t requires 0 <= t < len => PageAt(perm, (from + t) % W64))
  }

  lemma SlotsAppend(perm: seq<nat>, from: nat, a: nat, b: nat)
    requires |perm| >= 1
    ensures Slots(perm, from, a) + Slots(perm, from + a, b) == Slots(perm, from, a + b)
  {
    hide PageAt;
    var parts, whole := Slots(perm, from, a) + Slots(perm, from + a, b), Slots(perm, from, a + b);
    forall k | 0 <= k < a + b ensures parts[k] == whole[k] {
      if k >= a { assert from + a + (k - a) == from + k; }
    }
  }

  lemma {:induction false} LobesAreConsecutive(perm: seq<nat>, p: CoupParams, barrier: nat, l: nat)
    requires |perm| >= 1
    ensures barrier * p.lobes * p.pagesPerBarrierLobe >= 0 && l * p.pagesPerBarrierLobe >= 0
    ensures LobesUpTo(perm, p, barrier, l)
         == Slots(perm, barrier * p.lobes * p.pagesPerBarrierLobe, l * p.pagesPerBarrierLobe)
  {
    var pp, from := p.pagesPerBarrierLobe, barrier * p.lobes * p.pagesPerBarrierLobe;
    BarrierStep(barrier, p.lobes, pp);
    if l > 0 {
      LobesAreConsecutive(perm, p, barrier, l - 1);
      LobeStart(barrier * p.lobes, l - 1, pp);
      LobeReads(perm, p, barrier, l - 1, from + (l - 1) * pp);
      SlotsAppend(perm, from, (l - 1) * pp, pp);
    }
  }

  lemma LobeStart(a: nat, l: nat, pp: nat)
    ensures (a + l) * pp == a * pp + l * pp && (l + 1) * pp == l * pp + pp && l * pp >= 0
  {
  }

  lemma StepBack(g: nat, pp: nat)
    ensures (g + 1) * pp == g * pp + pp && g * pp >= 0
  {
  }

  lemma SlotIs(p: CoupParams, barrier: nat, lobe: nat, k: nat, base: nat)
    requires base == (barrier * p.lobes + lobe) * p.pagesPerBarrierLobe
    ensures Slot(p, barrier, lobe, k) == (base + k) % W64
  {
    assert Slot(p, barrier, lobe, k) == (base % W64 + k) % W64;
    ModShift(base % W64 + k, base / W64, W64);
  }

  lemma LobeReads(perm: seq<nat>, p: CoupParams, barrier: nat, lobe: nat, base: nat)
    requires |perm| >= 1 && base == (barrier * p.lobes + lobe) * p.pagesPerBarrierLobe
    ensures Selection(perm, p, barrier, lobe) == Slots(perm, base, p.pagesPerBarrierLobe)
  {
    hide PageAt, Slot;
    forall k | 0 <= k < p.pagesPerBarrierLobe
      ensures Selection(perm, p, barrier, lobe)[k] == Slots(perm, base, p.pagesPerBarrierLobe)[k]
    {
      SlotIs(p, barrier, lobe, k, base);
    }
  }

  /** The schedule of an episode is the page permutation read around and around, by a slot counter that
      wraps at 2^64. */
  lemma {:induction false} EpisodeIsCycle(perm: seq<nat>, p: CoupParams, b: nat)
    requires |perm| >= 1
    ensures b * p.lobes * p.pagesPerBarrierLobe >= 0
    ensures EpisodePages(perm, p, b) == Slots(perm, 0, b * p.lobes * p.pagesPerBarrierLobe)
  {
    if b > 0 {
      var pp, done := p.pagesPerBarrierLobe, (b - 1) * p.lobes * p.pagesPerBarrierLobe;
      BarrierStep(b - 1, p.lobes, pp);
      EpisodeIsCycle(perm, p, b - 1);
      LobesAreConsecutive(perm, p, b - 1, p.lobes);
      SlotsAppend(perm, 0, done, p.lobes * pp);
    }
  }

  lemma BarrierStep(b: nat, lobes: nat, pp: nat)
    ensures (b + 1) * lobes * pp == b * lobes * pp + lobes * pp
    ensures (b * lobes + lobes) * pp == (b + 1) * lobes * pp
    ensures b * lobes * pp >= 0 && lobes * pp >= 0
  {
    assert (b + 1) * lobes == b * lobes + lobes;
    assert (b * lobes + lobes) * pp == b * lobes * pp + lobes * pp;
  }

  // ---------------------------------------------------------------- how often a page is read

  /** The permutation read around and around, `len` places from its start. */
  function Cycle(perm: seq<nat>, from: nat, len: nat): (c: seq<nat>)
    requires |perm| >= 1
    ensures |c| == len
  {
    seq<nat>(len, t requires 0 <= t < len => PageAt(perm, from + t))
  }

  lemma CycleAppend(perm: seq<nat>, from: nat, a: nat, b: nat)
    requires |perm| >= 1
    ensures Cycle(perm, from, a) + Cycle(perm, from + a, b) == Cycle(perm, from, a + b)
  {
    hide PageAt;
    var parts, whole := Cycle(perm, from, a) + Cycle(perm, from + a, b), Cycle(perm, from, a + b);
    forall k | 0 <= k < a + b ensures parts[k] == whole[k] {
      if k >= a { assert from + a + (k - a) == from + k; }
    }
  }

  lemma PermUses(perm: seq<nat>, r: nat, q: nat)
    requires IsPerm(perm, |perm|) && r <= |perm| && q < |perm|
    ensures multiset(perm[..r])[q] == if q in perm[..r] then 1 else 0
    ensures q in perm
  {
    if r > 0 {
      PermUses(perm, r - 1, q);
      PrefixSnoc(perm, r - 1);
      assert perm[r - 1] !in perm[..r - 1];
    }
  }

  /** `c` whole turns and `r` further slots use page `q` either `c` or `c + 1` times. */
  lemma {:induction false} CycleUses(perm: seq<nat>, c: nat, r: nat, q: nat, len: nat)
    requires IsPerm(perm, |perm|) && r < |perm| && q < |perm| && len == c * |perm| + r
    ensures multiset(Cycle(perm, 0, len))[q] == c + (if q in perm[..r] then 1 else 0)
    decreases c
  {
    hide *;
    var n := |perm|;
    if c == 0 {
      PartTurn(perm, r);
      PermUses(perm, r, q);
    } else {
      StepBack(c - 1, n);
      CycleUses(perm, c - 1, r, q, len - n);
      FirstTurn(perm, len);
      FullTurn(perm, q);
      CountAppend(perm, Cycle(perm, 0, len - n), q);
    }
  }

  lemma CountAppend<T>(a: seq<T>, b: seq<T>, q: T)
    ensures multiset(a + b)[q] == multiset(a)[q] + multiset(b)[q]
  {
  }

  lemma FullTurn(perm: seq<nat>, q: nat)
    requires IsPerm(perm, |perm|) && q < |perm|
    ensures multiset(perm)[q] == 1
  {
    PermUses(perm, |perm|, q);
    WholePrefix(perm);
  }

  lemma PageHere(perm: seq<nat>, t: nat)
    requires t < |perm|
    ensures PageAt(perm, t) == perm[t]
  {
    DivModUnique(t, 0, t, |perm|);
  }

  lemma PartTurn(perm: seq<nat>, r: nat)
    requires r < |perm|
    ensures Cycle(perm, 0, r) == perm[..r]
  {
    hide PageAt;
    forall t | 0 <= t < r ensures Cycle(perm, 0, r)[t] == perm[..r][t] {
      PageHere(perm, t);
    }
  }

  lemma FirstTurn(perm: seq<nat>, len: nat)
    requires |perm| >= 1 && len >= |perm|
    ensures Cycle(perm, 0, len) == perm + Cycle(perm, 0, len - |perm|)
  {
    hide PageAt;
    CycleAppend(perm, 0, |perm|, len - |perm|);
    Turn(perm, len - |perm|);
  }

  lemma Turn(perm: seq<nat>, len: nat)
    requires |perm| >= 1
    ensures Cycle(perm, 0, |perm|) == perm
    ensures Cycle(perm, |perm|, len) == Cycle(perm, 0, len)
  {
    hide PageAt;
    forall t | 0 <= t < |perm| ensures Cycle(perm, 0, |perm|)[t] == perm[t] {
      PageHere(perm, t);
    }
    forall t | 0 <= t < len ensures PageAt(perm, |perm| + t) == PageAt(perm, t) {
      Around(perm, t);
    }
  }

  lemma Around(perm: seq<nat>, t: nat)
    requires |perm| >= 1
    ensures PageAt(perm, |perm| + t) == PageAt(perm, t)
  {
    ModShift(t, 1, |perm|);
  }

  lemma FirstLap(perm: seq<nat>, len: nat)
    requires |perm| >= 1 && len <= W64
    ensures Slots(perm, 0, len) == Cycle(perm, 0, len)
  {
    hide PageAt;
    forall t | 0 <= t < len ensures Slots(perm, 0, len)[t] == Cycle(perm, 0, len)[t] {
      assert (0 + t) % W64 == 0 + t;
    }
  }

  lemma NextLap(perm: seq<nat>, len: nat)
    requires |perm| >= 1
    ensures Slots(perm, 0, W64 + len) == Cycle(perm, 0, W64) + Slots(perm, 0, len)
  {
    hide PageAt, Cycle;
    SlotsAppend(perm, 0, W64, len);
    FirstLap(perm, W64);
    forall t | 0 <= t < len ensures Slots(perm, W64, len)[t] == Slots(perm, 0, len)[t] {
      ModShift(t, 1, W64);
    }
  }

  /** How often `len` places of the permutation, from its start, read page `q`. */
  function TurnUses(perm: seq<nat>, len: nat, q: nat): (u: nat)
    requires |perm| >= 1
    ensures u == multiset(Cycle(perm, 0, len))[q]
  {
    multiset(Cycle(perm, 0, len))[q]
  }

  /** `h` laps of the 64-bit counter and `s` further slots. */
  lemma {:induction false} LapUses(perm: seq<nat>, h: nat, s: nat, q: nat)
    requires |perm| >= 1 && s < W64
    ensures h * W64 >= 0 && h * TurnUses(perm, W64, q) >= 0
    ensures multiset(Slots(perm, 0, h * W64 + s))[q] == h * TurnUses(perm, W64, q) + TurnUses(perm, s, q)
    decreases h
  {
    hide *;
    MulNonNeg(h, W64);
    MulNonNeg(h, TurnUses(perm, W64, q));
    if h == 0 {
      FirstLap(perm, s);
    } else {
      LapUses(perm, h - 1, s, q);
      StepBack(h - 1, W64);
      StepBack(h - 1, TurnUses(perm, W64, q));
      NextLap(perm, (h - 1) * W64 + s);
      CountAppend(Cycle(perm, 0, W64), Slots(perm, 0, (h - 1) * W64 + s), q);
    }
  }

  /** The number of slots of an episode. */
  function SlotCount(p: CoupParams): nat {
    MulNonNeg(p.barriers * p.lobes, p.pagesPerBarrierLobe);
    p.barriers * p.lobes * p.pagesPerBarrierLobe
  }

  /** How often an episode reads page `q`. */
  function Uses(sha: Hash, sigma: Digest, p: CoupParams, q: nat): nat
    requires p.bankPages >= 1
  {
    multiset(EpisodePages(PagePerm(sha, sigma, p.bankPages), p, p.barriers))[q]
  }

  /** Uses of the page at place `i` of the permutation, out of `h` laps and `s` slots of a bank of `n`. */
  function PlaceUses(n: nat, h: nat, s: nat, i: nat): int
    requires n >= 1
  {
    h * (W64 / n + One(i < W64 % n)) + (s / n + One(i < s % n))
  }

  lemma TurnUsesAt(perm: seq<nat>, len: nat, i: nat)
    requires IsPerm(perm, |perm|) && i < |perm|
    ensures TurnUses(perm, len, perm[i]) == len / |perm| + One(i < len % |perm|)
  {
    var n := |perm|;
    hide IsPerm, Cycle, TurnUses;
    DivNonNeg(len, n);
    DivEquation(len, n);
    PlaceInPrefix(perm, i, len % n);
    CycleUses(perm, len / n, len % n, perm[i], len);
  }

  lemma PlaceInPrefix(perm: seq<nat>, i: nat, r: nat)
    requires IsPerm(perm, |perm|) && i < |perm| && r <= |perm|
    ensures perm[i] in perm[..r] <==> i < r
    ensures perm[i] < |perm|
  {
    if i < r { assert perm[..r][i] == perm[i]; }
  }

  /** How often each page is read, at every shape: by its place in the permutation. */
  lemma UsesAre(sha: Hash, sigma: Digest, p: CoupParams, i: nat)
    requires p.bankPages >= 1 && i < p.bankPages
    ensures PagePerm(sha, sigma, p.bankPages)[i] < p.bankPages
    ensures Uses(sha, sigma, p, PagePerm(sha, sigma, p.bankPages)[i])
         == PlaceUses(p.bankPages, SlotCount(p) / W64, SlotCount(p) % W64, i)
  {
    var perm, t := PagePerm(sha, sigma, p.bankPages), SlotCount(p);
    ShuffledIsPerm(sha, TaggedU32(sha, FULL_BANK_TAG, sigma, p.bankPages), p.bankPages);
    EpisodeIsCycle(perm, p, p.barriers);
    hide PagePerm, IsPerm, EpisodePages, Slots, TurnUses, SlotCount;
    PlaceInPrefix(perm, i, 0);
    LapUses(perm, t / W64, t % W64, perm[i]);
    TurnUsesAt(perm, W64, i);
    TurnUsesAt(perm, t % W64, i);
  }

  /** Every page has its place. */
  lemma PlaceOf(sha: Hash, sigma: Digest, n: nat, q: nat) returns (i: nat)
    requires q < n
    ensures i < n && PagePerm(sha, sigma, n)[i] == q
  {
    ShuffledIsPerm(sha, TaggedU32(sha, FULL_BANK_TAG, sigma, n), n);
    var perm := PagePerm(sha, sigma, n);
    assert q in perm;
    i :| 0 <= i < n && perm[i] == q;
  }

  // ---------------------------------------------------------------- coverage, exactly

  predicate UsedAlike(sha: Hash, sigma: Digest, p: CoupParams, c: int)
    requires p.bankPages >= 1
  {
    forall q: nat :: q < p.bankPages ==> Uses(sha, sigma, p, q) == c
  }

  predicate UsedNearlyAlike(sha: Hash, sigma: Digest, p: CoupParams)
    requires p.bankPages >= 1
  {
    forall q: nat, q': nat :: q < p.bankPages && q' < p.bankPages ==>
      -1 <= Uses(sha, sigma, p, q) - Uses(sha, sigma, p, q') <= 1
  }

  /** No lap of the counter is completed, or every lap is a whole number of turns. */
  predicate LapsAreWhole(p: CoupParams)
    requires p.bankPages >= 1
  {
    SlotCount(p) < W64 || W64 % p.bankPages == 0
  }

  /** Full-bank coverage: `c` bank-fulls of slots use every page exactly `c` times, whatever the generator
      returns, unless the 64-bit slot counter wraps in the middle of a turn; then they never do. */
  lemma FullCoverageIff(sha: Hash, sigma: Digest, p: CoupParams, c: nat)
    requires p.bankPages >= 1 && SlotCount(p) == c * p.bankPages
    ensures UsedAlike(sha, sigma, p, c) <==> LapsAreWhole(p)
  {
    var n, t := p.bankPages, SlotCount(p);
    var perm := PagePerm(sha, sigma, n);
    hide PagePerm, Uses, SlotCount, PlaceUses;
    if LapsAreWhole(p) {
      forall q: nat | q < n ensures Uses(sha, sigma, p, q) == c {
        var i := PlaceOf(sha, sigma, n, q);
        UsesAre(sha, sigma, p, i);
        WholeLaps(n, t, c, i);
      }
    } else {
      UsesAre(sha, sigma, p, 0);
      UsesAre(sha, sigma, p, n - 1);
      Uneven(n, t / W64, t % W64);
    }
  }

  /** At every shape: the use counts of any two pages differ by at most one, unless laps are cut short and
      the cuts add up. */
  lemma NearlyEvenUseIff(sha: Hash, sigma: Digest, p: CoupParams)
    requires p.bankPages >= 1
    ensures UsedNearlyAlike(sha, sigma, p) <==>
      LapsAreWhole(p) || (SlotCount(p) / W64 == 1 && SlotCount(p) % W64 % p.bankPages == 0)
  {
    var n, t := p.bankPages, SlotCount(p);
    hide PagePerm, Uses, SlotCount, PlaceUses;
    if LapsAreWhole(p) || (t / W64 == 1 && t % W64 % n == 0) {
      forall q: nat, q': nat | q < n && q' < n ensures -1 <= Uses(sha, sigma, p, q) - Uses(sha, sigma, p, q') <= 1 {
        var i := PlaceOf(sha, sigma, n, q);
        var j := PlaceOf(sha, sigma, n, q');
        UsesAre(sha, sigma, p, i);
        UsesAre(sha, sigma, p, j);
        CutsSmall(n, t / W64, t % W64, i, j);
      }
    } else {
      UsesAre(sha, sigma, p, 0);
      UsesAre(sha, sigma, p, n - 1);
      Uneven(n, t / W64, t % W64);
    }
  }

  /** The first place of the permutation gains from every lap cut short, the last from none. */
  lemma Uneven(n: nat, h: nat, s: nat)
    requires n >= 1
    ensures PlaceUses(n, h, s, 0) - PlaceUses(n, h, s, n - 1) == h * One(W64 % n != 0) + One(s % n != 0)
  {
    assert !(n - 1 < W64 % n) && !(n - 1 < s % n);
    Spread(h, W64 / n, One(0 < W64 % n));
  }

  lemma Spread(h: int, a: int, b: int)
    ensures h * (a + b) == h * a + h * b
  {
  }

  lemma CutsSmall(n: nat, h: nat, s: nat, i: nat, j: nat)
    requires n >= 1 && (h == 0 || W64 % n == 0 || (h == 1 && s % n == 0))
    ensures -1 <= PlaceUses(n, h, s, i) - PlaceUses(n, h, s, j) <= 1
  {
  }

  lemma WholeLaps(n: nat, t: nat, c: nat, i: nat)
    requires n >= 1 && i < n && t == c * n && (t < W64 || W64 % n == 0)
    ensures PlaceUses(n, t / W64, t % W64, i) == c
  {
    var h, w, s := t / W64, W64 / n, t % W64;
    if t < W64 {
      DivModUnique(s, c, 0, n);
    } else {
      DivEquation(W64, n);
      SlotsLeft(n, h, w, c, s);
      DivModUnique(s, c - h * w, 0, n);
    }
  }

  lemma SlotsLeft(n: int, h: int, w: int, c: int, s: int)
    requires W64 == w * n && c * n == h * W64 + s
    ensures s == (c - h * w) * n
  {
    assert h * (w * n) == (h * w) * n;
    assert (c - h * w) * n == c * n - (h * w) * n;
  }

  /** The medium and the production shape visit every page exactly once per episode. */
  lemma ShippedShapesCoverOnce(sha: Hash, sigma: Digest)
    ensures UsedAlike(sha, sigma, MEDIUM, 1) && UsedAlike(sha, sigma, PRODUCTION, 1)
  {
    hide UsedAlike;
    FullCoverageIff(sha, sigma, MEDIUM, 1);
    FullCoverageIff(sha, sigma, PRODUCTION, 1);
  }
}
