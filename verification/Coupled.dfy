/** The coupled puzzle: lobe products against the page schedule, permutation, mix, exchange, Extract,
    barrier after barrier. */
module Coupled {
  import opened Arith
  import opened Bits
  import opened Bytes
  import opened Extract
  import opened Expand
  import opened Gemm
  import opened Recall
  import opened Mix
  import opened Butterfly
  import opened Permutation
  import opened Schedule
  import opened Exchange
  import opened Xof

  const LOBE_TAG := "BTX_RC_COUP_LOBE_V3"
  const BANK_TAG := "BTX_RC_COUP_BANK_V3"
  const BARRIER_TAG := "BTX_RC_COUP_BARRIER_V3"
  const PERM_TAG := "BTX_RC_COUP_PERM_V3"
  const MAT_XCHG_TAG := "BTX_RC_COUP_MAT_XCHG_V3"
  const EXTRACT_TAG := "BTX_RC_COUP_EXTRACT_V3"
  const COUPLED_EPISODE_TAG := "BTX_RC_COUP_EPISODE_V3"
  const EXCHANGE_ROWS: nat := 128

  function LobeStride(p: CoupParams): nat { RowStart(p.rowsPerLobe, p.lobeWidth) }

  function StateBytes(p: CoupParams): nat { RowStart(p.lobes, LobeStride(p)) }

  /** Shapes the kernel can run: power-of-two state, whole scale blocks, no more rows than a tile has,
      and sums that stay inside the accumulators. */
  predicate Runnable(p: CoupParams) {
    && p.bankPages >= 1 && p.lobeWidth % BLOCK == 0 && p.rowsPerLobe <= p.lobeWidth
    && p.lobeWidth <= 932067 && p.pagesPerBarrierLobe < W32
    && IsPow2(StateBytes(p)) && BLOCK <= StateBytes(p) < W32
  }

  // ---------------------------------------------------------------- lobe products

  /** The sum of a lobe's products against the pages `ids`, in schedule order. */
  function LobeSum(rows: seq<int>, pages: seq<seq<i8>>, ids: seq<nat>, m: nat, w: nat): (s: seq<int>)
    requires forall k :: 0 <= k < |ids| ==> ids[k] < |pages|
    ensures |s| == RowStart(m, w)
  {
    if ids == [] then seq(RowStart(m, w), _ => 0)
    else AddRows(LobeSum(rows, pages, ids[..|ids| - 1], m, w), Product(rows, pages[ids[|ids| - 1]], m, w, w))
  }

  lemma LobeSumSnoc(rows: seq<int>, pages: seq<seq<i8>>, ids: seq<nat>, k: nat, m: nat, w: nat)
    requires k < |ids| && forall j :: 0 <= j < |ids| ==> ids[j] < |pages|
    ensures LobeSum(rows, pages, ids[..k + 1], m, w)
         == AddRows(LobeSum(rows, pages, ids[..k], m, w), Product(rows, pages[ids[k]], m, w, w))
  {
    hide Product, RowStart;
    assert ids[..k + 1][..k] == ids[..k];
  }

  /** `after` is `before` with `add` added to the lanes from `off` on. */
  ghost predicate AddedAt(before: seq<i64>, after: seq<i64>, off: nat, add: seq<int>) {
    && |after| == |before| && off + |add| <= |before|
    && (forall k :: 0 <= k < |before| && !(off <= k < off + |add|) ==> after[k] == before[k])
    && (forall k :: 0 <= k < |add| ==> after[off + k] == before[off + k] + add[k])
  }

  lemma AddedBeside(s0: seq<i64>, s1: seq<i64>, s2: seq<i64>, off: nat, a: seq<int>, b: seq<int>)
    requires AddedAt(s0, s1, off, a) && AddedAt(s1, s2, off + |a|, b)
    ensures AddedAt(s0, s2, off, a + b)
  {
    forall k | 0 <= k < |a| + |b| ensures s2[off + k] == s0[off + k] + (a + b)[k] {
      if k >= |a| { assert s2[off + |a| + (k - |a|)] == s1[off + k] + b[k - |a|]; }
    }
  }

  lemma AddedTwice(s0: seq<i64>, s1: seq<i64>, s2: seq<i64>, off: nat, a: seq<int>, b: seq<int>)
    requires |a| == |b| && AddedAt(s0, s1, off, a) && AddedAt(s1, s2, off, b)
    ensures AddedAt(s0, s2, off, AddRows(a, b))
  {
  }

  lemma NothingAdded(s: seq<i64>, off: nat, z: seq<int>)
    requires off + |z| <= |s| && forall k :: 0 <= k < |z| ==> z[k] == 0
    ensures AddedAt(s, s, off, z)
  {
  }

  /** Widen one row of accumulators into the lanes from `off` on. */
  method AddRow(dest: array<i64>, off: nat, row: seq<int>, ghost bound: nat)
    requires off + |row| <= dest.Length && Bounded(dest[off..off + |row|], bound)
    requires forall c :: 0 <= c < |row| ==> FitsI32(row[c])
    requires bound + 0x8000_0000 < 0x8000_0000_0000_0000
    modifies dest
    ensures AddedAt(old(dest[..]), dest[..], off, row)
  {
    ghost var before := dest[..];
    for c := 0 to |row|
      invariant forall k :: 0 <= k < c ==> dest[off + k] == before[off + k] + row[k]
      invariant forall k :: 0 <= k < dest.Length && !(off <= k < off + c) ==> dest[k] == before[k]
    {
      assert before[off..off + |row|][c] == before[off + c];
      dest[off + c] := dest[off + c] + row[c];
    }
  }

  /** `dest[off..]` += rows * page: one row of 32-bit accumulators at a time, widened into the 64-bit lanes. */
  method LobeGemmAdd(rows: seq<i8>, page: seq<i8>, m: nat, w: nat, dest: array<i64>, off: nat, ghost bound: nat)
    requires |rows| == RowStart(m, w) && |page| == RowStart(w, w) && AllMx(rows) && AllMx(page) && w <= 932067
    requires off + RowStart(m, w) <= dest.Length
    requires Bounded(dest[off..off + RowStart(m, w)], bound) && bound + 0x8000_0000 < 0x8000_0000_0000_0000
    modifies dest
    ensures AddedAt(old(dest[..]), dest[..], off, Product(rows, page, m, w, w))
  {
    ghost var before := dest[..];
    MxBounded(rows);
    MxBounded(page);
    NoRows(w);
    NothingAdded(before, off, []);
    hide RowStart, AllMx, IsMxValue, PrefixesFit, AddedAt, ProductRow;
    for r := 0 to m
      invariant dest.Length == |before| && RowStart(r, w) <= RowStart(m, w)
      invariant AddedAt(before, dest[..], off, Product(rows, page, r, w, w))
    {
      RowFits(r, m, w);
      RowStep(r, w);
      BoundsFit(rows, page, w, w, r, 48, 48, 0x8000_0000);
      var accrow := DotRow(rows, page, w, w, r, 0x8000_0000);
      ghost var mid := dest[..];
      UntouchedRow(before, mid, off, Product(rows, page, r, w, w), w, RowStart(m, w), bound);
      AddRow(dest, off + RowStart(r, w), accrow, bound);
      AddedBeside(before, mid, dest[..], off, Product(rows, page, r, w, w), accrow);
    }
  }

  lemma UntouchedRow(before: seq<i64>, mid: seq<i64>, off: nat, done: seq<int>, w: nat, total: nat, bound: nat)
    requires AddedAt(before, mid, off, done) && |done| + w <= total && off + total <= |before|
    requires Bounded(before[off..off + total], bound)
    ensures Bounded(mid[off + |done|..off + |done| + w], bound)
  {
    var slice, all := mid[off + |done|..off + |done| + w], before[off..off + total];
    forall c | 0 <= c < |slice| ensures -(bound as int) <= slice[c] <= bound {
      assert slice[c] == mid[off + |done| + c] == before[off + |done| + c] == all[|done| + c];
    }
  }

  predicate GoodPages(pages: seq<seq<i8>>, p: CoupParams) {
    && |pages| == p.bankPages
    && forall k :: 0 <= k < |pages| ==> |pages[k]| == RowStart(p.lobeWidth, p.lobeWidth) && AllMx(pages[k])
  }

  lemma {:induction false} SumBounded(rows: seq<int>, pages: seq<seq<i8>>, ids: seq<nat>, m: nat, w: nat)
    requires AllMx(rows) && w <= 932067
    requires forall k :: 0 <= k < |ids| ==> ids[k] < |pages| && AllMx(pages[ids[k]])
    ensures Bounded(LobeSum(rows, pages, ids, m, w), 0x8000_0000 * |ids|)
    decreases |ids|
  {
    hide Product, RowStart;
    if ids != [] {
      var last := pages[ids[|ids| - 1]];
      SumBounded(rows, pages, ids[..|ids| - 1], m, w);
      MxBounded(rows);
      MxBounded(last);
      hide AllMx;
      ProductBounded(rows, last, m, w, w, 48, 48);
    }
  }

  lemma StillBounded(before: seq<i64>, mid: seq<i64>, off: nat, done: seq<int>, total: nat, bound: nat)
    requires AddedAt(before, mid, off, done) && total == |done| && Bounded(done, bound)
    requires Bounded(before[off..off + total], 0)
    ensures Bounded(mid[off..off + total], bound)
  {
    var slice, zero := mid[off..off + total], before[off..off + total];
    forall c | 0 <= c < |slice| ensures -(bound as int) <= slice[c] <= bound {
      assert slice[c] == mid[off + c] == before[off + c] + done[c] && zero[c] == before[off + c];
    }
  }

  /** Every scheduled page in turn, into one slice of `acc` that starts out zero. */
  method AddPages(pages: seq<seq<i8>>, ids: seq<nat>, rows: seq<i8>, m: nat, w: nat, acc: array<i64>, off: nat)
    requires forall k :: 0 <= k < |ids| ==> ids[k] < |pages|
    requires forall k :: 0 <= k < |pages| ==> |pages[k]| == RowStart(w, w) && AllMx(pages[k])
    requires AllMx(rows) && |rows| == RowStart(m, w) && w <= 932067 && |ids| < W32
    requires off + RowStart(m, w) <= acc.Length && Bounded(acc[off..off + RowStart(m, w)], 0)
    modifies acc
    ensures AddedAt(old(acc[..]), acc[..], off, LobeSum(rows, pages, ids, m, w))
  {
    ghost var before := acc[..];
    NothingAdded(before, off, LobeSum(rows, pages, [], m, w));
    WholePrefix(ids);
    hide *;
    for k := 0 to |ids|
      invariant acc.Length == |before|
      invariant AddedAt(before, acc[..], off, LobeSum(rows, pages, ids[..k], m, w))
    {
      AddPage(pages, ids, rows, m, w, acc, off, before, k);
    }
  }

  /** Page `k` of the list, onto the sum of the earlier ones. */
  method AddPage(pages: seq<seq<i8>>, ids: seq<nat>, rows: seq<i8>, m: nat, w: nat, acc: array<i64>, off: nat,
                 ghost before: seq<i64>, k: nat)
    requires k < |ids| && forall j :: 0 <= j < |ids| ==> ids[j] < |pages|
    requires forall j :: 0 <= j < |pages| ==> |pages[j]| == RowStart(w, w) && AllMx(pages[j])
    requires AllMx(rows) && |rows| == RowStart(m, w) && w <= 932067 && |ids| < W32
    requires |before| == acc.Length && off + RowStart(m, w) <= |before|
    requires Bounded(before[off..off + RowStart(m, w)], 0)
    requires AddedAt(before, acc[..], off, LobeSum(rows, pages, ids[..k], m, w))
    modifies acc
    ensures AddedAt(before, acc[..], off, LobeSum(rows, pages, ids[..k + 1], m, w))
  {
    assert 0x8000_0000 * k + 0x8000_0000 < 0x8000_0000_0000_0000;
    hide *;
    ghost var mid := acc[..];
    SumBounded(rows, pages, ids[..k], m, w);
    StillBounded(before, mid, off, LobeSum(rows, pages, ids[..k], m, w), RowStart(m, w), 0x8000_0000 * k);
    LobeGemmAdd(rows, pages[ids[k]], m, w, acc, off, 0x8000_0000 * k);
    LobeSumSnoc(rows, pages, ids, k, m, w);
    AddedTwice(before, mid, acc[..], off, LobeSum(rows, pages, ids[..k], m, w), Product(rows, pages[ids[k]], m, w, w));
  }

  /** The pages lobe `e` reads at barrier `b`. */
  function LobePages(sha: Hash, sigma: Digest, p: CoupParams, b: nat, e: nat): (ids: seq<nat>)
    requires p.bankPages >= 1
    ensures |ids| == p.pagesPerBarrierLobe && forall k :: 0 <= k < |ids| ==> ids[k] < p.bankPages
  {
    var perm := PagePerm(sha, sigma, p.bankPages);
    ShuffledIsPerm(sha, TaggedU32(sha, FULL_BANK_TAG, sigma, p.bankPages), p.bankPages);
    SelectionInBank(perm, p, b, e);
    Selection(perm, p, b, e)
  }

  /** The whole leg of lobe `e` at barrier `b`. */
  method LobeLeg(sha: Hash, sigma: Digest, p: CoupParams, pages: seq<seq<i8>>, rows: seq<i8>,
                 b: nat, e: nat, acc: array<i64>, off: nat)
    requires Runnable(p) && GoodPages(pages, p) && AllMx(rows) && |rows| == LobeStride(p)
    requires off + LobeStride(p) <= acc.Length && Bounded(acc[off..off + LobeStride(p)], 0)
    modifies acc
    ensures AddedAt(old(acc[..]), acc[..], off,
      LobeSum(rows, pages, LobePages(sha, sigma, p, b, e), p.rowsPerLobe, p.lobeWidth))
  {
    var ids := SelectPages(b, e, sha, sigma, p);
    hide RowStart, AddedAt, LobeSum, AllMx, Selection, PagePerm, Bounded;
    AddPages(pages, ids, rows, p.rowsPerLobe, p.lobeWidth, acc, off);
  }

  // ---------------------------------------------------------------- one barrier

  /** The activation of lobe `e`. */
  function LobeSlice(state: seq<i8>, p: CoupParams, e: nat): (rows: seq<i8>)
    requires e < p.lobes && |state| == StateBytes(p)
    ensures |rows| == LobeStride(p)
  {
    RowFits(e, p.lobes, LobeStride(p));
    state[RowStart(e, LobeStride(p))..RowStart(e, LobeStride(p)) + LobeStride(p)]
  }

  /** The raw sums of the first `l` lobes, side by side. */
  function LobeSums(sha: Hash, sigma: Digest, p: CoupParams, pages: seq<seq<i8>>, state: seq<i8>, b: nat, l: nat): (s: seq<int>)
    requires p.bankPages >= 1 && |pages| == p.bankPages && l <= p.lobes && |state| == StateBytes(p)
    ensures |s| == RowStart(l, LobeStride(p))
    decreases l
  {
    if l == 0 then NoRows(LobeStride(p)); [] else
      RowStep(l - 1, LobeStride(p));
      LobeSums(sha, sigma, p, pages, state, b, l - 1)
        + LobeSum(LobeSlice(state, p, l - 1), pages, LobePages(sha, sigma, p, b, l - 1), p.rowsPerLobe, p.lobeWidth)
  }

  lemma LobeSliceMx(state: seq<i8>, p: CoupParams, e: nat)
    requires e < p.lobes && |state| == StateBytes(p) && AllMx(state)
    ensures AllMx(LobeSlice(state, p, e))
  {
    hide IsMxValue, RowStart;
    RowFits(e, p.lobes, LobeStride(p));
    var off, rows := RowStart(e, LobeStride(p)), LobeSlice(state, p, e);
    forall k | 0 <= k < |rows| ensures IsMxValue(rows[k]) {
      assert rows[k] == state[off + k];
    }
  }

  predicate AllZero(s: seq<i64>) { forall k :: 0 <= k < |s| ==> s[k] == 0 }

  lemma TailStillZero(before: seq<i64>, mid: seq<i64>, done: seq<int>, w: nat)
    requires AddedAt(before, mid, 0, done) && |done| + w <= |before| && AllZero(before)
    ensures Bounded(mid[|done|..|done| + w], 0)
  {
    var slice := mid[|done|..|done| + w];
    forall c | 0 <= c < |slice| ensures slice[c] == 0 {
      assert slice[c] == mid[|done| + c];
    }
  }

  /** Fresh accumulators, every lobe's leg in its own slice. */
  method AllLobes(sha: Hash, sigma: Digest, p: CoupParams, pages: seq<seq<i8>>, state: seq<i8>, b: nat)
    returns (acc: array<i64>)
    requires Runnable(p) && GoodPages(pages, p) && |state| == StateBytes(p) && AllMx(state)
    ensures fresh(acc) && acc.Length == StateBytes(p)
    ensures acc[..] == LobeSums(sha, sigma, p, pages, state, b, p.lobes)
  {
    acc := new i64[StateBytes(p)](_ => 0);
    ghost var zero := acc[..];
    hide LobeSums, AddedAt, RowStart, AllMx, Runnable;
    LobeLegs(sha, sigma, p, pages, state, b, acc);
    AddedToZero(zero, acc[..], LobeSums(sha, sigma, p, pages, state, b, p.lobes));
  }

  method LobeLegs(sha: Hash, sigma: Digest, p: CoupParams, pages: seq<seq<i8>>, state: seq<i8>, b: nat, acc: array<i64>)
    requires Runnable(p) && GoodPages(pages, p) && |state| == StateBytes(p) && AllMx(state)
    requires acc.Length == StateBytes(p) && AllZero(acc[..])
    modifies acc
    ensures AddedAt(old(acc[..]), acc[..], 0, LobeSums(sha, sigma, p, pages, state, b, p.lobes))
  {
    ghost var zero := acc[..];
    NothingAdded(zero, 0, LobeSums(sha, sigma, p, pages, state, b, 0));
    NoRows(LobeStride(p));
    ShapeFacts(p, pages);
    hide *;
    for e := 0 to p.lobes
      invariant acc.Length == |zero|
      invariant AddedAt(zero, acc[..], 0, LobeSums(sha, sigma, p, pages, state, b, e))
    {
      LobeOnto(sha, sigma, p, pages, state, b, acc, zero, e);
    }
  }

  /** The leg of lobe `e`, beside the legs before it. */
  method LobeOnto(sha: Hash, sigma: Digest, p: CoupParams, pages: seq<seq<i8>>, state: seq<i8>, b: nat,
                  acc: array<i64>, ghost zero: seq<i64>, e: nat)
    requires Runnable(p) && GoodPages(pages, p) && |state| == StateBytes(p) && AllMx(state) && e < p.lobes
    requires acc.Length == |zero| == StateBytes(p) && AllZero(zero)
    requires AddedAt(zero, acc[..], 0, LobeSums(sha, sigma, p, pages, state, b, e))
    modifies acc
    ensures AddedAt(zero, acc[..], 0, LobeSums(sha, sigma, p, pages, state, b, e + 1))
  {
    ShapeFacts(p, pages);
    hide *;
    ghost var mid, done := acc[..], LobeSums(sha, sigma, p, pages, state, b, e);
    var off, rows := RowStart(e, LobeStride(p)), LobeSlice(state, p, e);
    LobeSliceMx(state, p, e);
    LobeStillZero(p, zero, mid, done, e);
    LobeLeg(sha, sigma, p, pages, rows, b, e, acc, off);
    LobeJoins(sha, sigma, p, pages, state, b, zero, mid, acc[..], e);
  }

  lemma LobeJoins(sha: Hash, sigma: Digest, p: CoupParams, pages: seq<seq<i8>>, state: seq<i8>, b: nat,
                  zero: seq<i64>, mid: seq<i64>, now: seq<i64>, e: nat)
    requires p.bankPages >= 1 && |pages| == p.bankPages && e < p.lobes && |state| == StateBytes(p)
    requires AddedAt(zero, mid, 0, LobeSums(sha, sigma, p, pages, state, b, e))
    requires AddedAt(mid, now, RowStart(e, LobeStride(p)),
      LobeSum(LobeSlice(state, p, e), pages, LobePages(sha, sigma, p, b, e), p.rowsPerLobe, p.lobeWidth))
    ensures AddedAt(zero, now, 0, LobeSums(sha, sigma, p, pages, state, b, e + 1))
  {
    hide *;
    LobeSumsSnoc(sha, sigma, p, pages, state, b, e);
    AddedBeside(zero, mid, now, 0, LobeSums(sha, sigma, p, pages, state, b, e),
                LobeSum(LobeSlice(state, p, e), pages, LobePages(sha, sigma, p, b, e), p.rowsPerLobe, p.lobeWidth));
  }

  lemma LobeStillZero(p: CoupParams, zero: seq<i64>, mid: seq<i64>, done: seq<int>, e: nat)
    requires e < p.lobes && |zero| == StateBytes(p) && |done| == RowStart(e, LobeStride(p))
    requires AddedAt(zero, mid, 0, done) && AllZero(zero)
    ensures var off, stride := RowStart(e, LobeStride(p)), LobeStride(p);
      off + stride <= |zero| && |mid| == |zero| && Bounded(mid[off..off + stride], 0)
  {
    RowFits(e, p.lobes, LobeStride(p));
    TailStillZero(zero, mid, done, LobeStride(p));
  }

  lemma ShapeFacts(p: CoupParams, pages: seq<seq<i8>>)
    requires Runnable(p) && GoodPages(pages, p)
    ensures p.bankPages >= 1 && |pages| == p.bankPages
  {
  }

  lemma LobeSumsSnoc(sha: Hash, sigma: Digest, p: CoupParams, pages: seq<seq<i8>>, state: seq<i8>, b: nat, e: nat)
    requires p.bankPages >= 1 && |pages| == p.bankPages && e < p.lobes && |state| == StateBytes(p)
    ensures LobeSums(sha, sigma, p, pages, state, b, e + 1) == LobeSums(sha, sigma, p, pages, state, b, e)
      + LobeSum(LobeSlice(state, p, e), pages, LobePages(sha, sigma, p, b, e), p.rowsPerLobe, p.lobeWidth)
    ensures RowStart(e + 1, LobeStride(p)) == RowStart(e, LobeStride(p)) + LobeStride(p)
  {
    RowStep(e, LobeStride(p));
  }

  lemma AddedToZero(before: seq<i64>, after: seq<i64>, add: seq<int>)
    requires AddedAt(before, after, 0, add) && |add| == |before| && AllZero(before)
    ensures after == add
  {
  }

  function TaggedU32U32(sha: Hash, tag: string, a: Digest, x: nat, y: nat): Digest {
    sha(Ascii(tag) + a + LittleEndian(x, 4) + LittleEndian(y, 4))
  }

  /** The lane mask of a barrier: the first generator word, cut to the state size. */
  function MixMask(sha: Hash, sigma: Digest, b: nat, n: nat): nat
    requires n >= 1
  {
    BitAnd(WordAt(sha, TaggedU32U32(sha, MAT_XCHG_TAG, sigma, b, EXCHANGE_ROWS), 0), n - 1)
  }

  lemma MaskInRange(sha: Hash, sigma: Digest, b: nat, n: nat)
    requires n >= 1 && IsPow2(n)
    ensures MixMask(sha, sigma, b, n) < n
  {
    hide BitAnd, WordAt, IsPow2, TaggedU32U32;
    AndBelow(WordAt(sha, TaggedU32U32(sha, MAT_XCHG_TAG, sigma, b, EXCHANGE_ROWS), 0), n);
  }

  /** Even barriers mix upwards, odd ones downwards. */
  ghost predicate IsAllToAllMix(sha: Hash, sigma: Digest, b: nat, before: seq<i64>, after: seq<i64>) {
    var n := |before|;
    && n >= 2 && IsPow2(n)
    && var mask := MixMask(sha, sigma, b, n);
       if b % 2 == 0 then IsMixed(Ascending, Log2(n), before, after, UpLane(mask))
       else IsMixed(Descending, Log2(n), before, after, DownLane(mask, DownBits(n), n))
  }

  /** The register width `mix_descending` rotates in; at least one bit. */
  function DownBits(n: nat): (k: nat)
    requires n >= 2 && IsPow2(n)
    ensures k >= 1 && k == Log2(n)
  {
    assert Log2(n) == 1 + Log2(n / 2);
    Log2(n)
  }

  method AllToAllMix(acc: array<i64>, sha: Hash, sigma: Digest, b: nat)
    requires 2 <= acc.Length < W32 && IsPow2(acc.Length)
    modifies acc
    ensures IsAllToAllMix(sha, sigma, b, old(acc[..]), acc[..])
  {
    hide WordAt, Pow2, BitAnd, IsMixed, UpLane, DownLane, TaggedU32U32;
    var n := acc.Length;
    var xof := new ShaXof(sha, TaggedU32U32(sha, MAT_XCHG_TAG, sigma, b, EXCHANGE_ROWS));
    var word := xof.Next();
    var mask := BitAnd(word, n - 1);
    MaskInRange(sha, sigma, b, n);
    ghost var k := DownBits(n);
    hide Log2, IsPow2;
    if b % 2 == 0 {
      MixAscending(acc, mask, n);
    } else {
      MixDescending(acc, mask, n);
    }
  }

  /** The intermediate lanes of one barrier. */
  datatype Trace = Trace(sums: seq<i64>, permuted: seq<i64>, mixed: seq<i64>, rounds: seq<seq<i64>>)

  function ExtractPrf(sha: Hash, sigma: Digest, b: nat): Digest {
    PrfKey(sha, TaggedU32U32(sha, EXTRACT_TAG, sigma, b, 0))
  }

  /** One whole barrier: sums, balanced permutation, mix, exchange rounds, Extract. */
  ghost predicate IsBarrier(pr: Primitives, sigma: Digest, p: CoupParams, pages: seq<seq<i8>>, b: nat,
                            state: seq<i8>, tr: Trace, next: seq<i8>)
    requires Runnable(p) && |pages| == p.bankPages && |state| == StateBytes(p) && TilesProductive(pr.chacha)
  {
    && tr.sums == LobeSums(pr.sha, sigma, p, pages, state, b, p.lobes)
    && IsScatter(tr.sums, Shuffled(pr.sha, TaggedU32(pr.sha, PERM_TAG, sigma, b), StateBytes(p)), tr.permuted)
    && IsAllToAllMix(pr.sha, sigma, b, tr.permuted, tr.mixed)
    && |tr.rounds| == p.exchangeRounds + 1 && tr.rounds[0] == tr.mixed
    && IsRun(pr.sha, sigma, b, 0, tr.rounds)
    && |tr.rounds[p.exchangeRounds]| == |state|
    && next == ExtractOver(pr, ExtractPrf(pr.sha, sigma, b), tr.rounds[p.exchangeRounds], state)
  }

  method RunBarrier(pr: Primitives, sigma: Digest, p: CoupParams, pages: seq<seq<i8>>, b: nat,
                    state: array<i8>)
    returns (ghost tr: Trace)
    requires Runnable(p) && GoodPages(pages, p) && state.Length == StateBytes(p) && AllMx(state[..])
    requires TilesProductive(pr.chacha)
    modifies state
    ensures IsBarrier(pr, sigma, p, pages, b, old(state[..]), tr, state[..]) && AllMx(state[..])
  {
    var n := StateBytes(p);
    hide LobeSums, Shuffled, IsScatter, IsAllToAllMix, IsRun, RowStart, TilesProductive, GoodPages, AllMx, IsPerm, ExtractOver;
    ghost var before := state[..];
    var acc := AllLobes(pr.sha, sigma, p, pages, state[..], b);
    ghost var sums := acc[..];
    var pi := Shuffle(pr.sha, TaggedU32(pr.sha, PERM_TAG, sigma, b), n);
    ApplyPerm(acc, pi[..]);
    ghost var permuted := acc[..];
    AllToAllMix(acc, pr.sha, sigma, b);
    ghost var mixed := acc[..];
    ghost var rounds := MaterialExchangeRounds(acc, pr.sha, sigma, b, p.exchangeRounds);
    ExtractActive(pr, ExtractPrf(pr.sha, sigma, b), acc[..], state);
    OverMx(pr, ExtractPrf(pr.sha, sigma, b), acc[..], before);
    tr := Trace(sums, permuted, mixed, rounds);
  }

  // ---------------------------------------------------------------- the episode

  /** Page `i` of a bank. */
  ghost function BankPage(sha: Hash, brs: Digest, i: nat, p: CoupParams): (page: seq<i8>)
    requires SeedsProductive(sha)
    ensures |page| == RowStart(p.lobeWidth, p.lobeWidth)
  {
    Operand(sha, TaggedU32(sha, BANK_TAG, brs, i), p.lobeWidth, p.lobeWidth)
  }

  method DeriveBankPages(sha: Hash, brs: Digest, p: CoupParams) returns (pages: seq<seq<i8>>)
    requires SeedsProductive(sha) && p.lobeWidth % BLOCK == 0
    ensures GoodPages(pages, p)
    ensures forall i :: 0 <= i < p.bankPages ==> pages[i] == BankPage(sha, brs, i, p)
  {
    hide RowStart, IsMxValue, SeedsProductive, Operand;
    pages := [];
    for i := 0 to p.bankPages
      invariant |pages| == i
      invariant forall k :: 0 <= k < i ==> pages[k] == BankPage(sha, brs, k, p)
      invariant forall k :: 0 <= k < i ==> |pages[k]| == RowStart(p.lobeWidth, p.lobeWidth) && AllMx(pages[k])
    {
      var page := ExpandMxDequant(sha, TaggedU32(sha, BANK_TAG, brs, i), p.lobeWidth, p.lobeWidth);
      pages := pages + [page];
    }
  }

  /** The fresh activation of a lobe: its direct M-by-W expansion. */
  ghost function Activation(sha: Hash, sigma: Digest, p: CoupParams, e: nat): (rows: seq<i8>)
    requires SeedsProductive(sha)
    ensures |rows| == LobeStride(p) && AllMx(rows)
  {
    Operand(sha, TaggedU32(sha, LOBE_TAG, sigma, e), p.rowsPerLobe, p.lobeWidth)
  }

  ghost function InitialState(sha: Hash, sigma: Digest, p: CoupParams, l: nat): (s: seq<i8>)
    requires SeedsProductive(sha)
    ensures |s| == RowStart(l, LobeStride(p)) && AllMx(s)
  {
    if l == 0 then NoRows(LobeStride(p)); [] else
      RowStep(l - 1, LobeStride(p));
      var before := InitialState(sha, sigma, p, l - 1);
      AppendMx(before, Activation(sha, sigma, p, l - 1));
      before + Activation(sha, sigma, p, l - 1)
  }

  /** The first `M` rows copied out of a W-by-W tile are the direct M-by-W expansion. */
  lemma CopiedRows(sha: Hash, seed: Digest, p: CoupParams)
    requires SeedsProductive(sha) && p.rowsPerLobe <= p.lobeWidth
    ensures LobeStride(p) <= RowStart(p.lobeWidth, p.lobeWidth)
    ensures Operand(sha, seed, p.lobeWidth, p.lobeWidth)[..LobeStride(p)]
         == Operand(sha, seed, p.rowsPerLobe, p.lobeWidth)
  {
    OperandPrefix(sha, seed, p.rowsPerLobe, p.lobeWidth, p.lobeWidth);
  }

  /** Each lobe's tile contributes its first rows. */
  lemma InitialStep(sha: Hash, sigma: Digest, p: CoupParams, e: nat, tile: seq<i8>)
    requires SeedsProductive(sha) && p.rowsPerLobe <= p.lobeWidth
    requires tile == Operand(sha, TaggedU32(sha, LOBE_TAG, sigma, e), p.lobeWidth, p.lobeWidth)
    ensures LobeStride(p) <= |tile|
    ensures InitialState(sha, sigma, p, e + 1) == InitialState(sha, sigma, p, e) + tile[..LobeStride(p)]
  {
    hide SeedsProductive, Operand, AllMx, RowStart, LobeStride;
    CopiedRows(sha, TaggedU32(sha, LOBE_TAG, sigma, e), p);
  }

  method InitState(sha: Hash, sigma: Digest, p: CoupParams) returns (state: array<i8>)
    requires SeedsProductive(sha) && Runnable(p)
    ensures fresh(state) && state.Length == StateBytes(p)
    ensures state[..] == InitialState(sha, sigma, p, p.lobes)
  {
    var stride := LobeStride(p);
    state := new i8[StateBytes(p)];
    NoRows(stride);
    assert p.lobeWidth % BLOCK == 0 && p.rowsPerLobe <= p.lobeWidth && StateBytes(p) == RowStart(p.lobes, stride);
    assert InitialState(sha, sigma, p, 0) == [];
    hide *;
    for e := 0 to p.lobes
      invariant RowStart(e, stride) <= state.Length
      invariant state[..RowStart(e, stride)] == InitialState(sha, sigma, p, e)
    {
      var seed, off := TaggedU32(sha, LOBE_TAG, sigma, e), RowStart(e, stride);
      var tile := ExpandMxDequant(sha, seed, p.lobeWidth, p.lobeWidth);
      InitialStep(sha, sigma, p, e, tile);
      RowFits(e, p.lobes, stride);
      RowStep(e, stride);
      ReplacedStart(state[..], off, tile[..stride]);
      CopyInto(state, off, tile[..stride]);
    }
    WholePrefix(state[..]);
  }

  function BarrierRoot(sha: Hash, b: nat, state: seq<i8>): Digest {
    Sha256d(sha, Ascii(BARRIER_TAG) + LittleEndian(b, 4) + U8s(state))
  }

  function CoupledDigest(sha: Hash, bankRoot: Digest, roots: seq<Digest>): Digest {
    Sha256d(sha, Ascii(COUPLED_EPISODE_TAG) + bankRoot + Joined(roots))
  }

  function BarrierRoots(sha: Hash, states: seq<seq<i8>>): (roots: seq<Digest>)
    requires |states| >= 1
    ensures |roots| == |states| - 1
  {
    seq<Digest>(|states| - 1, b requires 0 <= b < |states| - 1 => BarrierRoot(sha, b, states[b + 1]))
  }

  /** A whole run: the fresh state, then one barrier after another. */
  ghost predicate IsCoupledRun(pr: Primitives, sigma: Digest, p: CoupParams, pages: seq<seq<i8>>,
                               states: seq<seq<i8>>, trs: seq<Trace>)
    requires Runnable(p) && |pages| == p.bankPages && TilesProductive(pr.chacha) && SeedsProductive(pr.sha)
  {
    && |states| == |trs| + 1 && states[0] == InitialState(pr.sha, sigma, p, p.lobes)
    && (forall b :: 0 <= b < |states| ==> |states[b]| == StateBytes(p))
    && (forall b :: 0 <= b < |trs| ==> IsBarrier(pr, sigma, p, pages, b, states[b], trs[b], states[b + 1]))
  }

  /** The per-nonce leg. Every state, before the first barrier and after each, consists of operand values. */
  method RunCoupledWithBank(pr: Primitives, sigma: Digest, p: CoupParams, pages: seq<seq<i8>>, bankRoot: Digest)
    returns (digest: Digest, ghost states: seq<seq<i8>>, ghost trs: seq<Trace>)
    requires Runnable(p) && GoodPages(pages, p) && TilesProductive(pr.chacha) && SeedsProductive(pr.sha)
    ensures IsCoupledRun(pr, sigma, p, pages, states, trs) && |trs| == p.barriers
    ensures forall b :: 0 <= b <= p.barriers ==> AllMx(states[b])
    ensures digest == CoupledDigest(pr.sha, bankRoot, BarrierRoots(pr.sha, states))
  {
    hide RowStart, IsBarrier, Runnable, TilesProductive, SeedsProductive, IsMxValue, BarrierRoot, InitialState, AllMx;
    assert GoodPages(pages, p) && |pages| == p.bankPages;
    hide GoodPages;
    var state := InitState(pr.sha, sigma, p);
    var roots: seq<Digest> := [];
    states, trs := [state[..]], [];
    for b := 0 to p.barriers
      invariant |trs| == b && |states| == b + 1 && states[b] == state[..] && fresh(state)
      invariant IsCoupledRun(pr, sigma, p, pages, states, trs)
      invariant forall k :: 0 <= k <= b ==> AllMx(states[k])
      invariant roots == BarrierRoots(pr.sha, states)
    {
      ghost var tr := RunBarrier(pr, sigma, p, pages, b, state);
      roots := roots + [BarrierRoot(pr.sha, b, state[..])];
      states, trs := states + [state[..]], trs + [tr];
    }
    digest := CoupledDigest(pr.sha, bankRoot, roots);
  }

  /** The medium and the production shape can run. */
  lemma ShippedShapesRun()
    ensures Runnable(MEDIUM) && Runnable(PRODUCTION)
  {
    assert Pow2(3) == 8 && Pow2(5) == 32;
    Pow2Add(5, 5);
    Pow2Add(10, 3);
    Pow2Add(10, 10);
    Pow2Add(20, 3);
    Pow2IsPow2(13);
    Pow2IsPow2(23);
    assert StateBytes(MEDIUM) == Pow2(13) && StateBytes(PRODUCTION) == Pow2(23);
  }

  // ---------------------------------------------------------------- replay

  /** The closed form fixes every lane. */
  lemma MixDeterministic(sha: Hash, sigma: Digest, b: nat, s: seq<i64>, t: seq<i64>, u: seq<i64>)
    requires IsAllToAllMix(sha, sigma, b, s, t) && IsAllToAllMix(sha, sigma, b, s, u) && |s| < W32
    ensures t == u
  {
    var k, mask := DownBits(|s|), MixMask(sha, sigma, b, |s|);
    MaskInRange(sha, sigma, b, |s|);
    WordIsPow2();
    LogBound(k, 32);
    hide MixMask, Pow2, DownLane, UpLane, Log2, IsMixed;
    if b % 2 == 0 { UpDetermined(k, mask, s, t, u); } else { DownDetermined(k, mask, s, t, u); }
  }

  lemma UpDetermined(k: nat, mask: nat, s: seq<i64>, t: seq<i64>, u: seq<i64>)
    requires IsMixed(Ascending, k, s, t, UpLane(mask)) && IsMixed(Ascending, k, s, u, UpLane(mask)) && mask < Pow2(k)
    ensures t == u
  {
    assert |t| == |u| == Pow2(k);
    hide *;
    var lane := UpLane(mask);
    UpLaneIsMap(mask, k);
    forall p | 0 <= p < |t| ensures t[p] == u[p] {
      var q: nat := UpLaneOnto(mask, k, p);
      SameLane(Ascending, k, s, t, u, lane, q);
      LanesAre(t, u, lane(q));
    }
  }

  lemma UpLaneOnto(mask: nat, k: nat, p: nat) returns (q: nat)
    requires mask < Pow2(k) && p < Pow2(k)
    ensures q < Pow2(k) && UpLane(mask)(q) == p
  {
    UpLaneIsMap(mask, k);
    q := UpLane(mask)(p);
  }

  lemma DownDetermined(k: nat, mask: nat, s: seq<i64>, t: seq<i64>, u: seq<i64>)
    requires 1 <= k <= 32 && mask < Pow2(k)
    requires IsMixed(Descending, k, s, t, DownLane(mask, k, Pow2(k))) && IsMixed(Descending, k, s, u, DownLane(mask, k, Pow2(k)))
    ensures t == u
  {
    assert |t| == |u| == Pow2(k);
    hide *;
    var lane := DownLane(mask, k, Pow2(k));
    forall p | 0 <= p < |t| ensures t[p] == u[p] {
      var q := DownLaneOnto(mask, k, p);
      SameLane(Descending, k, s, t, u, lane, q);
      LanesAre(t, u, lane(q));
    }
  }

  lemma LanesAre(t: seq<i64>, u: seq<i64>, p: int)
    requires 0 <= p < |t| && |t| == |u| && At(t, p) == At(u, p)
    ensures t[p] == u[p]
  {
  }

  lemma SameLane(kind: Kind, k: nat, s: seq<i64>, t: seq<i64>, u: seq<i64>, lane: int -> int, q: nat)
    requires IsMixed(kind, k, s, t, lane) && IsMixed(kind, k, s, u, lane) && q < Pow2(k)
    ensures At(t, lane(q)) == At(u, lane(q))
  {
    hide Transform, ToI64;
  }

  lemma {:induction false} RunDeterministic(sha: Hash, sigma: Digest, b: nat, ss: seq<seq<i64>>, ts: seq<seq<i64>>, k: nat)
    requires IsRun(sha, sigma, b, 0, ss) && IsRun(sha, sigma, b, 0, ts) && |ss| == |ts| && k < |ss| && ss[0] == ts[0]
    ensures ss[k] == ts[k]
  {
    hide XorStream, Exchange.RoundSeed, Fold, Shuffled, IsPerm;
    if k > 0 {
      RunDeterministic(sha, sigma, b, ss, ts, k - 1);
      var s := ss[k - 1];
      var seed := Exchange.RoundSeed(sha, sigma, b, 0 + (k - 1), Fold(s));
      assert IsRound(sha, seed, ss[k - 1], ss[k - 1 + 1]) && IsRound(sha, seed, ts[k - 1], ts[k - 1 + 1]);
      ShuffledIsPerm(sha, seed, |s|);
      ScatterUnique(XorStream(sha, seed, s), Shuffled(sha, seed, |s|), ss[k], ts[k]);
    }
  }

  /** A barrier is a function of the state it starts from: a replay reaches the same state. */
  lemma BarrierDeterministic(pr: Primitives, sigma: Digest, p: CoupParams, pages: seq<seq<i8>>, b: nat,
                             s: seq<i8>, tr: Trace, t: seq<i8>, tr': Trace, t': seq<i8>)
    requires Runnable(p) && |pages| == p.bankPages && |s| == StateBytes(p) && TilesProductive(pr.chacha)
    requires IsBarrier(pr, sigma, p, pages, b, s, tr, t) && IsBarrier(pr, sigma, p, pages, b, s, tr', t')
    ensures t == t'
  {
    var n := StateBytes(p);
    var seed := TaggedU32(pr.sha, PERM_TAG, sigma, b);
    assert |tr.sums| == n && |tr.permuted| == n;
    hide LobeSums, RowStart, IsAllToAllMix, IsRun, Shuffled, IsPerm, TilesProductive, ExtractOver;
    ShuffledIsPerm(pr.sha, seed, n);
    ScatterUnique(tr.sums, Shuffled(pr.sha, seed, n), tr.permuted, tr'.permuted);
    MixDeterministic(pr.sha, sigma, b, tr.permuted, tr.mixed, tr'.mixed);
    RunDeterministic(pr.sha, sigma, b, tr.rounds, tr'.rounds, p.exchangeRounds);
  }

  /** Whole runs replay: the same nonce and bank give the same states, hence the same digest. */
  lemma {:induction false} RunsReplay(pr: Primitives, sigma: Digest, p: CoupParams, pages: seq<seq<i8>>,
                                      ss: seq<seq<i8>>, trs: seq<Trace>, ts: seq<seq<i8>>, trs': seq<Trace>, k: nat)
    requires Runnable(p) && |pages| == p.bankPages && TilesProductive(pr.chacha) && SeedsProductive(pr.sha)
    requires IsCoupledRun(pr, sigma, p, pages, ss, trs) && IsCoupledRun(pr, sigma, p, pages, ts, trs')
    requires |trs| == |trs'| && k < |ss|
    ensures ss[k] == ts[k]
  {
    hide IsBarrier, Runnable, TilesProductive, SeedsProductive, InitialState, RowStart;
    if k > 0 {
      RunsReplay(pr, sigma, p, pages, ss, trs, ts, trs', k - 1);
      assert IsBarrier(pr, sigma, p, pages, k - 1, ss[k - 1], trs[k - 1], ss[k - 1 + 1]);
      assert IsBarrier(pr, sigma, p, pages, k - 1, ts[k - 1], trs'[k - 1], ts[k - 1 + 1]);
      BarrierDeterministic(pr, sigma, p, pages, k - 1, ss[k - 1], trs[k - 1], ss[k], trs'[k - 1], ts[k]);
    }
  }
}
