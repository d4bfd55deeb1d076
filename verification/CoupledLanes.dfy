/** Single lanes of a barrier, and the seeds its operands are drawn from. */
module CoupledLanes {
  import opened Arith
  import opened Bits
  import opened Bytes
  import opened Butterfly
  import opened Coupled
  import opened Draws
  import opened Expand
  import opened Extract
  import opened Gemm
  import opened Mix
  import opened Permutation
  import opened Recall
  import opened Schedule
  import opened Seeds
  import opened Sums
  import opened Xof

  // ---------------------------------------------------------------- the sums of a lobe

  /** Entry (r, c) of the product of a lobe's rows with the page in slot `k` of its schedule. */
  function PageTerm(rows: seq<int>, pages: seq<seq<i8>>, ids: seq<nat>, w: nat, r: nat, c: nat, k: int): int {
    if 0 <= k < |ids| && ids[k] < |pages| then Dot(rows, pages[ids[k]], w, w, r, c, w) else 0
  }

  lemma {:induction false} PagesAddUp(rows: seq<int>, pages: seq<seq<i8>>, ids: seq<nat>, m: nat, w: nat, r: nat, c: nat, k: nat)
    requires r < m && c < w && k <= |ids| && forall j :: 0 <= j < |ids| ==> ids[j] < |pages|
    ensures RowStart(r, w) + c < RowStart(m, w)
    ensures LobeSum(rows, pages, ids[..k], m, w)[RowStart(r, w) + c] == Sum(k, j => PageTerm(rows, pages, ids, w, r, c, j))
    decreases k
  {
    RowFits(r, m, w);
    if k > 0 {
      PagesAddUp(rows, pages, ids, m, w, r, c, k - 1);
      LobeSumSnoc(rows, pages, ids, k - 1, m, w);
      ProductCell(rows, pages[ids[k - 1]], m, w, w, r, c);
    }
    hide Product, Dot, RowStart;
  }

  lemma LobeOfSums(sha: Hash, sigma: Digest, p: CoupParams, pages: seq<seq<i8>>, state: seq<i8>, b: nat, l: nat, e: nat)
    requires p.bankPages >= 1 && |pages| == p.bankPages && e < l <= p.lobes && |state| == StateBytes(p)
    ensures RowStart(e, LobeStride(p)) + LobeStride(p) <= RowStart(l, LobeStride(p))
    ensures RowOf(LobeSums(sha, sigma, p, pages, state, b, l), e, LobeStride(p))
         == LobeSum(LobeSlice(state, p, e), pages, LobePages(sha, sigma, p, b, e), p.rowsPerLobe, p.lobeWidth)
    decreases l
  {
    hide *;
    LobeSumsSnoc(sha, sigma, p, pages, state, b, l - 1);
    RowAppended(LobeSums(sha, sigma, p, pages, state, b, l - 1),
                LobeSum(LobeSlice(state, p, l - 1), pages, LobePages(sha, sigma, p, b, l - 1), p.rowsPerLobe, p.lobeWidth),
                l, LobeStride(p), e);
    if e < l - 1 { LobeOfSums(sha, sigma, p, pages, state, b, l - 1, e); }
  }

  lemma CellOfRow(m: seq<int>, e: nat, stride: nat, k: nat)
    requires k < stride && RowStart(e, stride) + stride <= |m|
    ensures RowOf(m, e, stride)[k] == m[RowStart(e, stride) + k]
  {
  }

  /** Lane `(e, r, c)` of a barrier's sums: row `r` of lobe `e` against column `c` of each page its schedule
      names, one page after the other. */
  lemma LobeCell(sha: Hash, sigma: Digest, p: CoupParams, pages: seq<seq<i8>>, state: seq<i8>, b: nat, e: nat, r: nat, c: nat)
    requires p.bankPages >= 1 && |pages| == p.bankPages && |state| == StateBytes(p)
    requires e < p.lobes && r < p.rowsPerLobe && c < p.lobeWidth
    ensures var ids := Selection(PagePerm(sha, sigma, p.bankPages), p, b, e);
      var lane := RowStart(e, LobeStride(p)) + (RowStart(r, p.lobeWidth) + c);
      && lane < RowStart(p.lobes, LobeStride(p))
      && LobeSums(sha, sigma, p, pages, state, b, p.lobes)[lane]
         == Sum(p.pagesPerBarrierLobe, k => PageTerm(LobeSlice(state, p, e), pages, ids, p.lobeWidth, r, c, k))
  {
    hide *;
    LaneInPages(sha, sigma, p, pages, state, b, e, r, c);
    LaneInLobe(sha, sigma, p, pages, state, b, e, RowStart(r, p.lobeWidth) + c);
  }

  lemma LaneInPages(sha: Hash, sigma: Digest, p: CoupParams, pages: seq<seq<i8>>, state: seq<i8>, b: nat, e: nat, r: nat, c: nat)
    requires p.bankPages >= 1 && |pages| == p.bankPages && |state| == StateBytes(p)
    requires e < p.lobes && r < p.rowsPerLobe && c < p.lobeWidth
    ensures RowStart(r, p.lobeWidth) + c < LobeStride(p)
    ensures var ids := Selection(PagePerm(sha, sigma, p.bankPages), p, b, e);
      LobeSum(LobeSlice(state, p, e), pages, LobePages(sha, sigma, p, b, e), p.rowsPerLobe, p.lobeWidth)
        [RowStart(r, p.lobeWidth) + c]
         == Sum(p.pagesPerBarrierLobe, k => PageTerm(LobeSlice(state, p, e), pages, ids, p.lobeWidth, r, c, k))
  {
    var ids, rows, w := LobePages(sha, sigma, p, b, e), LobeSlice(state, p, e), p.lobeWidth;
    hide LobeSum, RowStart, PageTerm, Sum, LobeSlice, PagePerm, IsPerm;
    WholePrefix(ids);
    PagesAddUp(rows, pages, ids, p.rowsPerLobe, w, r, c, |ids|);
  }

  lemma LaneInLobe(sha: Hash, sigma: Digest, p: CoupParams, pages: seq<seq<i8>>, state: seq<i8>, b: nat, e: nat, k: nat)
    requires p.bankPages >= 1 && |pages| == p.bankPages && |state| == StateBytes(p) && e < p.lobes && k < LobeStride(p)
    ensures RowStart(e, LobeStride(p)) + k < RowStart(p.lobes, LobeStride(p))
    ensures LobeSums(sha, sigma, p, pages, state, b, p.lobes)[RowStart(e, LobeStride(p)) + k]
         == LobeSum(LobeSlice(state, p, e), pages, LobePages(sha, sigma, p, b, e), p.rowsPerLobe, p.lobeWidth)[k]
  {
    hide *;
    LobeOfSums(sha, sigma, p, pages, state, b, p.lobes, e);
    CellOfRow(LobeSums(sha, sigma, p, pages, state, b, p.lobes), e, LobeStride(p), k);
  }

  /** The rows a lobe multiplies are its own part of the state. */
  lemma SliceCell(state: seq<i8>, p: CoupParams, e: nat, k: nat)
    requires e < p.lobes && |state| == StateBytes(p) && k < LobeStride(p)
    ensures RowStart(e, LobeStride(p)) + k < |state| && LobeSlice(state, p, e)[k] == state[RowStart(e, LobeStride(p)) + k]
  {
    RowFits(e, p.lobes, LobeStride(p));
    hide RowStart;
  }

  // ---------------------------------------------------------------- permutation, then mix

  function Lane(s: seq<i64>, k: int): int { if 0 <= k < |s| then s[k] else 0 }

  /** Where the scatter of a barrier takes lane `q` from. */
  function Origin(pi: seq<nat>, q: int): int { if q >= 0 && q as nat in pi then Place(pi, q) else -1 }

  /** The signed sum for index `i`: input `j` is the sum that the permutation moved to lane `lane(j)`. */
  function MixTerms(kind: Kind, k: nat, sums: seq<i64>, pi: seq<nat>, lane: int -> int, i: nat): int -> int {
    j => Signed(kind, k, i, j, Lane(sums, Origin(pi, lane(j))))
  }

  /** A mixed lane, from the sums of the lobes: the signed sum over all of them, each taken from where the
      balanced permutation moved it, wrapped to 64 bits. The permutation comes first. */
  lemma MixedLane(pr: Primitives, sigma: Digest, p: CoupParams, pages: seq<seq<i8>>, b: nat,
                  state: seq<i8>, tr: Trace, next: seq<i8>, i: nat)
    requires Runnable(p) && |pages| == p.bankPages && |state| == StateBytes(p) && TilesProductive(pr.chacha)
    requires IsBarrier(pr, sigma, p, pages, b, state, tr, next) && i < StateBytes(p)
    ensures var n := StateBytes(p);
      var k, mask := Log2(n), MixMask(pr.sha, sigma, b, n);
      var kind := if b % 2 == 0 then Ascending else Descending;
      var lane := if b % 2 == 0 then UpLane(mask) else DownLane(mask, DownBits(n), n);
      var pi := Shuffled(pr.sha, TaggedU32(pr.sha, PERM_TAG, sigma, b), n);
      At(tr.mixed, lane(i)) == ToI64(Sum(n, MixTerms(kind, k, LobeSums(pr.sha, sigma, p, pages, state, b, p.lobes), pi, lane, i)))
  {
    var n := StateBytes(p);
    var k, mask := Log2(n), MixMask(pr.sha, sigma, b, n);
    var kind := if b % 2 == 0 then Ascending else Descending;
    var lane := if b % 2 == 0 then UpLane(mask) else DownLane(mask, DownBits(n), n);
    var pi := Shuffled(pr.sha, TaggedU32(pr.sha, PERM_TAG, sigma, b), n);
    ShuffledIsPerm(pr.sha, TaggedU32(pr.sha, PERM_TAG, sigma, b), n);
    assert IsMixed(kind, k, tr.permuted, tr.mixed, lane) && |tr.sums| == n == Pow2(k);
    hide LobeSums, Shuffled, IsPerm, MixMask, IsAllToAllMix, UpLane, DownLane, ExtractOver,
         RowStart, TilesProductive, Log2, Pow2, StateBytes;
    MixedFrom(kind, k, tr.sums, pi, tr.permuted, tr.mixed, lane, i);
  }

  lemma MixedFrom(kind: Kind, k: nat, sums: seq<i64>, pi: seq<nat>, permuted: seq<i64>, mixed: seq<i64>, lane: int -> int, i: nat)
    requires IsScatter(sums, pi, permuted) && IsPerm(pi, |pi|) && IsMixed(kind, k, permuted, mixed, lane) && i < Pow2(k)
    ensures At(mixed, lane(i)) == ToI64(Sum(Pow2(k), MixTerms(kind, k, sums, pi, lane, i)))
  {
    hide *;
    LaneOfMix(kind, k, permuted, mixed, lane, i);
    TransformTaken(kind, k, sums, pi, permuted, lane, i);
  }

  lemma LaneOfMix(kind: Kind, k: nat, before: seq<i64>, mixed: seq<i64>, lane: int -> int, i: nat)
    requires IsMixed(kind, k, before, mixed, lane) && i < Pow2(k)
    ensures At(mixed, lane(i)) == ToI64(Transform(kind, k, Load(before, lane), i))
  {
    hide Transform, ToI64, Pow2;
  }

  lemma TransformTaken(kind: Kind, k: nat, sums: seq<i64>, pi: seq<nat>, permuted: seq<i64>, lane: int -> int, i: nat)
    requires IsScatter(sums, pi, permuted) && IsPerm(pi, |pi|)
    ensures Transform(kind, k, Load(permuted, lane), i) == Sum(Pow2(k), MixTerms(kind, k, sums, pi, lane, i))
  {
    hide *;
    var f, g := Terms(kind, k, Load(permuted, lane), i), MixTerms(kind, k, sums, pi, lane, i);
    TransformIs(kind, k, Load(permuted, lane), i);
    forall j: int ensures f(j) == g(j) {
      TermTaken(kind, k, sums, pi, permuted, lane, i, j);
    }
    SumExt(Pow2(k), f, g);
  }

  lemma TermTaken(kind: Kind, k: nat, sums: seq<i64>, pi: seq<nat>, permuted: seq<i64>, lane: int -> int, i: nat, j: int)
    requires IsScatter(sums, pi, permuted) && IsPerm(pi, |pi|)
    ensures Terms(kind, k, Load(permuted, lane), i)(j) == MixTerms(kind, k, sums, pi, lane, i)(j)
  {
    TakenFrom(sums, pi, permuted, lane(j));
    hide Signed, Origin, IsPerm, IsScatter;
  }

  lemma TakenFrom(sums: seq<i64>, pi: seq<nat>, permuted: seq<i64>, q: int)
    requires IsScatter(sums, pi, permuted) && IsPerm(pi, |pi|)
    ensures At(permuted, q) == Lane(sums, Origin(pi, q))
  {
  }

  // ---------------------------------------------------------------- the state after a barrier

  /** Tile `t` of the next state is extracted from lanes `32 * t` to `32 * t + 31` of the last exchange round,
      under the barrier's own key and keyed by (0, t). */
  lemma TileOfState(pr: Primitives, sigma: Digest, p: CoupParams, pages: seq<seq<i8>>, b: nat,
                    state: seq<i8>, tr: Trace, next: seq<i8>, t: nat)
    requires Runnable(p) && |pages| == p.bankPages && |state| == StateBytes(p) && TilesProductive(pr.chacha)
    requires IsBarrier(pr, sigma, p, pages, b, state, tr, next) && BLOCK * (t + 1) <= StateBytes(p)
    ensures |tr.rounds| == p.exchangeRounds + 1 && |tr.rounds[p.exchangeRounds]| == |next| == |state|
    ensures next[BLOCK * t..BLOCK * t + BLOCK]
         == Tile(pr, ExtractPrf(pr.sha, sigma, b), 0, t, tr.rounds[p.exchangeRounds][BLOCK * t..BLOCK * (t + 1)])
  {
    TileOver(pr, ExtractPrf(pr.sha, sigma, b), tr.rounds[p.exchangeRounds], state, t);
    hide ExtractOver, Tile, ExtractPrf, LobeSums, IsScatter, IsAllToAllMix, TilesProductive, StateBytes;
  }

  lemma TileOver(pr: Primitives, prf: Digest, raw: seq<int>, before: seq<i8>, t: nat)
    requires TilesProductive(pr.chacha) && |before| == |raw| && BLOCK * (t + 1) <= |raw|
    ensures ExtractOver(pr, prf, raw, before)[BLOCK * t..BLOCK * t + BLOCK]
         == Tile(pr, prf, 0, t, raw[BLOCK * t..BLOCK * (t + 1)])
  {
    hide Tile, TilesProductive, ExtractTiles;
    var nb := |raw| / BLOCK;
    TileOfTiles(pr, prf, 0, raw, nb, t);
    SliceLeft(ExtractTiles(pr, prf, 0, raw, nb), before[BLOCK * nb..], BLOCK * t, BLOCK * t + BLOCK);
  }

  // ---------------------------------------------------------------- the first state

  /** Lobe `e` of the first state is its own expansion. */
  lemma {:induction false} LobeOfState(sha: Hash, sigma: Digest, p: CoupParams, l: nat, e: nat)
    requires SeedsProductive(sha) && e < l
    ensures RowStart(e, LobeStride(p)) + LobeStride(p) <= RowStart(l, LobeStride(p))
    ensures RowOf(InitialState(sha, sigma, p, l), e, LobeStride(p)) == Activation(sha, sigma, p, e)
    decreases l
  {
    hide *;
    StateGrows(sha, sigma, p, l);
    RowAppended(InitialState(sha, sigma, p, l - 1), Activation(sha, sigma, p, l - 1), l, LobeStride(p), e);
    if e < l - 1 { LobeOfState(sha, sigma, p, l - 1, e); }
  }

  lemma StateGrows(sha: Hash, sigma: Digest, p: CoupParams, l: nat)
    requires SeedsProductive(sha) && l > 0
    ensures InitialState(sha, sigma, p, l) == InitialState(sha, sigma, p, l - 1) + Activation(sha, sigma, p, l - 1)
  {
    hide SeedsProductive, RowStart, Activation;
  }

  // ---------------------------------------------------------------- seeds

  /** Two lobes of one header are expanded from different seeds, or the hash collides. */
  lemma LobesApart(sha: Hash, sigma: Digest, p: CoupParams, e: nat, e': nat) returns (s: Digest, s': Digest)
    requires SeedsProductive(sha) && e < W32 && e' < W32 && e != e'
    ensures Activation(sha, sigma, p, e) == Operand(sha, s, p.rowsPerLobe, p.lobeWidth)
    ensures Activation(sha, sigma, p, e') == Operand(sha, s', p.rowsPerLobe, p.lobeWidth)
    ensures s != s' || IsShaCollision(sha, SeedPreimage(LOBE_TAG, sigma, e), SeedPreimage(LOBE_TAG, sigma, e'))
  {
    s, s' := TaggedU32(sha, LOBE_TAG, sigma, e), TaggedU32(sha, LOBE_TAG, sigma, e');
    if s == s' { TaggedBinds(sha, LOBE_TAG, sigma, e, sigma, e'); }
  }

  /** So are two pages of one bank. */
  lemma PagesApart(sha: Hash, brs: Digest, p: CoupParams, i: nat, i': nat) returns (s: Digest, s': Digest)
    requires SeedsProductive(sha) && i < W32 && i' < W32 && i != i'
    ensures BankPage(sha, brs, i, p) == Operand(sha, s, p.lobeWidth, p.lobeWidth)
    ensures BankPage(sha, brs, i', p) == Operand(sha, s', p.lobeWidth, p.lobeWidth)
    ensures s != s' || IsShaCollision(sha, SeedPreimage(Coupled.BANK_TAG, brs, i), SeedPreimage(Coupled.BANK_TAG, brs, i'))
  {
    s, s' := TaggedU32(sha, Coupled.BANK_TAG, brs, i), TaggedU32(sha, Coupled.BANK_TAG, brs, i');
    if s == s' { TaggedBinds(sha, Coupled.BANK_TAG, brs, i, brs, i'); }
  }

  /** The bytes hashed into a seed tagged with a digest and two 32-bit words. */
  function PairPreimage(tag: string, a: Digest, x: nat, y: nat): seq<byte> {
    Ascii(tag) + a + LittleEndian(x, 4) + LittleEndian(y, 4)
  }

  /** Under one tag such a seed belongs to its digest and its first word. */
  lemma PairBinds(sha: Hash, tag: string, a: Digest, x: nat, b: Digest, y: nat, z: nat)
    requires x < W32 && y < W32 && TaggedU32U32(sha, tag, a, x, z) == TaggedU32U32(sha, tag, b, y, z)
    ensures (a == b && x == y) || IsShaCollision(sha, PairPreimage(tag, a, x, z), PairPreimage(tag, b, y, z))
  {
    var t, u, v, w := Ascii(tag), LittleEndian(x, 4), LittleEndian(y, 4), LittleEndian(z, 4);
    Words32And64();
    if u == v { LittleEndianInjective(x, y, 4); }
    hide LittleEndian, Ascii;
    if PairPreimage(tag, a, x, z) == PairPreimage(tag, b, y, z) {
      SplitEqual(t + a + u, w, t + b + v, w);
      SplitEqual(t + a, u, t + b, v);
      SplitEqual(t, a, t, b);
    }
  }

  /** The mask of a barrier's mix is the first word of a generator, modulo the size of the state; no two
      barriers share that generator, short of a collision. */
  lemma MasksApart(sha: Hash, sigma: Digest, b: nat, c: nat, n: nat) returns (s: Digest, t: Digest)
    requires b < W32 && c < W32 && b != c && n >= 1 && IsPow2(n)
    ensures MixMask(sha, sigma, b, n) == WordAt(sha, s, 0) % n && MixMask(sha, sigma, c, n) == WordAt(sha, t, 0) % n
    ensures s != t || IsShaCollision(sha, PairPreimage(MAT_XCHG_TAG, sigma, b, EXCHANGE_ROWS),
                                          PairPreimage(MAT_XCHG_TAG, sigma, c, EXCHANGE_ROWS))
  {
    s, t := TaggedU32U32(sha, MAT_XCHG_TAG, sigma, b, EXCHANGE_ROWS), TaggedU32U32(sha, MAT_XCHG_TAG, sigma, c, EXCHANGE_ROWS);
    MaskIsMod(sha, sigma, b, n);
    MaskIsMod(sha, sigma, c, n);
    hide TaggedU32U32, PairPreimage, WordAt, MixMask, IsPow2;
    if s == t { PairBinds(sha, MAT_XCHG_TAG, sigma, b, sigma, c, EXCHANGE_ROWS); }
  }

  lemma MaskIsMod(sha: Hash, sigma: Digest, b: nat, n: nat)
    requires n >= 1 && IsPow2(n)
    ensures MixMask(sha, sigma, b, n) == WordAt(sha, TaggedU32U32(sha, MAT_XCHG_TAG, sigma, b, EXCHANGE_ROWS), 0) % n
  {
    AndBelow(WordAt(sha, TaggedU32U32(sha, MAT_XCHG_TAG, sigma, b, EXCHANGE_ROWS), 0), n);
    hide BitAnd, WordAt, IsPow2, TaggedU32U32;
  }

  /** No two barriers of one header extract under one key, short of a collision in the seed or in the key. */
  lemma ExtractKeysApart(sha: Hash, sigma: Digest, b: nat, c: nat)
    requires b < W32 && c < W32 && b != c
    ensures var x, y := PairPreimage(EXTRACT_TAG, sigma, b, 0), PairPreimage(EXTRACT_TAG, sigma, c, 0);
      || ExtractPrf(sha, sigma, b) != ExtractPrf(sha, sigma, c)
      || IsShaCollision(sha, x, y) || IsShaCollision(sha, Ascii(PRF_TAG) + sha(x), Ascii(PRF_TAG) + sha(y))
  {
    var s, t := TaggedU32U32(sha, EXTRACT_TAG, sigma, b, 0), TaggedU32U32(sha, EXTRACT_TAG, sigma, c, 0);
    assert ExtractPrf(sha, sigma, b) == sha(Ascii(PRF_TAG) + s) && ExtractPrf(sha, sigma, c) == sha(Ascii(PRF_TAG) + t);
    hide LittleEndian, Ascii;
    if s == t { PairBinds(sha, EXTRACT_TAG, sigma, b, sigma, c, 0); }
    if Ascii(PRF_TAG) + s == Ascii(PRF_TAG) + t { SplitEqual(Ascii(PRF_TAG), s, Ascii(PRF_TAG), t); }
  }
}
