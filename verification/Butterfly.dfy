/** The in-place butterfly loops of the coupled kernel, proved against the transforms of `Mix`. */
module Butterfly {
  import opened Arith
  import opened Bits
  import opened Bytes
  import opened Sums
  import opened Mix

  // ---------------------------------------------------------------- lane maps

  /** `lane` carries [0, n) onto itself. */
  ghost predicate IsLaneMap(lane: int -> int, n: nat) {
    && (forall q :: 0 <= q < n ==> 0 <= lane(q) < n)
    && (forall q, r :: 0 <= q < n && 0 <= r < n && lane(q) == lane(r) ==> q == r)
  }

  function UpLane(mask: nat): int -> int { q => if q < 0 then 0 else BitXor(q, mask) }

  /** Rotate left within a word of `bits` bits, on 32-bit registers. */
  function Rotl(x: nat, r: nat, bits: nat, n: nat): nat
    requires bits >= 1 && n >= 1
  {
    var d := r % bits;
    BitAnd(BitOr(Shl(x, d) % W32, Shr(x, bits - d)), n - 1)
  }

  function DownLane(mask: nat, bits: nat, n: nat): int -> int
    requires bits >= 1 && n >= 1
  {
    q => if q < 0 then 0 else Rotl(BitXor(q, mask), 3, bits, n)
  }

  lemma UpLaneIsMap(mask: nat, k: nat)
    requires mask < Pow2(k)
    ensures IsLaneMap(UpLane(mask), Pow2(k))
    ensures forall p :: 0 <= p < Pow2(k) ==> UpLane(mask)(UpLane(mask)(p)) == p
  {
    var lane := UpLane(mask);
    forall q | 0 <= q < Pow2(k) ensures 0 <= lane(q) < Pow2(k) && lane(lane(q)) == q {
      XorBound(q, mask, k);
      XorInvolutive(q, mask);
    }
    forall q, r | 0 <= q < Pow2(k) && 0 <= r < Pow2(k) && lane(q) == lane(r) ensures q == r {
      assert lane(lane(q)) == lane(lane(r));
    }
  }

  lemma ModOfMod(y: nat, m: nat, n: nat)
    requires m >= 1 && n >= 1
    ensures m * n >= 1 && y % (m * n) % n == y % n
  {
    assert y == y / (m * n) * (m * n) + y % (m * n);
    assert y / (m * n) * (m * n) == (y / (m * n) * m) * n;
    ModShift(y % (m * n), y / (m * n) * m, n);
  }

  /** A word cut into its top `d` bits and the `e` bits below them. */
  lemma WordSplit(x: nat, d: nat, e: nat) returns (h: nat, l: nat)
    requires x < Pow2(d + e)
    ensures h == Shr(x, e) && h < Pow2(d) && l < Pow2(e) && x == Shl(h, e) + l
  {
    var low := Pow2(e);
    h, l := Shr(x, e), x % low;
    assert x == h * low + l;
    Pow2Add(d, e);
    LessCancel(h, Pow2(d), low);
  }

  lemma WordJoin(h: nat, l: nat, d: nat, e: nat)
    requires h < Pow2(d) && l < Pow2(e)
    ensures Shl(h, e) + l < Pow2(d + e)
    ensures Shr(Shl(h, e) + l, e) == h && (Shl(h, e) + l) % Pow2(e) == l
  {
    Pow2Add(d, e);
    MulLess(h, Pow2(d), Pow2(e));
    DivModUnique(Shl(h, e) + l, h, l, Pow2(e));
  }

  lemma ShlWraps(h: nat, l: nat, d: nat, e: nat)
    requires h < Pow2(d) && l < Pow2(e)
    ensures Shl(Shl(h, e) + l, d) % Pow2(d + e) == Shl(l, d)
  {
    var x := Shl(h, e) + l;
    Pow2Add(d, e);
    Pow2Add(e, d);
    WordJoin(l, 0, e, d);
    ShiftProduct(h, Pow2(e), l, Pow2(d));
    hide Pow2;
    DivModUnique(Shl(x, d), h, Shl(l, d), Pow2(d + e));
  }

  /** The rotation moves the top `d` bits below the others. */
  lemma RotlSplits(x: nat, r: nat, bits: nat) returns (h: nat, l: nat)
    requires 1 <= bits <= 32 && x < Pow2(bits)
    ensures var d := r % bits;
      && h < Pow2(d) && l < Pow2(bits - d) && x == Shl(h, bits - d) + l
      && Rotl(x, r, bits, Pow2(bits)) == Shl(l, d) + h
  {
    var d, n := r % bits, Pow2(bits);
    h, l := WordSplit(x, d, bits - d);
    ShlWraps(h, l, d, bits - d);
    WordJoin(h, 0, d, bits - d);
    WordIsPow2();
    Pow2Add(32 - bits, bits);
    ModOfMod(Shl(x, d), Pow2(32 - bits), n);
    LowMask(Shl(x, d) % W32, h, bits);
    Pow2Below(d, bits);
    DivModUnique(h, 0, h, n);
    OrDisjoint(l, h, d);
  }

  lemma LowMask(a: nat, b: nat, k: nat)
    ensures BitAnd(BitOr(a, b), Pow2(k) - 1) == BitOr(a % Pow2(k), b % Pow2(k))
  {
    AndLowBits(BitOr(a, b), k);
    OrLowBits(a, b, k);
  }

  lemma Pow2Below(a: nat, b: nat)
    requires a <= b
    ensures Pow2(a) <= Pow2(b)
  {
    if a < b { Pow2Mono(a, b); }
  }

  /** The rotation that undoes `Rotl`. */
  function Unrotl(y: nat, r: nat, bits: nat): nat
    requires bits >= 1
  {
    var d := r % bits;
    Shl(y % Pow2(d), bits - d) + Shr(y, d)
  }

  lemma UnrotlRotl(x: nat, r: nat, bits: nat)
    requires 1 <= bits <= 32 && x < Pow2(bits)
    ensures Rotl(x, r, bits, Pow2(bits)) < Pow2(bits)
    ensures Unrotl(Rotl(x, r, bits, Pow2(bits)), r, bits) == x
  {
    hide Pow2, Rotl, Shl, Shr;
    var h, l := RotlSplits(x, r, bits);
    WordJoin(l, h, bits - r % bits, r % bits);
  }

  lemma RotlUnrotl(y: nat, r: nat, bits: nat)
    requires 1 <= bits <= 32 && y < Pow2(bits)
    ensures Unrotl(y, r, bits) < Pow2(bits) && Rotl(Unrotl(y, r, bits), r, bits, Pow2(bits)) == y
  {
    hide *;
    var d: nat := r % bits;
    var l, h := WordSplit(y, bits - d, d);
    UnrotlIs(y, r, bits, l, h);
    WordJoin(h, l, d, bits - d);
    RotlOf(Unrotl(y, r, bits), r, bits, h, l);
  }

  /** However a word is cut at the rotation, its parts change places. */
  lemma RotlOf(x: nat, r: nat, bits: nat, h: nat, l: nat)
    requires 1 <= bits <= 32 && h < Pow2(r % bits) && l < Pow2(bits - r % bits)
    requires x == Shl(h, bits - r % bits) + l < Pow2(bits)
    ensures Rotl(x, r, bits, Pow2(bits)) == Shl(l, r % bits) + h
  {
    hide *;
    var h', l' := RotlSplits(x, r, bits);
    WordJoin(h, l, r % bits, bits - r % bits);
    WordJoin(h', l', r % bits, bits - r % bits);
  }

  lemma UnrotlIs(y: nat, r: nat, bits: nat, l: nat, h: nat)
    requires bits >= 1 && y == Shl(l, r % bits) + h && l < Pow2(bits - r % bits) && h < Pow2(r % bits)
    ensures Unrotl(y, r, bits) == Shl(h, bits - r % bits) + l
  {
    hide Pow2, Shl, Shr;
    WordJoin(l, h, bits - r % bits, r % bits);
  }

  /** `p(i) = rotl(i ^ mask, 3)` is a bijection on [0, n). */
  lemma DownLaneIsMap(mask: nat, bits: nat)
    requires 1 <= bits <= 32 && mask < Pow2(bits)
    ensures IsLaneMap(DownLane(mask, bits, Pow2(bits)), Pow2(bits))
  {
    var n := Pow2(bits);
    var lane := DownLane(mask, bits, n);
    forall q | 0 <= q < n ensures 0 <= lane(q) < n && Unrotl(lane(q), 3, bits) == BitXor(q, mask) {
      XorBound(q, mask, bits);
      UnrotlRotl(BitXor(q, mask), 3, bits);
    }
    forall q, r | 0 <= q < n && 0 <= r < n && lane(q) == lane(r) ensures q == r {
      XorInvolutive(q, mask);
      XorInvolutive(r, mask);
    }
  }

  /** Every lane is the image of an index. */
  lemma DownLaneOnto(mask: nat, bits: nat, p: nat) returns (q: nat)
    requires 1 <= bits <= 32 && mask < Pow2(bits) && p < Pow2(bits)
    ensures q < Pow2(bits) && DownLane(mask, bits, Pow2(bits))(q) == p
  {
    hide Pow2, Rotl, Unrotl, BitXor;
    RotlUnrotl(p, 3, bits);
    var x := Unrotl(p, 3, bits);
    q := BitXor(x, mask);
    XorBound(x, mask, bits);
    XorInvolutive(x, mask);
  }

  // ---------------------------------------------------------------- one stage, in place

  function At(s: seq<i64>, k: int): i64 { if 0 <= k < |s| then s[k] else 0 }

  /** The lanes of `s` in the order the butterfly indexes them. */
  function Load(s: seq<i64>, lane: int -> int): int -> int { q => At(s, lane(q)) }

  function Lower(q: nat, p: nat): int
    requires p >= 1
  {
    if FlipBit(q, p) < q then FlipBit(q, p) else q
  }

  /** Pairs below `i` have been through the stage, the others have not. */
  ghost predicate Swept(kind: Kind, s: seq<i64>, lane: int -> int, y: int -> int, p: nat, n: nat, i: int)
    requires p >= 1
  {
    && |s| == n
    && forall q :: 0 <= q < n ==> At(s, lane(q)) == ToI64(if Lower(q, p) < i then Stage(kind, y, p, q) else y(q))
  }

  /** The two new lane values, as the loops compute them. */
  function Sums2(kind: Kind, a: int, b: int): (int, int) {
    (a + b, if kind == Ascending then a - b else b - a)
  }

  lemma SkipPair(kind: Kind, s: seq<i64>, lane: int -> int, y: int -> int, p: nat, n: nat, i: nat)
    requires p >= 1 && i < n && FlipBit(i, p) <= i && Swept(kind, s, lane, y, p, n, i)
    ensures Swept(kind, s, lane, y, p, n, i + 1)
  {
    hide Stage, ToI64;
    FlipFacts(i, p);
    forall q | 0 <= q < n ensures Lower(q, p) < i <==> Lower(q, p) < i + 1 {
      FlipFacts(q, p);
    }
  }

  lemma PairValues(kind: Kind, y: int -> int, p: nat, i: nat)
    requires p >= 1 && i < FlipBit(i, p)
    ensures var j := FlipBit(i, p);
      && Stage(kind, y, p, i) == Sums2(kind, y(i), y(j)).0
      && Stage(kind, y, p, j) == Sums2(kind, y(i), y(j)).1
  {
    FlipFacts(i, p);
  }

  lemma SweepPair(kind: Kind, s: seq<i64>, s': seq<i64>, lane: int -> int, y: int -> int, p: nat, n: nat, i: nat)
    requires p >= 1 && i < FlipBit(i, p) < n && IsLaneMap(lane, n) && Swept(kind, s, lane, y, p, n, i)
    requires var j := FlipBit(i, p); var a, b := ToU64(At(s, lane(i))), ToU64(At(s, lane(j)));
      s' == s[lane(i) := ToI64(Sums2(kind, a, b).0)][lane(j) := ToI64(Sums2(kind, a, b).1)]
    ensures Swept(kind, s', lane, y, p, n, i + 1)
  {
    var j := FlipBit(i, p);
    FlipFacts(i, p);
    PairValues(kind, y, p, i);
    hide Stage, ToI64, ToU64, FlipBit;
    assert Lower(i, p) == i == Lower(j, p);
    hide Lower;
    WrapAdd(y(i), y(j));
    WrapAdd(y(j), y(i));
    forall q | 0 <= q < n
      ensures At(s', lane(q)) == ToI64(if Lower(q, p) < i + 1 then Stage(kind, y, p, q) else y(q))
    {
      if q != i && q != j {
        OtherPair(p, i, q);
        assert lane(q) != lane(i) && lane(q) != lane(j);
      }
    }
  }

  lemma OtherPair(p: nat, i: nat, q: nat)
    requires p >= 1 && i < FlipBit(i, p) && q != i && q != FlipBit(i, p)
    ensures Lower(q, p) != i
  {
    FlipFacts(q, p);
    FlipFacts(i, p);
    hide FlipBit;
  }

  /** All pairs done: the stage has been applied to every lane. */
  lemma SweepDone(kind: Kind, s: seq<i64>, lane: int -> int, y: int -> int, p: nat, n: nat)
    requires p >= 1 && Swept(kind, s, lane, y, p, n, n)
    ensures forall q :: 0 <= q < n ==> At(s, lane(q)) == ToI64(Stage(kind, y, p, q))
  {
    hide Stage, ToI64;
    assert forall q :: 0 <= q < n ==> Lower(q, p) < n;
  }

  /** The lanes hold the values `y`, wrapped. */
  ghost predicate Holds(s: seq<i64>, lane: int -> int, y: int -> int, n: nat) {
    |s| == n && forall q :: 0 <= q < n ==> At(s, lane(q)) == ToI64(y(q))
  }

  lemma SweepStart(kind: Kind, s: seq<i64>, lane: int -> int, y: int -> int, p: nat, n: nat)
    requires p >= 1 && Holds(s, lane, y, n)
    ensures Swept(kind, s, lane, y, p, n, 0)
  {
    hide Stage, ToI64, FlipBit;
    forall q | 0 <= q < n ensures Lower(q, p) >= 0 {
      FlipFacts(q, p);
    }
  }

  /** The values after the stages `ts`. */
  function After(kind: Kind, x: int -> int, ts: seq<nat>): int -> int { q => Staged(kind, x, ts, q) }

  lemma NextStage(kind: Kind, s: seq<i64>, lane: int -> int, x: int -> int, ts: seq<nat>, t: nat, n: nat)
    requires Swept(kind, s, lane, After(kind, x, ts), Pow2(t), n, n)
    ensures Holds(s, lane, After(kind, x, ts + [t]), n)
  {
    SweepDone(kind, s, lane, After(kind, x, ts), Pow2(t), n);
    assert (ts + [t])[..|ts|] == ts;
    forall q | 0 <= q < n
      ensures Staged(kind, x, ts + [t], q) == Stage(kind, After(kind, x, ts), Pow2(t), q)
    {
    }
  }

  lemma LoadHolds(s: seq<i64>, lane: int -> int, n: nat)
    requires |s| == n
    ensures Holds(s, lane, Load(s, lane), n)
  {
    forall q | 0 <= q < n ensures At(s, lane(q)) == ToI64(Load(s, lane)(q)) {
      AlreadyI64(At(s, lane(q)));
    }
  }

  /** What a whole mix leaves behind: lane `lane(i)` holds the signed sum for index `i`. */
  ghost predicate IsMixed(kind: Kind, k: nat, before: seq<i64>, after: seq<i64>, lane: int -> int) {
    && |before| == |after| == Pow2(k)
    && forall i :: 0 <= i < Pow2(k) ==> At(after, lane(i)) == ToI64(Transform(kind, k, Load(before, lane), i))
  }

  lemma AscendingDone(k: nat, before: seq<i64>, after: seq<i64>, lane: int -> int)
    requires |before| == Pow2(k)
    requires Holds(after, lane, After(Ascending, Load(before, lane), UpTo(k)), Pow2(k))
    ensures IsMixed(Ascending, k, before, after, lane)
  {
    forall i | 0 <= i < Pow2(k) {
      AscendingClosed(Ascending, Load(before, lane), k, i);
    }
  }

  lemma DescendingDone(k: nat, before: seq<i64>, after: seq<i64>, lane: int -> int)
    requires |before| == Pow2(k)
    requires Holds(after, lane, After(Descending, Load(before, lane), DownTo(k, 0)), Pow2(k))
    ensures IsMixed(Descending, k, before, after, lane)
  {
    forall i | 0 <= i < Pow2(k) {
      DescendingClosed(Descending, Load(before, lane), k, i);
    }
  }

  // ---------------------------------------------------------------- the loops

  /** One pair: both lanes replaced by their wrapped sum and difference. */
  method UpdatePair(kind: Kind, s: array<i64>, pi: nat, pj: nat)
    requires pi < s.Length && pj < s.Length && pi != pj
    modifies s
    ensures var a, b := ToU64(old(s[pi])), ToU64(old(s[pj]));
      s[..] == old(s[..])[pi := ToI64(Sums2(kind, a, b).0)][pj := ToI64(Sums2(kind, a, b).1)]
  {
    var a: int, b: int := ToU64(s[pi]), ToU64(s[pj]);
    s[pi] := ToI64(a + b);
    s[pj] := if kind == Ascending then ToI64(a - b) else ToI64(b - a);
  }

  /** One stage of either mix: every pair `i`, `i ^ (1 << stage)` once. */
  method SweepStage(kind: Kind, s: array<i64>, lane: int -> int, stage: nat, n: nat, ghost k: nat, ghost y: int -> int)
    requires stage < k && n == Pow2(k) && IsLaneMap(lane, n) && Holds(s[..], lane, y, n)
    modifies s
    ensures Swept(kind, s[..], lane, y, Pow2(stage), n, n)
  {
    hide Stage, ToI64, ToU64, Pow2, BitXor, FlipBit, Holds, At;
    var stride := Pow2(stage);
    ghost var m := StageBlocks(stage, k);
    SweepStart(kind, s[..], lane, y, stride, n);
    for i := 0 to n
      invariant s.Length == n
      invariant Swept(kind, s[..], lane, y, stride, n, i)
    {
      var j := BitXor(i, stride);
      XorFlips(i, stage);
      FlipInRange(i, stride, m, n);
      if i >= j {
        SkipPair(kind, s[..], lane, y, stride, n, i);
        continue;
      }
      var pi, pj := lane(i), lane(j);
      ghost var was := s[..];
      LaneAt(was, lane, i, n);
      LaneAt(was, lane, j, n);
      UpdatePair(kind, s, pi, pj);
      SweepPair(kind, was, s[..], lane, y, stride, n, i);
    }
  }

  lemma LaneAt(s: seq<i64>, lane: int -> int, q: nat, n: nat)
    requires q < n == |s| && IsLaneMap(lane, n)
    ensures 0 <= lane(q) < n && At(s, lane(q)) == s[lane(q)]
  {
  }

  /** Ascending mix: strides 1, 2, 4, ..., over the lanes `i ^ mask`. */
  method MixAscending(s: array<i64>, mask: nat, n: nat)
    requires IsPow2(n) && mask < n && s.Length == n
    modifies s
    ensures IsMixed(Ascending, Log2(n), old(s[..]), s[..], UpLane(mask))
  {
    hide Stage, ToI64, BitXor, Holds, IsMixed, Swept, After, Load, IsLaneMap;
    ghost var k, before := Log2(n), s[..];
    var lane := UpLane(mask);
    ghost var x := Load(before, lane);
    UpLaneIsMap(mask, k);
    StartUp(Ascending, before, lane, n);
    assert UpTo(0) == [];
    var stage := 0;
    while Pow2(stage) < n
      invariant stage <= k && s.Length == n
      invariant Holds(s[..], lane, After(Ascending, x, UpTo(stage)), n)
      decreases k - stage
    {
      ghost var y := After(Ascending, x, UpTo(stage));
      SweepStage(Ascending, s, lane, stage, n, k, y);
      NextStage(Ascending, s[..], lane, x, UpTo(stage), stage, n);
      assert UpTo(stage) + [stage] == UpTo(stage + 1);
      stage := stage + 1;
    }
    if stage < k { Pow2Mono(stage, k); }
    AscendingDone(k, before, s[..], lane);
  }

  lemma StartUp(kind: Kind, before: seq<i64>, lane: int -> int, n: nat)
    requires |before| == n
    ensures Holds(before, lane, After(kind, Load(before, lane), []), n)
  {
    LoadHolds(before, lane, n);
  }

  /** The width of the index register, halving until one is left. */
  method CountBits(n: nat) returns (bits: nat)
    requires IsPow2(n)
    ensures bits == Log2(n) && n == Pow2(bits)
  {
    var t := n;
    bits := 0;
    while t > 1
      invariant IsPow2(t) && Log2(n) == bits + Log2(t)
      decreases t
    {
      t, bits := t / 2, bits + 1;
    }
  }

  /** Descending mix: strides n/2, ..., 2, 1, over the lanes `rotl(i ^ mask, 3)`. When `n` is not a
      power of two, or is less than two, nothing happens. */
  method MixDescending(s: array<i64>, mask: nat, n: nat)
    requires n < W32 && s.Length == n && (n > 0 ==> mask < n)
    modifies s
    ensures n >= 2 && IsPow2(n) ==>
      IsMixed(Descending, Log2(n), old(s[..]), s[..], DownLane(mask, Log2(n), n))
    ensures n < 2 || !IsPow2(n) ==> s[..] == old(s[..])
  {
    hide Stage, ToI64, BitXor, Holds, IsMixed, Swept, After, Load, IsLaneMap, DownLane;
    if n >= 1 { Pow2Test(n); }
    if n < 2 || BitAnd(n, n - 1) != 0 {
      return;
    }
    var bits := CountBits(n);
    WordIsPow2();
    LogBound(bits, 32);
    ghost var before := s[..];
    var lane := DownLane(mask, bits, n);
    ghost var x := Load(before, lane);
    DownLaneIsMap(mask, bits);
    StartUp(Descending, before, lane, n);
    assert DownTo(bits, bits) == [];
    var stage: int := bits - 1;
    while stage >= 0
      invariant -1 <= stage < bits && s.Length == n
      invariant Holds(s[..], lane, After(Descending, x, DownTo(bits, stage + 1)), n)
    {
      ghost var y := After(Descending, x, DownTo(bits, stage + 1));
      SweepStage(Descending, s, lane, stage, n, bits, y);
      NextStage(Descending, s[..], lane, x, DownTo(bits, stage + 1), stage, n);
      assert DownTo(bits, stage + 1) + [stage as nat] == DownTo(bits, stage);
      stage := stage - 1;
    }
    DescendingDone(bits, before, s[..], lane);
  }

  lemma LogBound(k: nat, m: nat)
    requires Pow2(k) < Pow2(m)
    ensures k < m
  {
    if k >= m { Pow2Below(m, k); }
  }

  // ---------------------------------------------------------------- two passes

  /** The lanes two passes leave behind. */
  lemma MixTwice(kind: Kind, k: nat, s0: seq<i64>, s1: seq<i64>, s2: seq<i64>, lane: int -> int, i: nat)
    requires IsMixed(kind, k, s0, s1, lane) && IsMixed(kind, k, s1, s2, lane) && i < Pow2(k)
    ensures At(s2, lane(i)) == ToI64(
              if kind == Ascending then Pow2(k) * At(s0, lane(i))
              else Pow2(k) * SignOf(PopCount(i)) * At(s0, lane(Pow2(k) - 1 - i)))
  {
    hide Transform, ToI64;
    var x, y := Load(s0, lane), Load(s1, lane);
    TransformWrap(kind, k, y, j => Again(kind, k, x, j), i);
    SquaredLaw(kind, k, x, i);
  }

  /** Running the ascending mix twice with one mask multiplies every lane by `n`, wrapped. */
  lemma AscendingTwice(k: nat, mask: nat, s0: seq<i64>, s1: seq<i64>, s2: seq<i64>)
    requires mask < Pow2(k)
    requires IsMixed(Ascending, k, s0, s1, UpLane(mask)) && IsMixed(Ascending, k, s1, s2, UpLane(mask))
    ensures forall p :: 0 <= p < Pow2(k) ==> s2[p] == ToI64(Pow2(k) * s0[p])
  {
    hide ToI64, BitXor, Pow2, IsLaneMap, UpLane, Transform;
    var lane := UpLane(mask);
    UpLaneIsMap(mask, k);
    forall p | 0 <= p < Pow2(k) ensures s2[p] == ToI64(Pow2(k) * s0[p]) {
      LaneAt(s0, lane, lane(p), Pow2(k));
      LaneAt(s2, lane, lane(p), Pow2(k));
      MixTwice(Ascending, k, s0, s1, s2, lane, lane(p));
    }
  }
}
