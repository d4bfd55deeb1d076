/** The in-place butterfly mixes over the 64-bit wrap ring, and the signed sums they compute. */
module Mix {
  import opened Arith
  import opened Bits
  import opened Bytes
  import opened Sums

  type i64 = x: int | -0x8000_0000_0000_0000 <= x < 0x8000_0000_0000_0000

  /** The `i64(...)` cast of a 64-bit word: any integer, wrapped to the signed range. */
  function ToI64(x: int): i64 { (x + 0x8000_0000_0000_0000) % W64 - 0x8000_0000_0000_0000 }

  /** The `u64(...)` cast of a lane. */
  function ToU64(v: i64): nat { v % W64 }

  lemma AlreadyI64(v: i64)
    ensures ToI64(v) == v
  {
  }

  lemma WrapSame(x: int, y: int)
    requires x % W64 == y % W64
    ensures ToI64(x) == ToI64(y)
  {
    var h := 0x8000_0000_0000_0000;
    ModAdd(x, h, W64);
    ModAdd(y, h, W64);
  }

  lemma WrapResidue(x: int)
    ensures ToI64(x) % W64 == x % W64
  {
    var h := 0x8000_0000_0000_0000;
    ModSub(x + h, h, W64);
    ModSub((x + h) % W64, h, W64);
  }

  /** Wrapped sums and differences of wrapped lanes are wrapped sums and differences. */
  lemma WrapAdd(x: int, y: int)
    ensures ToI64(ToU64(ToI64(x)) + ToU64(ToI64(y))) == ToI64(x + y)
    ensures ToI64(ToU64(ToI64(x)) - ToU64(ToI64(y))) == ToI64(x - y)
  {
    WrapResidue(x);
    WrapResidue(y);
    ModAdd(x, y, W64);
    ModSub(x, y, W64);
    WrapSame(x % W64 + y % W64, x + y);
    WrapSame(x % W64 - y % W64, x - y);
  }

  // ---------------------------------------------------------------- the transforms

  /** Ascending: `a + b`, `a - b`. Descending: `a + b`, `b - a`. */
  datatype Kind = Ascending | Descending

  /** The entry of the two-point transform for output bit `o` and input bit `c`. */
  function Entry(kind: Kind, o: nat, c: nat): int {
    if o == 1 && c == (if kind == Ascending then 1 else 0) then -1 else 1
  }

  /** The product of the entries over the low `k` bits. */
  function Weight(kind: Kind, k: nat, i: int, j: int): int {
    if k == 0 then 1 else Entry(kind, i % 2, j % 2) * Weight(kind, k - 1, i / 2, j / 2)
  }

  function SignOf(p: nat): int { if p % 2 == 0 then 1 else -1 }

  /** The weights are the signs the design states: (-1)^popcount(i & j), (-1)^popcount(i & ~j). */
  lemma {:induction false} WeightIsSign(k: nat, i: nat, j: nat)
    requires i < Pow2(k)
    ensures Weight(Ascending, k, i, j) == SignOf(PopCount(BitAnd(i, j)))
    ensures Weight(Descending, k, i, j) == SignOf(PopCount(AndNot(i, j)))
  {
    if k > 0 {
      WeightIsSign(k - 1, i / 2, j / 2);
      PopStep(BitAnd(i, j), i % 2 * (j % 2), BitAnd(i / 2, j / 2));
      PopStep(AndNot(i, j), i % 2 * (1 - j % 2), AndNot(i / 2, j / 2));
    }
  }

  lemma PopStep(a: nat, b: nat, r: nat)
    requires b <= 1 && a == b + 2 * r
    ensures SignOf(PopCount(a)) == (if b == 1 then -1 else 1) * SignOf(PopCount(r))
  {
    assert a / 2 == r && a % 2 == b;
    assert PopCount(a) == b + PopCount(r);
    hide PopCount;
    SignStep(b, PopCount(r));
  }

  lemma SignStep(b: nat, c: nat)
    requires b <= 1
    ensures SignOf(b + c) == (if b == 1 then -1 else 1) * SignOf(c)
  {
  }

  /** One signed input. */
  function Signed(kind: Kind, k: nat, i: int, j: int, v: int): int { Weight(kind, k, i, j) * v }

  /** The closed form: a signed sum over all inputs. */
  function Transform(kind: Kind, k: nat, x: int -> int, i: nat): int {
    Sum(Pow2(k), j => Signed(kind, k, i, j, x(j)))
  }

  /** Lane `i` after the butterfly stages `ts`, in that order. */
  function Staged(kind: Kind, x: int -> int, ts: seq<nat>, i: int): int
    decreases |ts|
  {
    if ts == [] then x(i)
    else Stage(kind, j => Staged(kind, x, ts[..|ts| - 1], j), Pow2(ts[|ts| - 1]), i)
  }

  /** One butterfly stage with partners `p` lanes apart. */
  function Stage(kind: Kind, y: int -> int, p: nat, i: int): int
    requires p >= 1
  {
    if i < 0 then 0 else
      var b := i / p % 2;
      Entry(kind, b, b) * y(i) + Entry(kind, b, 1 - b) * y(FlipBit(i, p))
  }

  /** A stage in terms of the two partners, the one with the stage's bit clear first. */
  lemma StageDigits(kind: Kind, y: int -> int, p: nat, c: nat, base: nat, b: nat, r: nat)
    requires p >= 1 && base == c * (2 * p) && b <= 1 && r < p
    ensures b * p >= 0
    ensures Stage(kind, y, p, base + b * p + r)
         == Entry(kind, b, 0) * y(base + r) + Entry(kind, b, 1) * y(base + p + r)
  {
    BitDigits(base + b * p + r, c, b, r, p);
    assert b == 0 || b == 1;
  }

  // ---------------------------------------------------------------- closed form, ascending order

  function UpTo(s: nat): (ts: seq<nat>)
    ensures |ts| == s && forall k :: 0 <= k < s ==> ts[k] == k
  {
    seq(s, k requires k >= 0 => k)
  }

  /** The stages `k-1, k-2, ..., s`. */
  function DownTo(k: nat, s: nat): (ts: seq<nat>)
    requires s <= k
    ensures |ts| == k - s && forall m :: 0 <= m < k - s ==> ts[m] == k - 1 - m
  {
    seq(k - s, m requires 0 <= m < k - s => k - 1 - m)
  }

  /** Splitting the top bit off a weight. */
  lemma {:induction false} WeightTop(kind: Kind, s: nat, b: nat, r: nat, c: nat, l: nat)
    requires b <= 1 && c <= 1 && r < Pow2(s) && l < Pow2(s)
    ensures Weight(kind, s + 1, b * Pow2(s) + r, c * Pow2(s) + l)
         == Entry(kind, b, c) * Weight(kind, s, r, l)
  {
    if s > 0 {
      var q := Pow2(s - 1);
      assert Pow2(s) == 2 * q;
      WeightTop(kind, s - 1, b, r / 2, c, l / 2);
      hide *;
      TopStep(kind, s, b, r, c, l, q);
    } else {
      assert Pow2(0) == 1 && b * 1 + r == b && c * 1 + l == c;
    }
  }

  lemma TopStep(kind: Kind, s: nat, b: nat, r: nat, c: nat, l: nat, q: nat)
    requires s > 0 && b <= 1 && c <= 1
    requires Weight(kind, s, b * q + r / 2, c * q + l / 2) == Entry(kind, b, c) * Weight(kind, s - 1, r / 2, l / 2)
    ensures Weight(kind, s + 1, b * (2 * q) + r, c * (2 * q) + l) == Entry(kind, b, c) * Weight(kind, s, r, l)
  {
    hide *;
    HalfDigit(b, r, q);
    HalfDigit(c, l, q);
    WeightStep(kind, s, r, l);
    WeightStep(kind, s + 1, b * (2 * q) + r, c * (2 * q) + l);
    Exchanged(Entry(kind, r % 2, l % 2), Entry(kind, b, c), Weight(kind, s - 1, r / 2, l / 2));
  }

  lemma Exchanged(a: int, b: int, c: int)
    ensures a * (b * c) == b * (a * c)
  {
  }

  lemma WeightStep(kind: Kind, k: nat, i: int, j: int)
    requires k > 0
    ensures Weight(kind, k, i, j) == Entry(kind, i % 2, j % 2) * Weight(kind, k - 1, i / 2, j / 2)
  {
  }

  lemma HalfDigit(b: nat, r: nat, q: nat)
    requires b <= 1
    ensures (b * (2 * q) + r) / 2 == b * q + r / 2 && (b * (2 * q) + r) % 2 == r % 2
  {
  }

  /** One more stage, in terms of the two partners with the stage's bit clear and set. */
  lemma StagedStep(kind: Kind, x: int -> int, ts: seq<nat>, t: nat, c: nat, base: nat, b: nat, r: nat)
    requires base == c * (2 * Pow2(t)) && b <= 1 && r < Pow2(t)
    ensures Staged(kind, x, ts + [t], base + b * Pow2(t) + r)
         == Entry(kind, b, 0) * Staged(kind, x, ts, base + r)
          + Entry(kind, b, 1) * Staged(kind, x, ts, base + Pow2(t) + r)
  {
    hide Stage, Entry, Pow2;
    var all := ts + [t];
    assert all[..|all| - 1] == ts;
    StageDigits(kind, j => Staged(kind, x, all[..|all| - 1], j), Pow2(t), c, base, b, r);
  }

  /** The signed sum over the `2^s` lanes from `base` on. */
  function BlockSum(kind: Kind, s: nat, r: int, x: int -> int, base: int): int {
    Sum(Pow2(s), l => Signed(kind, s, r, l, x(base + l)))
  }

  /** After the stages of weight 1, 2, ..., 2^(s-1): a signed sum over the block of `2^s` lanes. */
  lemma {:induction false} AscendingBlocks(kind: Kind, x: int -> int, s: nat, c: nat, base: nat, r: nat)
    requires base == c * Pow2(s) && r < Pow2(s)
    ensures Staged(kind, x, UpTo(s), base + r) == BlockSum(kind, s, r, x, base)
    decreases s
  {
    if s == 0 {
      assert BlockSum(kind, 0, r, x, base) == Signed(kind, 0, r, 0, x(base + 0));
    } else {
      var q, p := s - 1, Pow2(s - 1);
      hide Staged, BlockSum, Pow2;
      OffsetHalves(c, p, base);
      var r' := if r < p then r else r - p;
      AscendingBlocks(kind, x, q, 2 * c, base, r');
      AscendingBlocks(kind, x, q, 2 * c + 1, base + p, r');
      AscendingStep(kind, x, q, c, base, if r < p then 0 else 1, r', r);
    }
  }

  lemma OffsetHalves(c: nat, p: nat, base: nat)
    requires base == c * (2 * p)
    ensures base == (2 * c) * p && base + p == (2 * c + 1) * p
  {
  }

  lemma AscendingStep(kind: Kind, x: int -> int, q: nat, c: nat, base: nat, b: nat, r: nat, i: nat)
    requires base == c * (2 * Pow2(q)) && b <= 1 && r < Pow2(q) && i == b * Pow2(q) + r
    requires Staged(kind, x, UpTo(q), base + r) == BlockSum(kind, q, r, x, base)
    requires Staged(kind, x, UpTo(q), base + Pow2(q) + r) == BlockSum(kind, q, r, x, base + Pow2(q))
    ensures Staged(kind, x, UpTo(q + 1), base + i) == BlockSum(kind, q + 1, i, x, base)
  {
    hide Staged, BlockSum, Entry, Pow2;
    assert UpTo(q + 1) == UpTo(q) + [q];
    StagedStep(kind, x, UpTo(q), q, c, base, b, r);
    BlockHalves(kind, x, q, b, r, base, i);
  }

  lemma BlockHalves(kind: Kind, x: int -> int, q: nat, b: nat, r: nat, base: nat, i: int)
    requires b <= 1 && r < Pow2(q) && i == b * Pow2(q) + r
    ensures BlockSum(kind, q + 1, i, x, base)
         == Entry(kind, b, 0) * BlockSum(kind, q, r, x, base)
          + Entry(kind, b, 1) * BlockSum(kind, q, r, x, base + Pow2(q))
  {
    hide Weight, Signed, Entry, Sum;
    var p := Pow2(q);
    var f := l => Signed(kind, q + 1, i, l, x(base + l));
    var g := l => f(p + l);
    SumSplit(p, p, f);
    HalfBlock(kind, x, q, b, r, i, 0, 0, base, f);
    HalfBlock(kind, x, q, b, r, i, 1, p, base + p, g);
  }

  lemma HalfBlock(kind: Kind, x: int -> int, q: nat, b: nat, r: nat, i: int, c: nat, o: nat, base: nat,
                  f: int -> int)
    requires b <= 1 && c <= 1 && r < Pow2(q) && i == b * Pow2(q) + r && o == c * Pow2(q)
    requires forall l :: f(l) == Signed(kind, q + 1, i, o + l, x(base + l))
    ensures Sum(Pow2(q), f) == Entry(kind, b, c) * BlockSum(kind, q, r, x, base)
  {
    var g := l => Signed(kind, q, r, l, x(base + l));
    forall l | 0 <= l < Pow2(q) ensures f(l) == Entry(kind, b, c) * g(l) {
      SignedTop(kind, q, b, r, c, l, x(base + l));
    }
    SumScale(Pow2(q), Entry(kind, b, c), g);
    SumExt(Pow2(q), f, l => Entry(kind, b, c) * g(l));
    SumExt(Pow2(q), g, l => Signed(kind, q, r, l, x(base + l)));
  }

  lemma SignedTop(kind: Kind, q: nat, b: nat, r: nat, c: nat, l: nat, v: int)
    requires b <= 1 && c <= 1 && r < Pow2(q) && l < Pow2(q)
    ensures Signed(kind, q + 1, b * Pow2(q) + r, c * Pow2(q) + l, v)
         == Entry(kind, b, c) * Signed(kind, q, r, l, v)
  {
    WeightTop(kind, q, b, r, c, l);
    MulAssoc(Entry(kind, b, c), Weight(kind, q, r, l), v);
  }

  lemma MulAssoc(a: int, b: int, c: int)
    ensures (a * b) * c == a * (b * c)
  {
  }

  lemma AscendingClosed(kind: Kind, x: int -> int, k: nat, i: nat)
    requires i < Pow2(k)
    ensures Staged(kind, x, UpTo(k), i) == Transform(kind, k, x, i)
  {
    AscendingBlocks(kind, x, k, 0, 0, i);
    SumExt(Pow2(k), l => Signed(kind, k, i, l, x(0 + l)), j => Signed(kind, k, i, j, x(j)));
  }

  // ---------------------------------------------------------------- closed form, descending order

  function Lane(l: int, p: int, r: int): int { l * p + r }

  /** The signed sum over the `2^m` lanes `r`, `p + r`, `2p + r`, ... */
  function StrideSum(kind: Kind, m: nat, a: int, x: int -> int, p: int, r: int): int {
    Sum(Pow2(m), l => Signed(kind, m, a, l, x(Lane(l, p, r))))
  }

  /** After the stages of weight 2^(k-1), ..., 2^s: a signed sum over the lanes `2^s` apart. */
  lemma {:induction false} DescendingStrides(kind: Kind, x: int -> int, k: nat, s: nat, a: nat, r: nat)
    requires s <= k && a < Pow2(k - s) && r < Pow2(s)
    ensures Staged(kind, x, DownTo(k, s), Lane(a, Pow2(s), r)) == StrideSum(kind, k - s, a, x, Pow2(s), r)
    decreases k - s
  {
    hide Staged, StrideSum, Lane;
    if s == k {
      StrideBase(kind, x, Pow2(s), r);
    } else {
      var h := a / 2;
      HalfBelow(a, k - s);
      assert Pow2(s + 1) == 2 * Pow2(s);
      hide Pow2;
      DescendingStrides(kind, x, k, s + 1, h, r);
      DescendingStrides(kind, x, k, s + 1, h, Pow2(s) + r);
      DescendingStep(kind, x, k, s, h, a % 2, r);
    }
  }

  lemma StrideBase(kind: Kind, x: int -> int, p: nat, r: nat)
    ensures Staged(kind, x, [], Lane(0, p, r)) == StrideSum(kind, 0, 0, x, p, r)
  {
    assert StrideSum(kind, 0, 0, x, p, r) == Signed(kind, 0, 0, 0, x(Lane(0, p, r)));
  }

  lemma HalfBelow(a: nat, m: nat)
    requires m > 0 && a < Pow2(m)
    ensures a / 2 < Pow2(m - 1)
  {
  }

  lemma DescendingStep(kind: Kind, x: int -> int, k: nat, s: nat, h: nat, b: nat, r: nat)
    requires s < k && b <= 1 && r < Pow2(s)
    requires forall c | 0 <= c <= 1 ::
      Staged(kind, x, DownTo(k, s + 1), Lane(h, 2 * Pow2(s), c * Pow2(s) + r))
        == StrideSum(kind, k - s - 1, h, x, 2 * Pow2(s), c * Pow2(s) + r)
    ensures Staged(kind, x, DownTo(k, s), Lane(2 * h + b, Pow2(s), r))
         == StrideSum(kind, k - s, 2 * h + b, x, Pow2(s), r)
  {
    hide Staged, StrideSum, Entry, Pow2;
    var p := Pow2(s);
    assert DownTo(k, s) == DownTo(k, s + 1) + [s];
    MulNonNeg(h, 2 * p);
    StagedStep(kind, x, DownTo(k, s + 1), s, h, h * (2 * p), b, r);
    LaneHalf(h, b, p, r);
    assert 0 * p + r == r && 1 * p + r == p + r;
    StrideHalves(kind, x, k - s - 1, p, h, b, r);
  }

  lemma LaneHalf(l: int, c: nat, p: int, r: int)
    ensures Lane(2 * l + c, p, r) == Lane(l, 2 * p, c * p + r) == l * (2 * p) + c * p + r
  {
  }

  lemma StrideHalves(kind: Kind, x: int -> int, m: nat, p: nat, h: nat, b: nat, r: nat)
    requires b <= 1
    ensures StrideSum(kind, m + 1, 2 * h + b, x, p, r)
         == Entry(kind, b, 0) * StrideSum(kind, m, h, x, 2 * p, r)
          + Entry(kind, b, 1) * StrideSum(kind, m, h, x, 2 * p, p + r)
  {
    hide Weight, Signed, Lane, Entry, Sum;
    var n := Pow2(m);
    var f := l => Signed(kind, m + 1, 2 * h + b, l, x(Lane(l, p, r)));
    var f0, f1 := l => f(2 * l), l => f(2 * l + 1);
    SumPairs(n, f);
    SumAdd(n, f0, f1);
    SumExt(n, l => f(2 * l) + f(2 * l + 1), l => f0(l) + f1(l));
    StrideHalf(kind, x, m, p, h, b, 0, r, r, f0);
    StrideHalf(kind, x, m, p, h, b, 1, r, p + r, f1);
  }

  lemma StrideHalf(kind: Kind, x: int -> int, m: nat, p: nat, h: nat, b: nat, c: nat, r: nat, r': nat,
                   f: int -> int)
    requires b <= 1 && c <= 1 && r' == c * p + r
    requires forall l :: f(l) == Signed(kind, m + 1, 2 * h + b, 2 * l + c, x(Lane(2 * l + c, p, r)))
    ensures Sum(Pow2(m), f) == Entry(kind, b, c) * StrideSum(kind, m, h, x, 2 * p, r')
  {
    hide Weight, Signed, Lane, Entry, Sum, Pow2;
    var g := l => Signed(kind, m, h, l, x(Lane(l, 2 * p, r')));
    forall l: int ensures f(l) == Entry(kind, b, c) * g(l) {
      LaneHalf(l, c, p, r);
      SignedBottom(kind, m, h, b, l, c, x(Lane(l, 2 * p, r')));
    }
    SumScale(Pow2(m), Entry(kind, b, c), g);
    SumExt(Pow2(m), f, l => Entry(kind, b, c) * g(l));
    SumExt(Pow2(m), g, l => Signed(kind, m, h, l, x(Lane(l, 2 * p, r'))));
  }

  lemma SignedBottom(kind: Kind, m: nat, h: int, b: nat, l: int, c: nat, v: int)
    requires b <= 1 && c <= 1
    ensures Signed(kind, m + 1, 2 * h + b, 2 * l + c, v) == Entry(kind, b, c) * Signed(kind, m, h, l, v)
  {
    assert (2 * h + b) / 2 == h && (2 * h + b) % 2 == b && (2 * l + c) / 2 == l && (2 * l + c) % 2 == c;
    MulAssoc(Entry(kind, b, c), Weight(kind, m, h, l), v);
  }

  lemma DescendingClosed(kind: Kind, x: int -> int, k: nat, i: nat)
    requires i < Pow2(k)
    ensures Staged(kind, x, DownTo(k, 0), i) == Transform(kind, k, x, i)
  {
    DescendingStrides(kind, x, k, 0, i, 0);
    assert forall l :: Lane(l, 1, 0) == l;
    hide Weight, Signed, Staged;
    SumExt(Pow2(k), l => Signed(kind, k, i, l, x(Lane(l, 1, 0))), j => Signed(kind, k, i, j, x(j)));
  }

  /** The closed form with its signs written out. */
  lemma TransformSigns(kind: Kind, k: nat, x: int -> int, i: nat)
    requires i < Pow2(k)
    ensures Transform(kind, k, x, i) == Sum(Pow2(k), j => SignBetween(kind, i, j) * x(j))
  {
    forall j | 0 <= j < Pow2(k) ensures Signed(kind, k, i, j, x(j)) == SignBetween(kind, i, j) * x(j) {
      WeightIsSign(k, i, j);
    }
    SumExt(Pow2(k), j => Signed(kind, k, i, j, x(j)), j => SignBetween(kind, i, j) * x(j));
  }

  /** (-1)^popcount(i & j) going up, (-1)^popcount(i & ~j) going down. */
  function SignBetween(kind: Kind, i: nat, j: int): int {
    if j < 0 then 0
    else if kind == Ascending then SignOf(PopCount(BitAnd(i, j))) else SignOf(PopCount(AndNot(i, j)))
  }

  // ---------------------------------------------------------------- the squared law

  /** The `(i, l)` entry of the transform applied twice. */
  function Gram(kind: Kind, k: nat, i: int, l: int): int {
    Sum(Pow2(k), j => Weight(kind, k, i, j) * Weight(kind, k, j, l))
  }

  /** What the entry comes to, given the parity of the bits of `i`. */
  function GramValue(kind: Kind, n: int, i: nat, l: nat, odd: bool): int {
    if kind == Ascending then (if i == l then n else 0)
    else if i + l != n - 1 then 0
    else if odd then -n else n
  }

  /** The two-point transform squared. */
  function EntrySquared(kind: Kind, a: nat, b: nat): int {
    if kind == Ascending then (if a == b then 2 else 0)
    else if a == b then 0 else if a == 1 then -2 else 2
  }

  lemma EntrySquaredIs(kind: Kind, a: nat, b: nat)
    requires a <= 1 && b <= 1
    ensures EntrySquared(kind, a, b)
         == Entry(kind, a, 0) * Entry(kind, 0, b) + Entry(kind, a, 1) * Entry(kind, 1, b)
  {
  }

  lemma GramValueStep(kind: Kind, m: nat, i: nat, a: nat, l: nat, b: nat, odd: bool)
    requires a <= 1 && b <= 1
    ensures GramValue(kind, 2 * m, 2 * i + a, 2 * l + b, if a == 0 then odd else !odd)
         == EntrySquared(kind, a, b) * GramValue(kind, m, i, l, odd)
  {
    TimesSmall(EntrySquared(kind, a, b), GramValue(kind, m, i, l, odd));
  }

  predicate OddBits(i: nat) { PopCount(i) % 2 == 1 }

  lemma OddBitsStep(i: nat)
    ensures OddBits(i) == if i % 2 == 0 then OddBits(i / 2) else !OddBits(i / 2)
  {
    assert i != 0 ==> PopCount(i) == i % 2 + PopCount(i / 2);
  }

  lemma TimesSmall(e: int, v: int)
    requires e == 0 || e == 2 || e == -2
    ensures e * v == if e == 0 then 0 else if e == 2 then v + v else -v - v
  {
  }

  lemma GramBase(kind: Kind)
    ensures Gram(kind, 0, 0, 0) == 1 == GramValue(kind, 1, 0, 0, OddBits(0))
  {
    assert Gram(kind, 0, 0, 0) == Weight(kind, 0, 0, 0) * Weight(kind, 0, 0, 0);
  }

  lemma {:induction false} GramEntry(kind: Kind, k: nat, i: nat, l: nat)
    requires i < Pow2(k) && l < Pow2(k)
    ensures Gram(kind, k, i, l) == GramValue(kind, Pow2(k), i, l, OddBits(i))
  {
    hide Gram, GramValue, EntrySquared, OddBits;
    if k == 0 {
      GramBase(kind);
    } else {
      HalfBelow(i, k);
      HalfBelow(l, k);
      GramEntry(kind, k - 1, i / 2, l / 2);
      GramBottom(kind, k - 1, i / 2, i % 2, l / 2, l % 2);
      OddBitsStep(i);
      GramValueStep(kind, Pow2(k - 1), i / 2, i % 2, l / 2, l % 2, OddBits(i / 2));
    }
  }

  lemma GramBottom(kind: Kind, m: nat, i: nat, a: nat, l: nat, b: nat)
    requires a <= 1 && b <= 1
    ensures Gram(kind, m + 1, 2 * i + a, 2 * l + b) == EntrySquared(kind, a, b) * Gram(kind, m, i, l)
  {
    var e := EntrySquared(kind, a, b);
    var f := j => Weight(kind, m + 1, 2 * i + a, j) * Weight(kind, m + 1, j, 2 * l + b);
    var g := j => Weight(kind, m, i, j) * Weight(kind, m, j, l);
    GramIs(kind, m + 1, 2 * i + a, 2 * l + b, f);
    GramIs(kind, m, i, l, g);
    assert Pow2(m + 1) == 2 * Pow2(m);
    hide Weight, Sum, EntrySquared, Pow2, Gram;
    forall j: int ensures f(2 * j) + f(2 * j + 1) == e * g(j) {
      GramPair(kind, m, i, a, l, b, j);
    }
    PairSums(Pow2(m), e, f, g);
  }

  lemma GramIs(kind: Kind, k: nat, i: int, l: int, f: int -> int)
    requires forall j :: f(j) == Weight(kind, k, i, j) * Weight(kind, k, j, l)
    ensures Gram(kind, k, i, l) == Sum(Pow2(k), f)
  {
    hide Weight, Sum, Pow2;
    SumExt(Pow2(k), f, j => Weight(kind, k, i, j) * Weight(kind, k, j, l));
  }

  lemma PairSums(n: nat, e: int, f: int -> int, g: int -> int)
    requires forall j :: f(2 * j) + f(2 * j + 1) == e * g(j)
    ensures Sum(2 * n, f) == e * Sum(n, g)
  {
    hide Sum;
    SumPairs(n, f);
    SumScale(n, e, g);
    SumExt(n, j => f(2 * j) + f(2 * j + 1), j => e * g(j));
  }

  lemma GramPair(kind: Kind, m: nat, i: nat, a: nat, l: nat, b: nat, j: int)
    requires a <= 1 && b <= 1
    ensures Weight(kind, m + 1, 2 * i + a, 2 * j) * Weight(kind, m + 1, 2 * j, 2 * l + b)
          + Weight(kind, m + 1, 2 * i + a, 2 * j + 1) * Weight(kind, m + 1, 2 * j + 1, 2 * l + b)
         == EntrySquared(kind, a, b) * (Weight(kind, m, i, j) * Weight(kind, m, j, l))
  {
    EntrySquaredIs(kind, a, b);
    hide Weight, Entry, EntrySquared;
    var w := Weight(kind, m, i, j) * Weight(kind, m, j, l);
    var e0, e1 := Entry(kind, a, 0) * Entry(kind, 0, b), Entry(kind, a, 1) * Entry(kind, 1, b);
    GramTerm(kind, m, i, a, l, b, j, 0);
    GramTerm(kind, m, i, a, l, b, j, 1);
    Factor(e0, e1, w);
  }

  lemma Factor(a: int, b: int, c: int)
    ensures a * c + b * c == (a + b) * c
  {
  }

  lemma GramTerm(kind: Kind, m: nat, i: nat, a: nat, l: nat, b: nat, j: int, c: nat)
    requires a <= 1 && b <= 1 && c <= 1
    ensures Weight(kind, m + 1, 2 * i + a, 2 * j + c) * Weight(kind, m + 1, 2 * j + c, 2 * l + b)
         == Entry(kind, a, c) * Entry(kind, c, b) * (Weight(kind, m, i, j) * Weight(kind, m, j, l))
  {
    var u, v := Weight(kind, m, i, j), Weight(kind, m, j, l);
    assert (2 * i + a) / 2 == i && (2 * j + c) / 2 == j && (2 * l + b) / 2 == l;
    assert (2 * i + a) % 2 == a && (2 * j + c) % 2 == c && (2 * l + b) % 2 == b;
    Regroup(Entry(kind, a, c), u, Entry(kind, c, b), v);
  }

  lemma Regroup(a: int, b: int, c: int, d: int)
    ensures (a * b) * (c * d) == (a * c) * (b * d)
  {
  }

  /** The transform of a transform, as the inputs of the second pass see it. */
  function Again(kind: Kind, k: nat, x: int -> int, j: int): int {
    if j < 0 then 0 else Transform(kind, k, x, j)
  }

  function Triple(kind: Kind, k: nat, x: int -> int, i: int, j: int, l: int): int {
    Weight(kind, k, i, j) * (Weight(kind, k, j, l) * x(l))
  }

  lemma AgainTerm(kind: Kind, k: nat, x: int -> int, i: int, j: nat)
    ensures Signed(kind, k, i, j, Again(kind, k, x, j)) == Sum(Pow2(k), l => Triple(kind, k, x, i, j, l))
  {
    hide Weight, Sum;
    var f := l => Signed(kind, k, j, l, x(l));
    SumScale(Pow2(k), Weight(kind, k, i, j), f);
    SumExt(Pow2(k), l => Weight(kind, k, i, j) * f(l), l => Triple(kind, k, x, i, j, l));
    SumExt(Pow2(k), f, l => Signed(kind, k, j, l, x(l)));
  }

  lemma GramTermSum(kind: Kind, k: nat, x: int -> int, i: int, l: int)
    ensures Sum(Pow2(k), j => Triple(kind, k, x, i, j, l)) == Gram(kind, k, i, l) * x(l)
  {
    hide Weight, Sum;
    var g := j => Weight(kind, k, i, j) * Weight(kind, k, j, l);
    SumScale(Pow2(k), x(l), g);
    forall j: int ensures x(l) * g(j) == Triple(kind, k, x, i, j, l) {
      MulRotate(x(l), Weight(kind, k, i, j), Weight(kind, k, j, l));
    }
    SumExt(Pow2(k), j => x(l) * g(j), j => Triple(kind, k, x, i, j, l));
    SumExt(Pow2(k), g, j => Weight(kind, k, i, j) * Weight(kind, k, j, l));
  }

  lemma MulRotate(a: int, b: int, c: int)
    ensures a * (b * c) == b * (c * a)
  {
  }

  /** Transforming a transform sums the inputs with the weights of `Gram`. */
  lemma TransformTwice(kind: Kind, k: nat, x: int -> int, i: nat)
    ensures Transform(kind, k, j => Again(kind, k, x, j), i) == Sum(Pow2(k), l => Gram(kind, k, i, l) * x(l))
  {
    var n := Pow2(k);
    var h := (j: int, l: int) => Triple(kind, k, x, i, j, l);
    forall j | 0 <= j < n ensures Signed(kind, k, i, j, Again(kind, k, x, j)) == Sum(n, l => h(j, l)) {
      AgainTerm(kind, k, x, i, j);
      SumExt(n, l => Triple(kind, k, x, i, j, l), l => h(j, l));
    }
    forall l | 0 <= l < n ensures Sum(n, j => h(j, l)) == Gram(kind, k, i, l) * x(l) {
      GramTermSum(kind, k, x, i, l);
      SumExt(n, j => Triple(kind, k, x, i, j, l), j => h(j, l));
    }
    hide Weight, Sum, Gram, Triple, Again, Signed;
    SumExt(n, j => Signed(kind, k, i, j, (m => Again(kind, k, x, m))(j)), j => Sum(n, l => h(j, l)));
    SumSwap(n, n, h);
    SumExt(n, l => Sum(n, j => h(j, l)), l => Gram(kind, k, i, l) * x(l));
  }

  /** Twice ascending multiplies by the number of lanes; twice descending also reverses the lanes
      and flips signs by the parity of the index. */
  lemma SquaredLaw(kind: Kind, k: nat, x: int -> int, i: nat)
    requires i < Pow2(k)
    ensures Transform(kind, k, j => Again(kind, k, x, j), i) ==
            if kind == Ascending then Pow2(k) * x(i)
            else Pow2(k) * SignOf(PopCount(i)) * x(Pow2(k) - 1 - i)
  {
    hide Weight, Transform, Gram;
    var n := Pow2(k);
    var f := l => Gram(kind, k, i, l) * x(l);
    var l := if kind == Ascending then i else n - 1 - i;
    TransformTwice(kind, k, x, i);
    forall m | 0 <= m < n && m != l ensures f(m) == 0 {
      GramEntry(kind, k, i, m);
    }
    GramEntry(kind, k, i, l);
    SumDelta(n, l, f);
  }

  /** The transform respects residues, so wrapping its inputs only wraps its output. */
  lemma {:induction false} TransformWrap(kind: Kind, k: nat, x: int -> int, y: int -> int, i: nat)
    requires forall j :: 0 <= j < Pow2(k) ==> x(j) == ToI64(y(j))
    ensures ToI64(Transform(kind, k, x, i)) == ToI64(Transform(kind, k, y, i))
  {
    hide Transform, Weight, Pow2, ToI64, Signed;
    TransformResidues(kind, k, x, y, i);
    WrapSame(Transform(kind, k, x, i), Transform(kind, k, y, i));
  }

  /** The terms of the closed form. */
  function Terms(kind: Kind, k: nat, x: int -> int, i: nat): int -> int { j => Signed(kind, k, i, j, x(j)) }

  lemma TransformIs(kind: Kind, k: nat, x: int -> int, i: nat)
    ensures Transform(kind, k, x, i) == Sum(Pow2(k), Terms(kind, k, x, i))
  {
    hide Signed, Sum, Pow2;
    SumExt(Pow2(k), Terms(kind, k, x, i), j => Signed(kind, k, i, j, x(j)));
  }

  lemma {:induction false} TransformResidues(kind: Kind, k: nat, x: int -> int, y: int -> int, i: nat)
    requires forall j :: 0 <= j < Pow2(k) ==> x(j) == ToI64(y(j))
    ensures Transform(kind, k, x, i) % W64 == Transform(kind, k, y, i) % W64
  {
    hide Transform, Pow2, ToI64, Signed, Terms, Sum;
    var f, g := Terms(kind, k, x, i), Terms(kind, k, y, i);
    TransformIs(kind, k, x, i);
    TransformIs(kind, k, y, i);
    forall j | 0 <= j < Pow2(k) ensures f(j) % W64 == g(j) % W64 {
      TermWraps(kind, k, x, y, i, j);
    }
    SumResidue(Pow2(k), f, g, W64);
  }

  lemma {:induction false} TermWraps(kind: Kind, k: nat, x: int -> int, y: int -> int, i: nat, j: int)
    requires x(j) == ToI64(y(j))
    ensures Terms(kind, k, x, i)(j) % W64 == Terms(kind, k, y, i)(j) % W64
  {
    hide ToI64, Signed;
    SignedWrap(kind, k, i, j, y(j));
  }

  lemma {:induction false} SignedWrap(kind: Kind, k: nat, i: int, j: int, v: int)
    ensures Signed(kind, k, i, j, ToI64(v)) % W64 == Signed(kind, k, i, j, v) % W64
  {
    WrapResidue(v);
    hide ToI64, Weight;
    ModMul(Weight(kind, k, i, j), ToI64(v), W64);
    ModMul(Weight(kind, k, i, j), v, W64);
  }
}
