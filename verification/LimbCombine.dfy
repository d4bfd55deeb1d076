/** The C-13 identity: a modular matrix product moved onto base-128 limb products that fit 32 bits. */
module LimbCombine {
  import opened Arith
  import opened Bytes
  import opened Sums
  import opened Gemm
  import opened Fq

  const B: int := 0x4000_0000        // the bias
  const LIMBS: nat := 5              // 35 bits cover a biased entry

  function Pow128(i: nat): (w: nat)
    ensures w >= 1
  {
    if i == 0 then 1 else 128 * Pow128(i - 1)
  }

  /** Limb `i` of a biased entry: `(v >> 7i) & 0x7f`. */
  function Limb(x: int, i: int): int {
    if i < 0 then 0 else (x + B) / Pow128(i) % 128
  }

  predicate InBias(x: int) { -B <= x < B }

  lemma LimbRange(x: int, i: int)
    ensures 0 <= Limb(x, i) <= 127
  {
  }

  lemma {:induction false} Pow128Add(i: nat, j: nat)
    ensures Pow128(i + j) == Pow128(i) * Pow128(j)
  {
    if i > 0 {
      Pow128Add(i - 1, j);
      assert Pow128(i + j) == 128 * Pow128(i - 1 + j);
    }
  }

  function Weighted(x: int, i: int): int { if i < 0 then 0 else Pow128(i) * Limb(x, i) }

  lemma DigitStep(v: nat, p: nat)
    requires p >= 1
    ensures v % (128 * p) == v % p + p * (v / p % 128)
  {
    var h, r := v / p, v % p;
    var c, d := h / 128, h % 128;
    assert v == h * p + r && h == 128 * c + d;
    DigitParts(c, d, p, r);
    DivModUnique(v, c, p * d + r, 128 * p);
  }

  lemma DigitParts(c: int, d: int, p: int, r: int)
    requires 0 <= d <= 127 && 0 <= r < p
    ensures (128 * c + d) * p + r == c * (128 * p) + (p * d + r)
    ensures 0 <= p * d + r < 128 * p
  {
    assert 0 <= p * d && p * d <= p * 127;
  }

  lemma {:induction false} LowLimbs(x: int, s: nat)
    requires InBias(x)
    ensures Sum(s, i => Weighted(x, i)) == (x + B) % Pow128(s)
  {
    if s > 0 {
      LowLimbs(x, s - 1);
      DigitStep(x + B, Pow128(s - 1));
    }
  }

  /** Five limbs put a biased entry back together. */
  lemma LimbsRebuild(x: int)
    requires InBias(x)
    ensures Sum(LIMBS, i => Weighted(x, i)) == x + B
  {
    LowLimbs(x, LIMBS);
    assert Pow128(3) == 2097152;
    assert Pow128(5) == 34359738368;
    DivModUnique(x + B, 0, x + B, Pow128(5));
  }

  // ---------------------------------------------------------------- the identity, per output entry

  /** One limb GEMM entry. */
  function LimbDot(n: nat, f: int -> int, g: int -> int, i: int, j: int): int {
    Sum(n, k => Limb(f(k), i) * Limb(g(k), j))
  }

  /** The 25 limb entries, each shifted to its place. */
  function LimbTotal(n: nat, f: int -> int, g: int -> int): int {
    Sum(LIMBS, i => LimbRow(n, f, g, i))
  }

  function LimbRow(n: nat, f: int -> int, g: int -> int, i: int): int {
    Sum(LIMBS, j => Shifted(n, f, g, i, j))
  }

  function Shifted(n: nat, f: int -> int, g: int -> int, i: int, j: int): int {
    if i < 0 || j < 0 then 0 else Pow128(i + j) * LimbDot(n, f, g, i, j)
  }

  lemma LimbDotStep(n: nat, f: int -> int, g: int -> int, i: int, j: int)
    ensures LimbDot(0, f, g, i, j) == 0
    ensures LimbDot(n + 1, f, g, i, j) == LimbDot(n, f, g, i, j) + Limb(f(n), i) * Limb(g(n), j)
  {
    hide Limb;
  }

  lemma LimbProduct(x: int, y: int, i: int, j: int)
    ensures 0 <= Limb(x, i) * Limb(y, j) <= 16129
  {
    LimbRange(x, i);
    LimbRange(y, j);
    hide *;
    ProductBound(Limb(x, i), Limb(y, j), 127, 127);
    MulNonNeg(Limb(x, i), Limb(y, j));
  }

  lemma {:induction false} LimbDotRange(n: nat, f: int -> int, g: int -> int, i: int, j: int)
    ensures 0 <= LimbDot(n, f, g, i, j) <= n * 16129
  {
    hide *;
    if n == 0 {
      LimbDotStep(0, f, g, i, j);
    } else {
      LimbDotRange(n - 1, f, g, i, j);
      LimbDotStep(n - 1, f, g, i, j);
      LimbProduct(f(n - 1), g(n - 1), i, j);
    }
  }

  /** Every limb entry, and every partial sum on the way to it, fits a signed 32-bit accumulator. */
  lemma LimbDotFits(n: nat, f: int -> int, g: int -> int, i: int, j: int, t: nat)
    requires n * 16129 < 0x8000_0000 && t <= n
    ensures 0 <= LimbDot(t, f, g, i, j) && FitsI32(LimbDot(t, f, g, i, j))
  {
    LimbDotRange(t, f, g, i, j);
    hide LimbDot;
  }

  /** One more term: every limb entry grows by its limb product, and the total by the product of the
      biased entries. */
  lemma LimbTotalStep(n: nat, f: int -> int, g: int -> int)
    requires InBias(f(n)) && InBias(g(n))
    ensures LimbTotal(n + 1, f, g) == LimbTotal(n, f, g) + (f(n) + B) * (g(n) + B)
  {
    hide *;
    var x, y, n' := f(n), g(n), n + 1;
    LimbsRebuild(x);
    forall i | 0 <= i < LIMBS
      ensures LimbRow(n', f, g, i) == LimbRow(n, f, g, i) + (y + B) * Weighted(x, i)
    {
      LimbRowStep(n, f, g, i);
    }
    SumGrows(LIMBS, i => LimbRow(n, f, g, i), i => LimbRow(n', f, g, i), i => Weighted(x, i), y + B);
    TotalIs(n, f, g);
    TotalIs(n', f, g);
    Commutes(x + B, y + B);
  }

  lemma TotalIs(n: nat, f: int -> int, g: int -> int)
    ensures LimbTotal(n, f, g) == Sum(LIMBS, i => LimbRow(n, f, g, i))
  {
  }

  lemma RowIs(n: nat, f: int -> int, g: int -> int, i: int)
    ensures LimbRow(n, f, g, i) == Sum(LIMBS, j => Shifted(n, f, g, i, j))
  {
  }

  /** If every term grows by `c` times a weight, the sum grows by `c` times the weights' sum. */
  lemma SumGrows(n: nat, before: int -> int, after: int -> int, w: int -> int, c: int)
    requires forall i :: 0 <= i < n ==> after(i) == before(i) + c * w(i)
    ensures Sum(n, after) == Sum(n, before) + c * Sum(n, w)
  {
    hide Sum;
    SumScale(n, c, w);
    SumAdd(n, before, i => c * w(i));
    SumExt(n, after, k => before(k) + (i => c * w(i))(k));
  }

  lemma LimbRowStep(n: nat, f: int -> int, g: int -> int, i: nat)
    requires InBias(g(n))
    ensures LimbRow(n + 1, f, g, i) == LimbRow(n, f, g, i) + (g(n) + B) * Weighted(f(n), i)
  {
    hide *;
    var x, y, n' := f(n), g(n), n + 1;
    LimbsRebuild(y);
    forall j | 0 <= j < LIMBS
      ensures Shifted(n', f, g, i, j) == Shifted(n, f, g, i, j) + Weighted(x, i) * Weighted(y, j)
    {
      ShiftedStep(n, f, g, i, j);
    }
    SumGrows(LIMBS, j => Shifted(n, f, g, i, j), j => Shifted(n', f, g, i, j), j => Weighted(y, j), Weighted(x, i));
    RowIs(n, f, g, i);
    RowIs(n', f, g, i);
    Commutes(Weighted(x, i), y + B);
  }

  lemma ShiftedIs(n: nat, f: int -> int, g: int -> int, i: nat, j: nat)
    ensures Shifted(n, f, g, i, j) == (Pow128(i) * Pow128(j)) * LimbDot(n, f, g, i, j)
  {
    Pow128Add(i, j);
  }

  lemma WeightedIs(x: int, i: nat)
    ensures Weighted(x, i) == Pow128(i) * Limb(x, i)
  {
  }

  lemma ShiftedStep(n: nat, f: int -> int, g: int -> int, i: nat, j: nat)
    ensures Shifted(n + 1, f, g, i, j) == Shifted(n, f, g, i, j) + Weighted(f(n), i) * Weighted(g(n), j)
  {
    hide *;
    var u, v := Limb(f(n), i), Limb(g(n), j);
    LimbDotStep(n, f, g, i, j);
    ShiftedIs(n, f, g, i, j);
    ShiftedIs(n + 1, f, g, i, j);
    WeightedIs(f(n), i);
    WeightedIs(g(n), j);
    Spread(Pow128(i), Pow128(j), LimbDot(n, f, g, i, j), u, v);
  }

  lemma Spread(a: int, b: int, s: int, u: int, v: int)
    ensures (a * b) * (s + u * v) == (a * b) * s + (a * u) * (b * v)
  {
    assert (a * b) * (u * v) == (a * u) * (b * v);
  }

  /** The sum of biased entries. */
  function BiasedSum(n: nat, f: int -> int): int { Sum(n, k => f(k) + B) }

  function PlainDot(n: nat, f: int -> int, g: int -> int): int { Sum(n, k => f(k) * g(k)) }

  lemma PlainStep(n: nat, f: int -> int, g: int -> int)
    ensures BiasedSum(0, f) == 0 && PlainDot(0, f, g) == 0
    ensures BiasedSum(n + 1, f) == BiasedSum(n, f) + (f(n) + B)
    ensures PlainDot(n + 1, f, g) == PlainDot(n, f, g) + f(n) * g(n)
  {
  }

  /** The identity: limb products, minus both bias corrections, plus the doubly counted square. */
  lemma {:induction false} LimbIdentity(n: nat, f: int -> int, g: int -> int)
    requires forall k :: 0 <= k < n ==> InBias(f(k)) && InBias(g(k))
    ensures LimbTotal(n, f, g) - B * BiasedSum(n, f) - B * BiasedSum(n, g) + n * (B * B) == PlainDot(n, f, g)
  {
    hide *;
    if n == 0 {
      NoLimbs(f, g);
      PlainStep(0, f, g);
      PlainStep(0, g, f);
    } else {
      LimbIdentity(n - 1, f, g);
      LimbTotalStep(n - 1, f, g);
      PlainStep(n - 1, f, g);
      PlainStep(n - 1, g, f);
      OneMore(LimbTotal(n - 1, f, g), BiasedSum(n - 1, f), BiasedSum(n - 1, g), n - 1, f(n - 1), g(n - 1));
    }
  }

  lemma OneMore(t: int, r: int, c: int, n: int, x: int, y: int)
    ensures (t + (x + B) * (y + B)) - B * (r + (x + B)) - B * (c + (y + B)) + (n + 1) * (B * B)
         == (t - B * r - B * c + n * (B * B)) + x * y
  {
    Distribute(x, B, y, B);
  }

  lemma NoLimbs(f: int -> int, g: int -> int)
    ensures LimbTotal(0, f, g) == 0
  {
    hide Pow128, Limb;
    forall i | 0 <= i < LIMBS ensures LimbRow(0, f, g, i) == 0 {
      SumConst(LIMBS, 0);
      forall j | 0 <= j < LIMBS ensures Shifted(0, f, g, i, j) == 0 {
        assert LimbDot(0, f, g, i, j) == 0;
      }
      SumExt(LIMBS, j => Shifted(0, f, g, i, j), _ => 0);
    }
    SumConst(LIMBS, 0);
    SumExt(LIMBS, i => LimbRow(0, f, g, i), _ => 0);
  }

  // ---------------------------------------------------------------- the two loops

  function RowFn(p: seq<int>, n: nat, a: nat): int -> int { k => if k < 0 then 0 else Cell(p, n, a, k) }

  function ColFn(q: seq<int>, m: nat, c: nat): int -> int { k => if k < 0 then 0 else Cell(q, m, k, c) }

  /** The exact product, entry by entry modulo q, canonical. */
  function FieldProduct(p: seq<int>, q: seq<int>, m: nat, n: nat): (c: seq<Residue>)
    ensures |c| == RowStart(m, m)
    ensures forall k :: 0 <= k < |c| ==> c[k] == Mod(Product(p, q, m, n, m)[k])
  {
    seq<Residue>(RowStart(m, m), k requires 0 <= k < RowStart(m, m) => Mod(Product(p, q, m, n, m)[k]))
  }

  lemma FieldCell(p: seq<int>, q: seq<int>, m: nat, n: nat, a: nat, c: nat)
    requires a < m && c < m
    ensures RowStart(a, m) + c < RowStart(m, m)
    ensures FieldProduct(p, q, m, n)[RowStart(a, m) + c] == Mod(PlainDot(n, RowFn(p, n, a), ColFn(q, m, c)))
  {
    ProductCell(p, q, m, n, m, a, c);
    hide Product, Cell;
    var f, g := RowFn(p, n, a), ColFn(q, m, c);
    SumExt(n, t => Term(p, q, n, m, a, c, t), k => f(k) * g(k));
  }

  predicate Biasable(s: seq<int>) { forall k :: 0 <= k < |s| ==> InBias(s[k]) }

  lemma FnAt(p: seq<int>, q: seq<int>, m: nat, n: nat, a: nat, c: nat, k: nat)
    requires a < m && c < m && k < n && |p| == RowStart(m, n) && |q| == RowStart(n, m)
    ensures RowStart(a, n) + k < |p| && RowStart(k, m) + c < |q|
    ensures RowFn(p, n, a)(k) == p[RowStart(a, n) + k] && ColFn(q, m, c)(k) == q[RowStart(k, m) + c]
  {
    CellIndex(a, k, m, n);
    CellIndex(k, c, n, m);
  }

  /** Direct entry: multiply and add residues, one term at a time. */
  method DirectEntry(p: seq<int>, q: seq<int>, m: nat, n: nat, a: nat, c: nat) returns (acc: Residue)
    requires a < m && c < m && |p| == RowStart(m, n) && |q| == RowStart(n, m) && Words(p) && Words(q)
    ensures acc == Mod(PlainDot(n, RowFn(p, n, a), ColFn(q, m, c)))
  {
    hide *;
    acc := Mod(0);
    ghost var f, g := RowFn(p, n, a), ColFn(q, m, c);
    PlainStep(0, f, g);
    for k := 0 to n
      invariant acc == Mod(PlainDot(k, f, g))
    {
      FnAt(p, q, m, n, a, c, k);
      var x, y := p[RowStart(a, n) + k], q[RowStart(k, m) + c];
      EntriesFit(p, RowStart(a, n) + k);
      EntriesFit(q, RowStart(k, m) + c);
      FromSignedExact(x);
      FromSignedExact(y);
      AccumulateExact(PlainDot(k, f, g), x, y);
      acc := Add(acc, Mul(FromSigned(x), FromSigned(y)));
      PlainStep(k, f, g);
    }
  }

  lemma EntriesFit(s: seq<int>, k: nat)
    requires Words(s) && k < |s|
    ensures FitsI64(s[k])
  {
  }

  lemma BiasableWords(s: seq<int>)
    requires Biasable(s)
    ensures Words(s)
  {
  }

  /** The direct path, for any int32 matrices. */
  method DirectCombine(p: seq<int>, q: seq<int>, m: nat, n: nat) returns (out: seq<Residue>)
    requires |p| == RowStart(m, n) && |q| == RowStart(n, m) && Words(p) && Words(q)
    ensures out == FieldProduct(p, q, m, n)
  {
    out := [];
    ghost var all := FieldProduct(p, q, m, n);
    assert RowStart(0, m) == 0;
    hide *;
    for a := 0 to m
      invariant RowStart(a, m) <= |all| && out == all[..RowStart(a, m)]
    {
      RowFits(a, m, m);
      for c := 0 to m
        invariant out == all[..RowStart(a, m) + c]
      {
        var v := DirectEntry(p, q, m, n, a, c);
        FieldCell(p, q, m, n, a, c);
        PrefixSnoc(all, RowStart(a, m) + c);
        out := out + [v];
      }
      RowStep(a, m);
    }
    WholePrefix(all);
  }

  /** Limb `i` of every entry. */
  function LimbMatrix(s: seq<int>, i: nat): (l: seq<int>)
    ensures |l| == |s| && forall k :: 0 <= k < |s| ==> l[k] == Limb(s[k], i)
  {
    seq(|s|, k requires 0 <= k < |s| => Limb(s[k], i))
  }

  predicate AreLimbs(ls: seq<seq<int>>, s: seq<int>) {
    |ls| == LIMBS && forall i :: 0 <= i < LIMBS ==> ls[i] == LimbMatrix(s, i)
  }

  /** One limb GEMM entry in a 32-bit accumulator. */
  method LimbEntry(pl: seq<int>, ql: seq<int>, p: seq<int>, q: seq<int>, m: nat, n: nat, a: nat, c: nat, i: nat, j: nat)
    returns (acc: int)
    requires a < m && c < m && |p| == RowStart(m, n) && |q| == RowStart(n, m) && n * 16129 < 0x8000_0000
    requires pl == LimbMatrix(p, i) && ql == LimbMatrix(q, j)
    ensures acc == LimbDot(n, RowFn(p, n, a), ColFn(q, m, c), i, j) && 0 <= acc && FitsI32(acc)
  {
    hide *;
    acc := 0;
    ghost var f, g := RowFn(p, n, a), ColFn(q, m, c);
    LimbDotStep(0, f, g, i, j);
    for k := 0 to n
      invariant acc == LimbDot(k, f, g, i, j)
    {
      LimbAt(p, q, m, n, a, c, k, i, j);
      acc := acc + pl[RowStart(a, n) + k] * ql[RowStart(k, m) + c];
      LimbDotStep(k, f, g, i, j);
      LimbDotFits(n, f, g, i, j, k + 1);
      assert FitsI32(acc);   // the accumulator holds the new value
    }
    LimbDotFits(n, f, g, i, j, n);
  }

  lemma LimbAt(p: seq<int>, q: seq<int>, m: nat, n: nat, a: nat, c: nat, k: nat, i: nat, j: nat)
    requires a < m && c < m && k < n && |p| == RowStart(m, n) && |q| == RowStart(n, m)
    ensures RowStart(a, n) + k < |p| && RowStart(k, m) + c < |q|
    ensures LimbMatrix(p, i)[RowStart(a, n) + k] == Limb(RowFn(p, n, a)(k), i)
    ensures LimbMatrix(q, j)[RowStart(k, m) + c] == Limb(ColFn(q, m, c)(k), j)
  {
    FnAt(p, q, m, n, a, c, k);
    hide RowStart, RowFn, ColFn, Limb;
  }

  /** The table of powers of 128 modulo q. */
  predicate IsPowerTable(p128: seq<Residue>) {
    |p128| == 2 * LIMBS && forall t :: 0 <= t < 2 * LIMBS ==> p128[t] == Mod(Pow128(t))
  }

  method PowerTable() returns (p128: seq<Residue>)
    ensures IsPowerTable(p128)
  {
    p128 := [1];
    assert Pow128(0) == 1;
    for t := 1 to 2 * LIMBS
      invariant |p128| == t && forall k :: 0 <= k < t ==> p128[k] == Mod(Pow128(k))
    {
      MulMod(Pow128(t - 1), 128);
      ModSmall(128);
      assert Pow128(t) == Pow128(t - 1) * 128;
      hide Mod, Mul;
      p128 := p128 + [Mul(p128[t - 1], 128)];
    }
  }

  /** One shifted limb entry, added in the field. */
  method LimbTerm(pl: seq<int>, ql: seq<int>, power: Residue, p: seq<int>, q: seq<int>, m: nat, n: nat,
                  a: nat, c: nat, i: nat, j: nat, start: Residue, ghost total: int)
    returns (ppq: Residue)
    requires a < m && c < m && |p| == RowStart(m, n) && |q| == RowStart(n, m) && n * 16129 < 0x8000_0000
    requires pl == LimbMatrix(p, i) && ql == LimbMatrix(q, j) && start == Mod(total) && power == Mod(Pow128(i + j))
    ensures ppq == Mod(total + Shifted(n, RowFn(p, n, a), ColFn(q, m, c), i, j))
  {
    hide *;
    var e := LimbEntry(pl, ql, p, q, m, n, a, c, i, j);
    WordIsSmall(e);
    FromSignedExact(e);
    AccumulateExact(total, Pow128(i + j), e);
    ShiftedPlain(n, RowFn(p, n, a), ColFn(q, m, c), i, j);
    ppq := Add(start, Mul(power, FromSigned(e)));
  }

  /** The shifted limb entries of one output and one left limb, added in the field. */
  method LimbRowSum(pl: seq<int>, qls: seq<seq<int>>, p128: seq<Residue>, p: seq<int>, q: seq<int>, m: nat, n: nat,
                    a: nat, c: nat, i: nat, start: Residue, ghost total: int)
    returns (ppq: Residue)
    requires a < m && c < m && |p| == RowStart(m, n) && |q| == RowStart(n, m) && n * 16129 < 0x8000_0000
    requires i < LIMBS && pl == LimbMatrix(p, i) && AreLimbs(qls, q) && start == Mod(total) && IsPowerTable(p128)
    ensures ppq == Mod(total + LimbRow(n, RowFn(p, n, a), ColFn(q, m, c), i))
  {
    hide *;
    ghost var f, g := RowFn(p, n, a), ColFn(q, m, c);
    ppq := start;
    RowUpToStep(n, f, g, i, 0);
    for j := 0 to LIMBS
      invariant ppq == Mod(total + RowUpTo(n, f, g, i, j))
    {
      LimbOf(qls, q, j);
      PowerOf(p128, i, j);
      ppq := LimbTerm(pl, qls[j], p128[i + j], p, q, m, n, a, c, i, j, ppq, total + RowUpTo(n, f, g, i, j));
      RowUpToStep(n, f, g, i, j);
    }
  }

  /** The shifted limb entries of one output, summed in the field. */
  method LimbSum(pls: seq<seq<int>>, qls: seq<seq<int>>, p128: seq<Residue>, p: seq<int>, q: seq<int>, m: nat, n: nat,
                 a: nat, c: nat)
    returns (ppq: Residue)
    requires a < m && c < m && |p| == RowStart(m, n) && |q| == RowStart(n, m) && n * 16129 < 0x8000_0000
    requires AreLimbs(pls, p) && AreLimbs(qls, q) && IsPowerTable(p128)
    ensures ppq == Mod(LimbTotal(n, RowFn(p, n, a), ColFn(q, m, c)))
  {
    hide *;
    ghost var f, g := RowFn(p, n, a), ColFn(q, m, c);
    ppq := Mod(0);
    TotalUpToStep(n, f, g, 0);
    for i := 0 to LIMBS
      invariant ppq == Mod(TotalUpTo(n, f, g, i))
    {
      LimbOf(pls, p, i);
      ppq := LimbRowSum(pls[i], qls, p128, p, q, m, n, a, c, i, ppq, TotalUpTo(n, f, g, i));
      TotalUpToStep(n, f, g, i);
    }
  }

  lemma LimbOf(ls: seq<seq<int>>, s: seq<int>, i: nat)
    requires AreLimbs(ls, s) && i < LIMBS
    ensures i < |ls| && ls[i] == LimbMatrix(s, i)
  {
  }

  lemma PowerOf(p128: seq<Residue>, i: nat, j: nat)
    requires IsPowerTable(p128) && i < LIMBS && j < LIMBS
    ensures i + j < |p128| && p128[i + j] == Mod(Pow128(i + j))
  {
  }

  lemma WordIsSmall(e: int)
    requires FitsI32(e)
    ensures FitsI64(e)
  {
  }

  lemma ShiftedPlain(n: nat, f: int -> int, g: int -> int, i: nat, j: nat)
    ensures Shifted(n, f, g, i, j) == Pow128(i + j) * LimbDot(n, f, g, i, j)
  {
  }

  /** The first `j` shifted entries of limb row `i`, and the first `i` limb rows. */
  function RowUpTo(n: nat, f: int -> int, g: int -> int, i: int, j: nat): int {
    Sum(j, t => Shifted(n, f, g, i, t))
  }

  function TotalUpTo(n: nat, f: int -> int, g: int -> int, i: nat): int {
    Sum(i, t => LimbRow(n, f, g, t))
  }

  lemma RowUpToStep(n: nat, f: int -> int, g: int -> int, i: int, j: nat)
    ensures RowUpTo(n, f, g, i, 0) == 0 && LimbRow(n, f, g, i) == RowUpTo(n, f, g, i, LIMBS)
    ensures RowUpTo(n, f, g, i, j + 1) == RowUpTo(n, f, g, i, j) + Shifted(n, f, g, i, j)
  {
    hide Shifted;
  }

  lemma TotalUpToStep(n: nat, f: int -> int, g: int -> int, i: nat)
    ensures TotalUpTo(n, f, g, 0) == 0 && LimbTotal(n, f, g) == TotalUpTo(n, f, g, LIMBS)
    ensures TotalUpTo(n, f, g, i + 1) == TotalUpTo(n, f, g, i) + LimbRow(n, f, g, i)
  {
    hide LimbRow;
  }

  /** `rowP'` and `colQ'`: the biased sums modulo q. */
  method RowBias(p: seq<int>, m: nat, n: nat, a: nat) returns (acc: Residue)
    requires a < m && |p| == RowStart(m, n) && Biasable(p)
    ensures acc == Mod(BiasedSum(n, RowFn(p, n, a)))
  {
    acc := 0;
    ghost var f := RowFn(p, n, a);
    PlainStep(0, f, f);
    hide BiasedSum, PlainDot, RowStart, FromSigned, Add;
    for k := 0 to n
      invariant acc == Mod(BiasedSum(k, f))
    {
      RowFits(a, m, n);
      var x := p[RowStart(a, n) + k];
      assert x == f(k);
      FromSignedExact(x + B);
      AddMod(BiasedSum(k, f), x + B);
      acc := Add(acc, FromSigned(x + B));
      PlainStep(k, f, f);
    }
  }

  method ColBias(q: seq<int>, m: nat, n: nat, c: nat) returns (acc: Residue)
    requires c < m && |q| == RowStart(n, m) && Biasable(q)
    ensures acc == Mod(BiasedSum(n, ColFn(q, m, c)))
  {
    acc := 0;
    ghost var g := ColFn(q, m, c);
    PlainStep(0, g, g);
    hide BiasedSum, PlainDot, RowStart, FromSigned, Add;
    for k := 0 to n
      invariant acc == Mod(BiasedSum(k, g))
    {
      RowFits(k, n, m);
      var x := q[RowStart(k, m) + c];
      assert x == g(k);
      FromSignedExact(x + B);
      AddMod(BiasedSum(k, g), x + B);
      acc := Add(acc, FromSigned(x + B));
      PlainStep(k, g, g);
    }
  }

  /** Taking the two bias corrections off and the square back on, in the field. */
  function Corrected(ppq: Residue, rowP: Residue, colQ: Residue, n: nat): Residue {
    var bq := FromSigned(B);
    Add(Sub(Sub(ppq, Mul(bq, rowP)), Mul(bq, colQ)), Mul(FromSigned(n), Mul(bq, bq)))
  }

  lemma CorrectedExact(t: int, r: int, c: int, n: nat, ppq: Residue, rowP: Residue, colQ: Residue)
    requires ppq == Mod(t) && rowP == Mod(r) && colQ == Mod(c) && n < W32
    ensures Corrected(ppq, rowP, colQ, n) == Mod(t - B * r - B * c + n * (B * B))
  {
    FromSignedExact(B);
    FromSignedExact(n);
    hide Mul, FromSigned, Add, Sub, Mod;
    MulMod(B, B);
    DeductExact(t, B, r);
    DeductExact(t - B * r, B, c);
    AccumulateExact(t - B * r - B * c, n, B * B);
  }

  /** The limb path: 25 limb products per output, corrected for the bias. It produces the direct
      combine's canonical residues, byte for byte. */
  method LimbCombineAll(p: seq<int>, q: seq<int>, m: nat, n: nat) returns (out: seq<Residue>)
    requires |p| == RowStart(m, n) && |q| == RowStart(n, m) && Biasable(p) && Biasable(q)
    requires n * 16129 < 0x8000_0000
    ensures out == FieldProduct(p, q, m, n)
  {
    assert RowStart(0, m) == 0;
    hide *;
    var pls := SplitLimbs(p);
    var qls := SplitLimbs(q);
    var rowP: seq<Residue>, colQ: seq<Residue> := [], [];
    for a := 0 to m
      invariant |rowP| == a && forall k :: 0 <= k < a ==> rowP[k] == Mod(BiasedSum(n, RowFn(p, n, k)))
    {
      var s := RowBias(p, m, n, a);
      rowP := rowP + [s];
    }
    for c := 0 to m
      invariant |colQ| == c && forall k :: 0 <= k < c ==> colQ[k] == Mod(BiasedSum(n, ColFn(q, m, k)))
    {
      var s := ColBias(q, m, n, c);
      colQ := colQ + [s];
    }
    var p128 := PowerTable();
    out := [];
    ghost var all := FieldProduct(p, q, m, n);
    for a := 0 to m
      invariant RowStart(a, m) <= |all| && out == all[..RowStart(a, m)]
    {
      RowFits(a, m, m);
      for c := 0 to m
        invariant out == all[..RowStart(a, m) + c]
      {
        var v := LimbOutput(pls, qls, p128, rowP[a], colQ[c], p, q, m, n, a, c);
        FieldCell(p, q, m, n, a, c);
        PrefixSnoc(all, RowStart(a, m) + c);
        out := out + [v];
      }
      RowStep(a, m);
    }
    WholePrefix(all);
  }

  method SplitLimbs(s: seq<int>) returns (ls: seq<seq<int>>)
    ensures AreLimbs(ls, s)
  {
    ls := [];
    for i := 0 to LIMBS
      invariant |ls| == i && forall k :: 0 <= k < i ==> ls[k] == LimbMatrix(s, k)
    {
      ls := ls + [LimbMatrix(s, i)];
    }
  }

  method LimbOutput(pls: seq<seq<int>>, qls: seq<seq<int>>, p128: seq<Residue>, rowP: Residue, colQ: Residue,
                    p: seq<int>, q: seq<int>, m: nat, n: nat, a: nat, c: nat)
    returns (v: Residue)
    requires a < m && c < m && |p| == RowStart(m, n) && |q| == RowStart(n, m) && n * 16129 < 0x8000_0000
    requires Biasable(p) && Biasable(q) && AreLimbs(pls, p) && AreLimbs(qls, q) && IsPowerTable(p128)
    requires rowP == Mod(BiasedSum(n, RowFn(p, n, a))) && colQ == Mod(BiasedSum(n, ColFn(q, m, c)))
    ensures v == Mod(PlainDot(n, RowFn(p, n, a), ColFn(q, m, c)))
  {
    hide *;
    ghost var f, g := RowFn(p, n, a), ColFn(q, m, c);
    var ppq := LimbSum(pls, qls, p128, p, q, m, n, a, c);
    v := Corrected(ppq, rowP, colQ, n);
    FnsInBias(p, q, m, n, a, c);
    LimbIdentity(n, f, g);
    CorrectedExact(LimbTotal(n, f, g), BiasedSum(n, f), BiasedSum(n, g), n, ppq, rowP, colQ);
  }

  lemma FnsInBias(p: seq<int>, q: seq<int>, m: nat, n: nat, a: nat, c: nat)
    requires a < m && c < m && |p| == RowStart(m, n) && |q| == RowStart(n, m) && Biasable(p) && Biasable(q)
    requires n * 16129 < 0x8000_0000
    ensures n < W32 && forall k :: 0 <= k < n ==> InBias(RowFn(p, n, a)(k)) && InBias(ColFn(q, m, c)(k))
  {
    hide RowFn, ColFn, RowStart, InBias;
    forall k | 0 <= k < n ensures InBias(RowFn(p, n, a)(k)) && InBias(ColFn(q, m, c)(k)) {
      FnAt(p, q, m, n, a, c, k);
    }
  }

  /** The comparison the program makes: run both combines and count the entries that differ. At every
      size within the accumulator bound there are none. */
  method CompareCombines(p: seq<int>, q: seq<int>, m: nat, n: nat) returns (direct: seq<Residue>, mismatches: int)
    requires |p| == RowStart(m, n) && |q| == RowStart(n, m) && Biasable(p) && Biasable(q)
    requires n * 16129 < 0x8000_0000
    ensures direct == FieldProduct(p, q, m, n) && mismatches == 0
  {
    hide *;
    BiasableWords(p);
    BiasableWords(q);
    direct := DirectCombine(p, q, m, n);
    var limbs := LimbCombineAll(p, q, m, n);
    mismatches := 0;
    for k := 0 to |limbs|
      invariant mismatches == 0
    {
      if limbs[k] != direct[k] { mismatches := mismatches + 1; }
    }
  }
}
