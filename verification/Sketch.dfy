/** The CPU sketch of a matrix product: two 32-bit projections and a combine modulo 2^61 - 1. It means
    U * (A * B) * V, although A * B is never formed. */
module Sketch {
  import opened Arith
  import opened Bytes
  import opened Sums
  import opened Gemm
  import opened Fq
  import opened LimbCombine

  const I32_LIMIT: int := 0x8000_0000

  // ---------------------------------------------------------------- matrix products associate

  function Triple(x: seq<int>, y: seq<int>, z: seq<int>, s: nat, t: nat, u: nat, a: nat, c: nat, i: int, k: int): int {
    if i < 0 || k < 0 then 0 else Cell(x, s, a, i) * Cell(y, t, i, k) * Cell(z, u, k, c)
  }

  lemma CellOfProduct(x: seq<int>, y: seq<int>, r: nat, s: nat, t: nat, a: nat, k: nat)
    requires a < r && k < t
    ensures Cell(Product(x, y, r, s, t), t, a, k) == Dot(x, y, s, t, a, k, s)
  {
    ProductCell(x, y, r, s, t, a, k);
    hide Product, Dot;
  }

  lemma TermIs(l: seq<int>, r: seq<int>, inner: nat, cols: nat, i: nat, j: nat, t: nat)
    ensures Term(l, r, inner, cols, i, j, t) == Cell(l, inner, i, t) * Cell(r, cols, t, j)
  {
    hide Cell;
  }

  lemma TripleIs(x: seq<int>, y: seq<int>, z: seq<int>, s: nat, t: nat, u: nat, a: nat, c: nat, i: nat, k: nat)
    ensures Triple(x, y, z, s, t, u, a, c, i, k) == Cell(z, u, k, c) * Term(x, y, s, t, a, k, i)
    ensures Triple(x, y, z, s, t, u, a, c, i, k) == Cell(x, s, a, i) * Term(y, z, t, u, i, c, k)
  {
    TermIs(x, y, s, t, a, k, i);
    TermIs(y, z, t, u, i, c, k);
    hide Cell, Term;
    Rotate(Cell(x, s, a, i), Cell(y, t, i, k), Cell(z, u, k, c));
  }

  lemma Rotate(p: int, q: int, r: int)
    ensures p * q * r == r * (p * q) == p * (q * r)
  {
  }

  lemma DotIs(l: seq<int>, r: seq<int>, inner: nat, cols: nat, i: nat, j: nat, n: nat)
    ensures Dot(l, r, inner, cols, i, j, n) == Sum(n, t => Term(l, r, inner, cols, i, j, t))
  {
  }

  lemma ScaledSum(n: nat, w: int, f: int -> int, g: int -> int)
    requires forall i :: 0 <= i < n ==> g(i) == w * f(i)
    ensures Sum(n, g) == w * Sum(n, f)
  {
    hide Sum;
    SumScale(n, w, f);
    SumExt(n, g, k => w * f(k));
  }

  lemma LeftTerm(x: seq<int>, y: seq<int>, z: seq<int>, r: nat, s: nat, t: nat, u: nat, a: nat, c: nat, k: nat)
    requires a < r && k < t
    ensures Term(Product(x, y, r, s, t), z, t, u, a, c, k) == Sum(s, i => Triple(x, y, z, s, t, u, a, c, i, k))
  {
    hide *;
    var w, p := Cell(z, u, k, c), Product(x, y, r, s, t);
    forall i | 0 <= i < s ensures Triple(x, y, z, s, t, u, a, c, i, k) == w * Term(x, y, s, t, a, k, i) {
      TripleIs(x, y, z, s, t, u, a, c, i, k);
    }
    ScaledSum(s, w, i => Term(x, y, s, t, a, k, i), i => Triple(x, y, z, s, t, u, a, c, i, k));
    CellOfProduct(x, y, r, s, t, a, k);
    DotIs(x, y, s, t, a, k, s);
    TermIs(p, z, t, u, a, c, k);
    Commutes(w, Cell(p, t, a, k));
  }

  lemma RightTerm(x: seq<int>, y: seq<int>, z: seq<int>, s: nat, t: nat, u: nat, a: nat, c: nat, i: nat)
    requires i < s && c < u
    ensures Term(x, Product(y, z, s, t, u), s, u, a, c, i) == Sum(t, k => Triple(x, y, z, s, t, u, a, c, i, k))
  {
    hide *;
    var w, q := Cell(x, s, a, i), Product(y, z, s, t, u);
    forall k | 0 <= k < t ensures Triple(x, y, z, s, t, u, a, c, i, k) == w * Term(y, z, t, u, i, c, k) {
      TripleIs(x, y, z, s, t, u, a, c, i, k);
    }
    ScaledSum(t, w, k => Term(y, z, t, u, i, c, k), k => Triple(x, y, z, s, t, u, a, c, i, k));
    CellOfProduct(y, z, s, t, u, i, c);
    DotIs(y, z, t, u, i, c, t);
    TermIs(x, q, s, u, a, c, i);
  }

  lemma DotsAssociate(x: seq<int>, y: seq<int>, z: seq<int>, r: nat, s: nat, t: nat, u: nat, a: nat, c: nat)
    requires a < r && c < u
    ensures Dot(Product(x, y, r, s, t), z, t, u, a, c, t) == Dot(x, Product(y, z, s, t, u), s, u, a, c, s)
  {
    hide Product, Cell, Sum, Term, Triple;
    var h := (i, k) => Triple(x, y, z, s, t, u, a, c, i, k);
    forall k | 0 <= k < t
      ensures Term(Product(x, y, r, s, t), z, t, u, a, c, k) == Sum(s, i => h(i, k))
    {
      LeftTerm(x, y, z, r, s, t, u, a, c, k);
      SumExt(s, i => h(i, k), i => Triple(x, y, z, s, t, u, a, c, i, k));
    }
    forall i | 0 <= i < s
      ensures Term(x, Product(y, z, s, t, u), s, u, a, c, i) == Sum(t, k => h(i, k))
    {
      RightTerm(x, y, z, s, t, u, a, c, i);
      SumExt(t, k => h(i, k), k => Triple(x, y, z, s, t, u, a, c, i, k));
    }
    SumSwap(s, t, h);
    SumExt(t, k => Term(Product(x, y, r, s, t), z, t, u, a, c, k), k => Sum(s, i => h(i, k)));
    SumExt(s, i => Term(x, Product(y, z, s, t, u), s, u, a, c, i), i => Sum(t, k => h(i, k)));
  }

  /** Matrices with the same cells are the same buffer. */
  lemma SameCells(p: seq<int>, q: seq<int>, rows: nat, cols: nat)
    requires |p| == RowStart(rows, cols) == |q|
    requires forall i, j :: 0 <= i < rows && 0 <= j < cols ==> Cell(p, cols, i, j) == Cell(q, cols, i, j)
    ensures p == q
  {
    forall k | 0 <= k < |p| ensures p[k] == q[k] {
      if cols == 0 {
        assert false;
      } else {
        CellOf(k, rows, cols);
        assert Cell(p, cols, k / cols, k % cols) == Cell(q, cols, k / cols, k % cols);
      }
    }
  }

  lemma ProductsAssociate(x: seq<int>, y: seq<int>, z: seq<int>, r: nat, s: nat, t: nat, u: nat)
    ensures Product(Product(x, y, r, s, t), z, r, t, u) == Product(x, Product(y, z, s, t, u), r, s, u)
  {
    hide *;
    var left, right := Product(Product(x, y, r, s, t), z, r, t, u), Product(x, Product(y, z, s, t, u), r, s, u);
    forall a, c | 0 <= a < r && 0 <= c < u ensures Cell(left, u, a, c) == Cell(right, u, a, c) {
      DotsAssociate(x, y, z, r, s, t, u, a, c);
      CellOfProduct(Product(x, y, r, s, t), z, r, t, u, a, c);
      CellOfProduct(x, Product(y, z, s, t, u), r, s, u, a, c);
    }
    SameCells(left, right, r, u);
  }

  /** The projected product is the product projected. */
  lemma ProjectionsMeetInTheMiddle(uu: seq<int>, aa: seq<int>, bb: seq<int>, vv: seq<int>, n: nat, m: nat)
    ensures Product(Product(uu, aa, m, n, n), Product(bb, vv, n, n, m), m, n, m)
         == Product(Product(uu, Product(aa, bb, n, n, n), m, n, n), vv, m, n, m)
  {
    hide *;
    ProductsAssociate(Product(uu, aa, m, n, n), bb, vv, m, n, n, m);
    ProductsAssociate(uu, aa, bb, m, n, n, n);
  }

  // ---------------------------------------------------------------- the combine

  /** Row `a` of the combine after `k` terms. */
  predicate IsPartial(row: seq<Residue>, p: seq<int>, q: seq<int>, n: nat, m: nat, a: nat, k: nat) {
    |row| == m && forall c :: 0 <= c < m ==> row[c] == Mod(Dot(p, q, n, m, a, c, k))
  }

  lemma CellAt(s: seq<int>, rows: nat, cols: nat, i: nat, j: nat)
    requires |s| == RowStart(rows, cols) && i < rows && j < cols && Words(s)
    ensures RowStart(i, cols) + j < |s| && Cell(s, cols, i, j) == s[RowStart(i, cols) + j]
    ensures FitsI32(s[RowStart(i, cols) + j])
  {
    RowFits(i, rows, cols);
    hide RowStart;
  }

  lemma ZeroTerm(p: seq<int>, q: seq<int>, n: nat, m: nat, a: nat, k: nat, row: seq<Residue>)
    requires IsPartial(row, p, q, n, m, a, k) && Cell(p, n, a, k) == 0
    ensures IsPartial(row, p, q, n, m, a, k + 1)
  {
    hide Dot, Cell, Mod;
    forall c | 0 <= c < m ensures Dot(p, q, n, m, a, c, k + 1) == Dot(p, q, n, m, a, c, k) {
      DotStep(p, q, n, m, a, c, k);
    }
  }

  lemma FirstPartial(p: seq<int>, q: seq<int>, n: nat, m: nat, a: nat, row: seq<Residue>)
    requires row == seq(m, _ => Mod(0))
    ensures IsPartial(row, p, q, n, m, a, 0)
  {
    hide Dot, Mod;
    forall c | 0 <= c < m ensures Dot(p, q, n, m, a, c, 0) == 0 {
      DotStep(p, q, n, m, a, c, 0);
    }
  }

  lemma CombineTerm(p: seq<int>, q: seq<int>, n: nat, m: nat, a: nat, c: nat, k: nat, x: int, y: int)
    requires x == Cell(p, n, a, k) && y == Cell(q, m, k, c) && FitsI32(x) && FitsI32(y)
    ensures Add(Mod(Dot(p, q, n, m, a, c, k)), Mul(FromI32(x), FromI32(y))) == Mod(Dot(p, q, n, m, a, c, k + 1))
  {
    hide *;
    FromI32Exact(x);
    FromI32Exact(y);
    DotStep(p, q, n, m, a, c, k);
    AccumulateExact(Dot(p, q, n, m, a, c, k), x, y);
  }

  /** One multiplier of the left factor, spread over an output row. */
  method CombineStep(before: seq<Residue>, p: seq<int>, q: seq<int>, n: nat, m: nat, a: nat, k: nat)
    returns (row: seq<Residue>)
    requires a < m && k < n && |p| == RowStart(m, n) && |q| == RowStart(n, m) && Words(p) && Words(q)
    requires IsPartial(before, p, q, n, m, a, k)
    ensures IsPartial(row, p, q, n, m, a, k + 1)
  {
    row := before;
    CellAt(p, m, n, a, k);
    hide Dot, Cell, RowStart, Mod, Add, Mul, FromI32, Words, FitsI32;
    var x := p[RowStart(a, n) + k];
    if x == 0 {
      ZeroTerm(p, q, n, m, a, k, row);
      return;
    }
    var pf := FromI32(x);
    for c := 0 to m
      invariant |row| == m
      invariant forall j :: 0 <= j < c ==> row[j] == Mod(Dot(p, q, n, m, a, j, k + 1))
      invariant forall j :: c <= j < m ==> row[j] == Mod(Dot(p, q, n, m, a, j, k))
    {
      CellAt(q, n, m, k, c);
      var y := q[RowStart(k, m) + c];
      CombineTerm(p, q, n, m, a, c, k, x, y);
      row := row[c := Add(row[c], Mul(pf, FromI32(y)))];
    }
  }

  method CombineRow(p: seq<int>, q: seq<int>, n: nat, m: nat, a: nat) returns (row: seq<Residue>)
    requires a < m && |p| == RowStart(m, n) && |q| == RowStart(n, m) && Words(p) && Words(q)
    ensures IsPartial(row, p, q, n, m, a, n)
  {
    hide *;
    row := seq(m, _ => Mod(0));
    FirstPartial(p, q, n, m, a, row);
    for k := 0 to n
      invariant IsPartial(row, p, q, n, m, a, k)
    {
      row := CombineStep(row, p, q, n, m, a, k);
    }
  }

  lemma RowOfField(p: seq<int>, q: seq<int>, n: nat, m: nat, a: nat, row: seq<Residue>)
    requires a < m && IsPartial(row, p, q, n, m, a, n)
    ensures RowStart(a + 1, m) == RowStart(a, m) + m <= |FieldProduct(p, q, m, n)|
    ensures row == FieldProduct(p, q, m, n)[RowStart(a, m)..RowStart(a + 1, m)]
  {
    RowFits(a, m, m);
    RowStep(a, m);
    hide Product, Dot, Mod, RowStart;
    forall c | 0 <= c < m ensures row[c] == FieldProduct(p, q, m, n)[RowStart(a, m) + c] {
      ProductCell(p, q, m, n, m, a, c);
    }
  }

  /** The combine computes the exact product of its operands modulo q: skipping zeros and reducing at
      every step change nothing, and every entry is canonical. */
  method Combine(p: seq<int>, q: seq<int>, n: nat, m: nat) returns (out: seq<Residue>)
    requires |p| == RowStart(m, n) && |q| == RowStart(n, m) && Words(p) && Words(q)
    ensures out == FieldProduct(p, q, m, n)
  {
    out := [];
    ghost var all := FieldProduct(p, q, m, n);
    assert RowStart(0, m) == 0;
    hide *;
    for a := 0 to m
      invariant RowStart(a, m) <= |all| && out == all[..RowStart(a, m)]
    {
      var row := CombineRow(p, q, n, m, a);
      RowOfField(p, q, n, m, a, row);
      PrefixSlice(all, RowStart(a, m), RowStart(a + 1, m));
      out := out + row;
    }
    WholePrefix(all);
  }

  // ---------------------------------------------------------------- the sketch

  ghost predicate NoOverflow(l: seq<int>, r: seq<int>, rows: nat, inner: nat, cols: nat) {
    forall i :: 0 <= i < rows ==> PrefixesFit(l, r, inner, cols, i, I32_LIMIT)
  }

  lemma ProductWords(l: seq<int>, r: seq<int>, rows: nat, inner: nat, cols: nat)
    requires NoOverflow(l, r, rows, inner, cols)
    ensures Words(Product(l, r, rows, inner, cols))
  {
    var o := Product(l, r, rows, inner, cols);
    hide Product, Dot, Cell;
    forall k | 0 <= k < |o| ensures FitsI32(o[k]) {
      if cols == 0 {
        assert false;
      } else {
        CellOf(k, rows, cols);
        var i, j := k / cols, k % cols;
        ProductCell(l, r, rows, inner, cols, i, j);
        assert PrefixesFit(l, r, inner, cols, i, I32_LIMIT);
      }
    }
  }

  /** Whatever the two operands, signed bytes cannot overflow the projections below this size. */
  lemma BytesNeverOverflow(l: seq<int>, r: seq<int>, rows: nat, inner: nat, cols: nat)
    requires Bounded(l, 128) && Bounded(r, 128) && inner < 0x2_0000
    ensures NoOverflow(l, r, rows, inner, cols)
  {
    forall i | 0 <= i < rows ensures PrefixesFit(l, r, inner, cols, i, I32_LIMIT) {
      BoundsFit(l, r, inner, cols, i, 128, 128, I32_LIMIT);
    }
  }

  /** The whole back half: project from the left, project from the right, combine. When neither
      projection overflows, the result is the exact U * (A * B) * V, reduced entry by entry. */
  method SketchOf(uu: seq<int>, aa: seq<int>, bb: seq<int>, vv: seq<int>, n: nat, m: nat) returns (out: seq<Residue>)
    requires |uu| == RowStart(m, n) && |aa| == RowStart(n, n) && |bb| == RowStart(n, n) && |vv| == RowStart(n, m)
    requires NoOverflow(uu, aa, m, n, n) && NoOverflow(bb, vv, n, n, m)
    ensures |out| == RowStart(m, m)
    ensures forall k :: 0 <= k < |out| ==>
      out[k] == Mod(Product(Product(uu, Product(aa, bb, n, n, n), m, n, n), vv, m, n, m)[k])
  {
    hide PrefixesFit, Product, RowStart, Mod, Words;
    var p := Multiply(uu, aa, m, n, n, I32_LIMIT);
    var q := Multiply(bb, vv, n, n, m, I32_LIMIT);
    ProductWords(uu, aa, m, n, n);
    ProductWords(bb, vv, n, n, m);
    out := Combine(p, q, n, m);
    ProjectionsMeetInTheMiddle(uu, aa, bb, vv, n, m);
  }
}
