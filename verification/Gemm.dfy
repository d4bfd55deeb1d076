/** Integer matrix products: dot products, the zero-skipping loops that compute them, and the bounds
    under which a fixed-width accumulator holds them. */
module Gemm {
  import opened Arith
  import opened Bytes
  import opened Sums

  /** Cell (r, c) of a row-major matrix; zero outside the buffer. */
  function Cell(m: seq<int>, cols: nat, r: nat, c: nat): int {
    var k := RowStart(r, cols) + c;
    if k < |m| then m[k] else 0
  }

  function Term(l: seq<int>, r: seq<int>, inner: nat, cols: nat, i: nat, j: nat, t: int): int {
    if t < 0 then 0 else Cell(l, inner, i, t) * Cell(r, cols, t, j)
  }

  /** The first `n` terms of the dot product of row `i` and column `j`. */
  function Dot(l: seq<int>, r: seq<int>, inner: nat, cols: nat, i: nat, j: nat, n: nat): int {
    Sum(n, t => Term(l, r, inner, cols, i, j, t))
  }

  /** Row `i` of the product. */
  function ProductRow(l: seq<int>, r: seq<int>, inner: nat, cols: nat, i: nat): (row: seq<int>)
    ensures |row| == cols
    ensures forall j :: 0 <= j < cols ==> row[j] == Dot(l, r, inner, cols, i, j, inner)
  {
    seq(cols, j requires 0 <= j < cols => Dot(l, r, inner, cols, i, j, inner))
  }

  /** The product, row-major. */
  function Product(l: seq<int>, r: seq<int>, rows: nat, inner: nat, cols: nat): (o: seq<int>)
    ensures |o| == RowStart(rows, cols)
    decreases rows
  {
    if rows == 0 then [] else
      RowStep(rows - 1, cols);
      Product(l, r, rows - 1, inner, cols) + ProductRow(l, r, inner, cols, rows - 1)
  }

  lemma {:induction false} ProductCell(l: seq<int>, r: seq<int>, rows: nat, inner: nat, cols: nat, i: nat, j: nat)
    requires i < rows && j < cols
    ensures RowStart(i, cols) + j < RowStart(rows, cols)
    ensures Product(l, r, rows, inner, cols)[RowStart(i, cols) + j] == Dot(l, r, inner, cols, i, j, inner)
    decreases rows
  {
    RowFits(i, rows, cols);
    RowStep(rows - 1, cols);
    hide RowStart, Dot;
    if i < rows - 1 {
      ProductCell(l, r, rows - 1, inner, cols, i, j);
    }
  }

  /** No accumulator of row `i` ever leaves [-limit, limit). */
  ghost predicate PrefixesFit(l: seq<int>, r: seq<int>, inner: nat, cols: nat, i: nat, limit: int) {
    forall j, n :: 0 <= j < cols && 0 <= n <= inner ==> -limit <= Dot(l, r, inner, cols, i, j, n) < limit
  }

  predicate Bounded(m: seq<int>, b: int) { forall k :: 0 <= k < |m| ==> -b <= m[k] <= b }

  lemma ProductBound(x: int, y: int, a: int, b: int)
    requires 0 <= a && 0 <= b && -a <= x <= a && -b <= y <= b
    ensures -(a * b) <= x * y <= a * b
  {
    assert x * y <= a * b && x * y >= -(a * b) by {
      if x >= 0 {
        assert x * y <= x * b && x * y >= x * -b;
        assert x * b <= a * b;
      } else {
        assert -x * y <= -x * b && -x * y >= -x * -b;
        assert -x * b <= a * b;
      }
    }
  }

  lemma TermBound(l: seq<int>, r: seq<int>, inner: nat, cols: nat, i: nat, j: nat, t: int, a: int, b: int)
    requires 0 <= a && 0 <= b && Bounded(l, a) && Bounded(r, b)
    ensures -(a * b) <= Term(l, r, inner, cols, i, j, t) <= a * b
  {
    hide RowStart;
    MulNonNeg(a, b);
    if t >= 0 {
      ProductBound(Cell(l, inner, i, t), Cell(r, cols, t, j), a, b);
    }
  }

  lemma DotBound(l: seq<int>, r: seq<int>, inner: nat, cols: nat, i: nat, j: nat, n: nat, a: int, b: int)
    requires 0 <= a && 0 <= b && Bounded(l, a) && Bounded(r, b)
    ensures -(n * (a * b)) <= Dot(l, r, inner, cols, i, j, n) <= n * (a * b)
  {
    hide Term, Bounded;
    forall t: int ensures -(a * b) <= Term(l, r, inner, cols, i, j, t) <= a * b {
      TermBound(l, r, inner, cols, i, j, t, a, b);
    }
    SumBound(n, t => Term(l, r, inner, cols, i, j, t), a * b);
  }

  /** Every entry of a product obeys the bound of its dot products. */
  lemma {:induction false} ProductBounded(l: seq<int>, r: seq<int>, rows: nat, inner: nat, cols: nat, a: int, b: int)
    requires 0 <= a && 0 <= b && Bounded(l, a) && Bounded(r, b)
    ensures Bounded(Product(l, r, rows, inner, cols), inner * (a * b))
    decreases rows
  {
    if rows > 0 {
      ProductBounded(l, r, rows - 1, inner, cols, a, b);
      hide Dot, RowStart;
      var row := ProductRow(l, r, inner, cols, rows - 1);
      forall j | 0 <= j < |row| ensures -(inner * (a * b)) <= row[j] <= inner * (a * b) {
        DotBound(l, r, inner, cols, rows - 1, j, inner, a, b);
      }
    }
  }

  /** Entry bounds that keep every accumulator of every row in range. */
  lemma BoundsFit(l: seq<int>, r: seq<int>, inner: nat, cols: nat, i: nat, a: int, b: int, limit: int)
    requires 0 <= a && 0 <= b && Bounded(l, a) && Bounded(r, b) && inner * (a * b) < limit
    ensures PrefixesFit(l, r, inner, cols, i, limit)
  {
    hide Dot, Bounded;
    MulNonNeg(a, b);
    forall j, n | 0 <= j < cols && 0 <= n <= inner
      ensures -limit <= Dot(l, r, inner, cols, i, j, n) < limit
    {
      DotBound(l, r, inner, cols, i, j, n, a, b);
      assert n * (a * b) <= inner * (a * b);
    }
  }

  lemma DotStep(l: seq<int>, r: seq<int>, inner: nat, cols: nat, i: nat, j: nat, k: nat)
    ensures Dot(l, r, inner, cols, i, j, 0) == 0
    ensures Dot(l, r, inner, cols, i, j, k + 1)
         == Dot(l, r, inner, cols, i, j, k) + Cell(l, inner, i, k) * Cell(r, cols, k, j)
  {
    hide Cell;
  }

  /** One row of a product, the rows of `r` walked in order and zero multipliers skipped. */
  method DotRow(l: seq<int>, r: seq<int>, inner: nat, cols: nat, i: nat, ghost limit: int) returns (row: seq<int>)
    requires RowStart(i, inner) + inner <= |l| && RowStart(inner, cols) <= |r|
    requires PrefixesFit(l, r, inner, cols, i, limit)
    ensures row == ProductRow(l, r, inner, cols, i)
    ensures forall j :: 0 <= j < cols ==> -limit <= row[j] < limit
  {
    hide Dot, RowStart;
    row := seq(cols, _ => 0);
    forall j | 0 <= j < cols ensures row[j] == Dot(l, r, inner, cols, i, j, 0) { DotStep(l, r, inner, cols, i, j, 0); }
    for k := 0 to inner
      invariant |row| == cols
      invariant forall j :: 0 <= j < cols ==> row[j] == Dot(l, r, inner, cols, i, j, k)
    {
      var a := l[RowStart(i, inner) + k];
      forall j | 0 <= j < cols
        ensures Dot(l, r, inner, cols, i, j, k + 1) == Dot(l, r, inner, cols, i, j, k) + a * Cell(r, cols, k, j)
      {
        DotStep(l, r, inner, cols, i, j, k);
      }
      if a == 0 { continue; }
      RowFits(k, inner, cols);
      for j := 0 to cols
        invariant |row| == cols
        invariant forall c :: 0 <= c < j ==> row[c] == Dot(l, r, inner, cols, i, c, k + 1)
        invariant forall c :: j <= c < cols ==> row[c] == Dot(l, r, inner, cols, i, c, k)
      {
        row := row[j := row[j] + a * r[RowStart(k, cols) + j]];
        assert -limit <= row[j] < limit;   // the accumulator holds the new value
      }
    }
  }

  /** The whole product with accumulators of one width. */
  method Multiply(l: seq<int>, r: seq<int>, rows: nat, inner: nat, cols: nat, ghost limit: int) returns (o: seq<int>)
    requires |l| == RowStart(rows, inner) && |r| == RowStart(inner, cols)
    requires forall i :: 0 <= i < rows ==> PrefixesFit(l, r, inner, cols, i, limit)
    ensures o == Product(l, r, rows, inner, cols)
  {
    hide RowStart, PrefixesFit, ProductRow;
    o := [];
    for i := 0 to rows
      invariant o == Product(l, r, i, inner, cols)
    {
      RowFits(i, rows, inner);
      var row := DotRow(l, r, inner, cols, i, limit);
      o := o + row;
    }
  }
}
