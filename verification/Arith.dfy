/** Integer facts the index computations of the kernels rest on. */
module Arith {
  lemma MulNonNeg(a: int, b: int)
    requires a >= 0 && b >= 0
    ensures a * b >= 0
  {
  }

  lemma Commutes(a: int, b: int)
    ensures a * b == b * a
  {
  }

  lemma MulSmall(d: int, t: int)
    requires -t < d * t < t
    ensures d == 0
  {
    assert d >= 1 ==> d * t >= t;
    assert d <= -1 ==> d * t <= -t;
  }

  /** Quotient and remainder are determined by the division equation. */
  lemma DivModUnique(n: int, q: int, r: int, t: int)
    requires n == q * t + r && 0 <= r < t
    ensures n / t == q && n % t == r
  {
    var a, b := n / t, n % t;
    assert n == a * t + b;
    assert (a - q) * t == r - b;
    MulSmall(a - q, t);
  }

  /** The row-major index at which row `i` begins. */
  function RowStart(i: nat, cols: nat): nat {
    MulNonNeg(i, cols);
    i * cols
  }

  lemma NoRows(cols: nat)
    ensures RowStart(0, cols) == 0
  {
  }

  lemma RowStep(i: nat, cols: nat)
    ensures RowStart(i + 1, cols) == RowStart(i, cols) + cols
  {
  }

  lemma RowFits(i: nat, rows: nat, cols: nat)
    requires i < rows
    ensures RowStart(i, cols) + cols <= RowStart(rows, cols)
  {
    MulLess(i, rows, cols);
  }

  /** Row-major index of a cell, and the way back. */
  lemma CellIndex(i: int, j: int, rows: int, cols: int)
    requires 0 <= i < rows && 0 <= j < cols
    ensures 0 <= i * cols + j < rows * cols
    ensures (i * cols + j) / cols == i && (i * cols + j) % cols == j
  {
    assert 0 <= i * cols;
    assert (i + 1) * cols <= rows * cols;
    assert (i + 1) * cols == i * cols + cols;
    DivModUnique(i * cols + j, i, j, cols);
  }

  lemma CellOf(idx: int, rows: int, cols: int)
    requires 0 <= idx < rows * cols && 0 < cols
    ensures 0 <= idx / cols < rows && 0 <= idx % cols < cols
    ensures idx == idx / cols * cols + idx % cols
  {
    var q := idx / cols;
    assert idx == q * cols + idx % cols;
    assert q >= rows ==> q * cols >= rows * cols;
    assert q <= -1 ==> q * cols <= -cols;
  }

  /** Congruence is preserved by sums, differences and products. */
  lemma ModAdd(a: int, b: int, m: int)
    requires m > 0
    ensures (a % m + b % m) % m == (a + b) % m
  {
    var qa, qb := a / m, b / m;
    assert a == qa * m + a % m && b == qb * m + b % m;
    ModShift(a % m + b % m, qa + qb, m);
    assert (qa + qb) * m == qa * m + qb * m;
  }

  lemma ModSub(a: int, b: int, m: int)
    requires m > 0
    ensures (a % m - b % m) % m == (a - b) % m
  {
    var qa, qb := a / m, b / m;
    assert a == qa * m + a % m && b == qb * m + b % m;
    ModShift(a % m - b % m, qa - qb, m);
    assert (qa - qb) * m == qa * m - qb * m;
  }

  lemma ModMul(a: int, b: int, m: int)
    requires m > 0
    ensures ((a % m) * (b % m)) % m == (a * b) % m
  {
    DivEquation(a, m);
    DivEquation(b, m);
    RemainderProduct(a, a / m, a % m, b, b / m, b % m, m);
  }

  lemma DivEquation(a: int, m: int)
    requires m > 0
    ensures a == a / m * m + a % m
  {
  }

  lemma RemainderProduct(a: int, qa: int, ra: int, b: int, qb: int, rb: int, m: int)
    requires m > 0 && a == qa * m + ra && b == qb * m + rb
    ensures (ra * rb) % m == (a * b) % m
  {
    ProductParts(qa, ra, qb, rb, m);
    Congruent(a * b, ra * rb, qa * (qb * m) + qa * rb + ra * qb, m);
  }

  lemma Congruent(x: int, y: int, k: int, m: int)
    requires m > 0 && x == y + k * m
    ensures y % m == x % m
  {
    ModShift(y, k, m);
  }

  lemma ProductParts(qa: int, ra: int, qb: int, rb: int, m: int)
    ensures (qa * m + ra) * (qb * m + rb) == ra * rb + (qa * (qb * m) + qa * rb + ra * qb) * m
  {
    Distribute(qa * m, ra, qb * m, rb);
    Swapped(qa, m, qb * m);
    Swapped(qa, m, rb);
    Factored(qa * (qb * m), qa * rb, ra * qb, m);
    assert ra * (qb * m) == (ra * qb) * m;
  }

  lemma Swapped(a: int, m: int, b: int)
    ensures (a * m) * b == (a * b) * m
  {
  }

  lemma Factored(a: int, b: int, c: int, m: int)
    ensures (a + b + c) * m == a * m + b * m + c * m
  {
  }

  lemma Distribute(a: int, b: int, c: int, d: int)
    ensures (a + b) * (c + d) == a * c + a * d + b * c + b * d
  {
  }

  lemma ModShift(a: int, k: int, m: int)
    requires m > 0
    ensures (a + k * m) % m == a % m
  {
    assert a == (a / m) * m + a % m;
    assert a + k * m == (a / m + k) * m + a % m;
    DivModUnique(a + k * m, a / m + k, a % m, m);
  }

  lemma DivNonNeg(x: int, p: int)
    requires x >= 0 && p > 0
    ensures 0 <= x / p
  {
    assert x == x / p * p + x % p;
    LessCancel(-1, x / p, p);
  }

  lemma LessCancel(a: int, b: int, c: int)
    requires a * c < b * c && c >= 0
    ensures a < b
  {
    assert a >= b ==> a * c >= b * c;
  }

  lemma MulLess(a: int, b: int, c: int)
    requires a < b && c >= 0
    ensures a * c + c <= b * c
  {
    assert (a + 1) * c <= b * c;
    assert (a + 1) * c == a * c + c;
  }

  lemma ShiftProduct(h: int, a: int, l: int, b: int)
    ensures (h * a + l) * b == h * (a * b) + l * b
  {
  }
}
