/** Arithmetic modulo q = 2^61 - 1 on 64-bit words. */
module Fq {
  import opened Arith
  import opened Bytes

  const Q: int := 0x1FFF_FFFF_FFFF_FFFF
  const P61: int := 0x2000_0000_0000_0000

  /** A canonical residue. */
  type Residue = x: int | 0 <= x < Q

  /** `fqred`: two folds of the high part onto the low 61 bits, then one conditional subtraction.
      The high part and the sum are 64-bit words. */
  function Reduce(x: nat): Residue { Settle((x % P61 + x / P61 % W64) % W64) }

  /** The second fold and the conditional subtraction. */
  function Settle(s: nat): Residue
    requires s < W64
  {
    var t := s % P61 + s / P61;
    if t >= Q then t - Q else t
  }

  lemma FoldCongruent(s: nat)
    ensures (s % P61 + s / P61) % Q == s % Q
  {
    var h := s / P61;
    assert s == h * P61 + s % P61;
    assert s == (s % P61 + h) + h * Q;
    ModShift(s % P61 + h, h, Q);
  }

  lemma SettleExact(s: nat)
    requires s < W64
    ensures Settle(s) == s % Q && 0 <= Settle(s) < Q
  {
    FoldCongruent(s);
    var t := s % P61 + s / P61;
    assert 0 <= t <= P61 + 7;
    DivModUnique(t, if t >= Q then 1 else 0, Settle(s), Q);
  }

  /** What the 64-bit registers drop is a multiple of 2^64, and 2^64 is 8 modulo q. */
  lemma DroppedBits(x: nat) returns (s: nat, m: nat)
    requires x < W64 * W64
    ensures s < W64 && x % P61 + x / P61 == s + m * W64 && m <= 8
    ensures Reduce(x) == s % Q && x % Q == (s + 8 * m) % Q
  {
    var lo, h := x % P61, x / P61;
    assert x == h * P61 + lo;
    LessCancel(h, 8 * W64, P61);
    s := (lo + h % W64) % W64;
    m := h / W64 + (lo + h % W64) / W64;
    SettleExact(s);
    FoldCongruent(x);
    assert s + m * W64 == (s + 8 * m) + (8 * m) * Q;
    ModShift(s + 8 * m, 8 * m, Q);
  }

  /** The reduction of a 128-bit value is exact if and only if its two parts add up within 64 bits. */
  lemma ReduceExactIff(x: nat)
    requires x < W64 * W64
    ensures 0 <= Reduce(x) < Q
    ensures Reduce(x) == x % Q <==> x % P61 + x / P61 < W64
  {
    var s, m := DroppedBits(x);
    hide Reduce;
    ModAdd(s, 8 * m, Q);
    var r := s % Q;
    DivModUnique(r + 8 * m, if r + 8 * m >= Q then 1 else 0, if r + 8 * m >= Q then r + 8 * m - Q else r + 8 * m, Q);
  }

  lemma ReduceExact(x: nat)
    requires x < Q * Q
    ensures Reduce(x) == x % Q && 0 <= Reduce(x) < Q
  {
    LessCancel(x / P61, P61, P61);
    ReduceExactIff(x);
  }

  /** An input that goes wrong, far beyond any product of two residues. */
  lemma ReduceFails()
    ensures var x := P61 * (W64 - P61 + 1) + (P61 - 1);
      x > Q * Q && Reduce(x) != x % Q
  {
    var x := P61 * (W64 - P61 + 1) + (P61 - 1);
    DivModUnique(x, W64 - P61 + 1, P61 - 1, P61);
    ReduceExactIff(x);
  }

  /** The residue an exact integer stands for. */
  function Mod(x: int): Residue { x % Q }

  /** `fqmul` on canonical residues. */
  function Mul(a: Residue, b: Residue): Residue { MulNonNeg(a, b); Reduce(a * b) }

  lemma MulExact(a: Residue, b: Residue)
    ensures Mul(a, b) == Mod(a * b)
  {
    MulNonNeg(a, b);
    MulLess(a, Q, b);
    assert a * b < Q * Q by {
      assert Q * b <= Q * Q;
    }
    ReduceExact(a * b);
  }

  /** `fqadd` and `fqsub`: one conditional correction. */
  function Add(a: Residue, b: Residue): Residue { if a + b >= Q then a + b - Q else a + b }

  function Sub(a: Residue, b: Residue): Residue { if a >= b then a - b else a + Q - b }

  lemma AddExact(a: Residue, b: Residue)
    ensures Add(a, b) == Mod(a + b)
  {
  }

  lemma SubExact(a: Residue, b: Residue)
    ensures Sub(a, b) == Mod(a - b)
  {
  }

  /** `fqfromS` on a signed word. */
  function FromSigned(x: int): Residue {
    if x >= 0 then Reduce(x) else
      var r := Reduce(-x);
      if r != 0 then Q - r else 0
  }

  lemma FromSignedExact(x: int)
    requires FitsI64(x)
    ensures FromSigned(x) == Mod(x)
  {
    if x >= 0 {
      ReduceExact(x);
    } else {
      ReduceExact(-x);
      NegateMod(x);
    }
  }

  lemma NegateMod(x: int)
    ensures x % Q == if (-x) % Q == 0 then 0 else Q - (-x) % Q
  {
    var k, r := (-x) / Q, (-x) % Q;
    assert -x == k * Q + r;
    if r == 0 { DivModUnique(x, -k, 0, Q); } else { DivModUnique(x, -k - 1, Q - r, Q); }
  }

  /** `fq_i32`: no reduction needed for 32-bit values. */
  function FromI32(x: int): Residue
    requires FitsI32(x)
  {
    if x >= 0 then x else Q - -x
  }

  lemma FromI32Exact(x: int)
    requires FitsI32(x)
    ensures FromI32(x) == Mod(x)
  {
    NegateMod(x);
  }

  /** Accumulating a product of residues: add and multiply in the field, or exactly and reduce. */
  lemma AccumulateExact(acc: int, x: int, y: int)
    ensures Add(Mod(acc), Mul(Mod(x), Mod(y))) == Mod(acc + x * y)
  {
    MulExact(Mod(x), Mod(y));
    ModMul(x, y, Q);
    AddExact(Mod(acc), Mul(Mod(x), Mod(y)));
    ModAdd(acc, x * y, Q);
  }

  /** Deducting a product of residues. */
  lemma DeductExact(acc: int, x: int, y: int)
    ensures Sub(Mod(acc), Mul(Mod(x), Mod(y))) == Mod(acc - x * y)
  {
    MulExact(Mod(x), Mod(y));
    ModMul(x, y, Q);
    SubExact(Mod(acc), Mul(Mod(x), Mod(y)));
    ModSub(acc, x * y, Q);
  }

  lemma AddMod(a: int, b: int)
    ensures Add(Mod(a), Mod(b)) == Mod(a + b)
  {
    AddExact(Mod(a), Mod(b));
    ModAdd(a, b, Q);
  }

  lemma MulMod(a: int, b: int)
    ensures Mul(Mod(a), Mod(b)) == Mod(a * b)
  {
    MulExact(Mod(a), Mod(b));
    ModMul(a, b, Q);
  }

  lemma ModSmall(x: int)
    requires 0 <= x < Q
    ensures Mod(x) == x
  {
  }
}
