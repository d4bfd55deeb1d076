/** Bit operations on unsigned words, as functions on naturals, and what they do to lane indices. */
module Bits {
  import opened Arith

  predicate IsPow2(n: nat) { n == 1 || (n > 1 && n % 2 == 0 && IsPow2(n / 2)) }

  function Pow2(k: nat): (p: nat)
    ensures p >= 1
  {
    if k == 0 then 1 else 2 * Pow2(k - 1)
  }

  function Log2(n: nat): (k: nat)
    requires IsPow2(n)
    ensures Pow2(k) == n
  {
    if n == 1 then 0 else 1 + Log2(n / 2)
  }

  function XorBit(a: nat, b: nat): nat { if a == b then 0 else 1 }

  function BitXor(a: nat, b: nat): nat {
    if a == 0 && b == 0 then 0 else XorBit(a % 2, b % 2) + 2 * BitXor(a / 2, b / 2)
  }

  function BitAnd(a: nat, b: nat): nat {
    if a == 0 || b == 0 then 0 else (a % 2) * (b % 2) + 2 * BitAnd(a / 2, b / 2)
  }

  function BitOr(a: nat, b: nat): nat {
    if a == 0 && b == 0 then 0
    else (if a % 2 == 1 || b % 2 == 1 then 1 else 0) + 2 * BitOr(a / 2, b / 2)
  }

  /** `a & ~b`. */
  function AndNot(a: nat, b: nat): nat {
    if a == 0 then 0 else (a % 2) * (1 - b % 2) + 2 * AndNot(a / 2, b / 2)
  }

  function Shl(a: nat, d: nat): nat { MulNonNeg(a, Pow2(d)); a * Pow2(d) }

  function Shr(a: nat, d: nat): nat { DivNonNeg(a, Pow2(d)); a / Pow2(d) }

  function PopCount(a: nat): nat {
    if a == 0 then 0 else a % 2 + PopCount(a / 2)
  }

  lemma {:induction false} Pow2IsPow2(k: nat)
    ensures IsPow2(Pow2(k))
  {
    if k > 0 { Pow2IsPow2(k - 1); }
  }

  lemma {:induction false} Pow2Add(a: nat, b: nat)
    ensures Pow2(a + b) == Pow2(a) * Pow2(b)
  {
    if a > 0 {
      Pow2Add(a - 1, b);
      assert Pow2(a + b) == 2 * Pow2(a - 1 + b);
    }
  }

  lemma WordIsPow2()
    ensures Pow2(32) == 0x1_0000_0000
  {
    assert Pow2(8) == 256;
    hide Pow2;
    Pow2Add(8, 8);
    Pow2Add(16, 16);
  }

  lemma LongWord()
    ensures Pow2(64) == 0x1_0000_0000_0000_0000
  {
    WordIsPow2();
    hide Pow2;
    Pow2Add(32, 32);
  }

  lemma {:induction false} Pow2Mono(a: nat, b: nat)
    requires a < b
    ensures 2 * Pow2(a) <= Pow2(b)
    decreases b
  {
    if a + 1 < b {
      Pow2Mono(a, b - 1);
    }
  }

  lemma XorDigits(a: nat, b: nat)
    ensures BitXor(a, b) == XorBit(a % 2, b % 2) + 2 * BitXor(a / 2, b / 2)
  {
  }

  lemma {:induction false} XorInvolutive(a: nat, m: nat)
    ensures BitXor(BitXor(a, m), m) == a
  {
    if a != 0 || m != 0 {
      XorInvolutive(a / 2, m / 2);
      XorDigits(a, m);
      XorDigits(BitXor(a, m), m);
    }
  }

  lemma {:induction false} XorBound(a: nat, b: nat, k: nat)
    requires a < Pow2(k) && b < Pow2(k)
    ensures BitXor(a, b) < Pow2(k)
  {
    if k > 0 {
      XorBound(a / 2, b / 2, k - 1);
    }
  }

  /** `i` with the bit of weight `p` flipped, put together from the bits around it. */
  function FlipBit(i: nat, p: nat): int
    requires p >= 1
  {
    i / (2 * p) * (2 * p) + (1 - i / p % 2) * p + i % p
  }

  /** A number from its bits above weight `p`, the bit itself and the bits below. */
  lemma BitSplit(i: nat, p: nat)
    requires p >= 1
    ensures i == i / (2 * p) * (2 * p) + i / p % 2 * p + i % p
    ensures i / (2 * p) == i / p / 2
    ensures i % (2 * p) == i / p % 2 * p + i % p
  {
    var q := i / p;
    assert i == q * p + i % p;
    assert q == 2 * (q / 2) + q % 2;
    assert q * p == (q / 2) * (2 * p) + q % 2 * p;
    assert 0 <= q % 2 * p + i % p < 2 * p;
    DivModUnique(i, q / 2, q % 2 * p + i % p, 2 * p);
  }

  lemma BitDigits(j: int, c: nat, b: nat, r: nat, p: nat)
    requires p >= 1 && b <= 1 && r < p && j == c * (2 * p) + b * p + r
    ensures 0 <= j < (c + 1) * (2 * p)
    ensures j / p % 2 == b && j / (2 * p) == c && j % p == r
  {
    assert 0 <= b * p <= p && c * (2 * p) >= 0;
    DivModUnique(j, c, b * p + r, 2 * p);
    assert j == (2 * c + b) * p + r;
    DivModUnique(j, 2 * c + b, r, p);
  }

  /** One butterfly pair: the partner differs in exactly one bit, and flipping goes both ways. */
  lemma FlipFacts(i: nat, p: nat)
    requires p >= 1
    ensures var j := FlipBit(i, p);
      && 0 <= j < (i / (2 * p) + 1) * (2 * p)
      && FlipBit(j, p) == i
      && j / p % 2 == 1 - i / p % 2 && j / (2 * p) == i / (2 * p) && j % p == i % p
      && j == if i / p % 2 == 0 then i + p else i - p
  {
    DivNonNeg(i, 2 * p);
    DivNonNeg(i, p);
    var c: nat, b: nat, r: nat := i / (2 * p), i / p % 2, i % p;
    BitSplit(i, p);
    FlipParts(i, c, b, r, p);
    var j := FlipBit(i, p);
    BitDigits(j, c, 1 - b, r, p);
    FlipParts(j, c, 1 - b, r, p);
    hide *;
    if b == 0 {
      assert 1 * p == p && 0 * p == 0;
    } else {
      assert 1 * p == p && 0 * p == 0;
    }
  }

  lemma FlipParts(i: nat, c: nat, b: nat, r: nat, p: nat)
    requires p >= 1 && b <= 1 && r < p && i == c * (2 * p) + b * p + r
    ensures FlipBit(i, p) == c * (2 * p) + (1 - b) * p + r
  {
    BitDigits(i, c, b, r, p);
  }

  lemma FlipBelow(i: nat, p: nat, c: nat, w: nat)
    requires p >= 1 && w == 2 * p && c == i / w
    ensures 0 <= FlipBit(i, p) < (c + 1) * w
  {
    FlipFacts(i, p);
    hide FlipBit;
  }

  lemma FlipInRange(i: nat, p: nat, m: nat, n: nat)
    requires p >= 1 && n == m * (2 * p) && i < n
    ensures 0 <= FlipBit(i, p) < n
  {
    hide FlipBit;
    var w := 2 * p;
    DivNonNeg(i, w);
    var c: nat := i / w;
    FlipBelow(i, p, c, w);
    BlockBound(c, m, w, i);
  }

  /** A stage of weight `2^t` pairs up the whole of `[0, 2^k)`. */
  lemma StageBlocks(t: nat, k: nat) returns (m: nat)
    requires t < k
    ensures Pow2(k) == m * (2 * Pow2(t))
  {
    m := Pow2(k - t - 1);
    Pow2Add(k - t - 1, t + 1);
  }

  lemma BlockBound(c: nat, m: nat, w: nat, i: nat)
    requires w >= 1 && i < m * w && c == i / w
    ensures (c + 1) * w <= m * w
  {
    assert i == c * w + i % w;
    assert c >= m ==> c * w >= m * w;
    assert (c + 1) * w == c * w + w;
  }

  lemma {:induction false} XorZero(a: nat)
    ensures BitXor(a, 0) == a
  {
    if a != 0 { XorZero(a / 2); }
  }

  /** `i ^ (1 << t)` flips bit `t`. */
  lemma {:induction false} XorFlips(i: nat, t: nat)
    ensures BitXor(i, Pow2(t)) == FlipBit(i, Pow2(t))
    decreases t
  {
    if t == 0 {
      XorZero(i / 2);
    } else {
      XorFlips(i / 2, t - 1);
      FlipTwice(i, Pow2(t - 1));
      XorEven(i, Pow2(t - 1));
    }
  }

  lemma XorEven(i: nat, p: nat)
    requires p >= 1
    ensures BitXor(i, 2 * p) == 2 * BitXor(i / 2, p) + i % 2
  {
    XorDigits(i, 2 * p);
    hide Pow2, BitXor;
    assert 2 * p / 2 == p && 2 * p % 2 == 0;
  }

  lemma FlipTwice(i: nat, p: nat)
    requires p >= 1
    ensures FlipBit(i, 2 * p) == 2 * FlipBit(i / 2, p) + i % 2
  {
    HalveTwice(i, p);
    HalveTwice(i, 2 * p);
    LowBitsStep(i, p);
    assert i / 2 / (2 * p) * (2 * (2 * p)) == 2 * (i / 2 / (2 * p) * (2 * p));
  }

  lemma HalveTwice(i: nat, p: nat)
    requires p >= 1
    ensures i / (2 * p) == i / 2 / p
  {
    var h := i / 2;
    assert h == h / p * p + h % p;
    assert i == h / p * (2 * p) + (2 * (h % p) + i % 2);
    DivModUnique(i, h / p, 2 * (h % p) + i % 2, 2 * p);
  }

  lemma LowBitsStep(a: nat, p: nat)
    requires p >= 1
    ensures a % (2 * p) == 2 * (a / 2 % p) + a % 2
    ensures a % (2 * p) / 2 == a / 2 % p && a % (2 * p) % 2 == a % 2
  {
    assert a / 2 == a / 2 / p * p + a / 2 % p;
    DivModUnique(a, a / 2 / p, 2 * (a / 2 % p) + a % 2, 2 * p);
  }

  lemma {:induction false} AndLowBits(a: nat, k: nat)
    ensures BitAnd(a, Pow2(k) - 1) == a % Pow2(k)
  {
    if k > 0 {
      var p := Pow2(k - 1);
      AndLowBits(a / 2, k - 1);
      LowBitsStep(a, p);
      hide Pow2;
      if a != 0 {
        assert (2 * p - 1) / 2 == p - 1 && (2 * p - 1) % 2 == 1;
      }
    }
  }

  lemma AndBelow(a: nat, n: nat)
    requires IsPow2(n)
    ensures BitAnd(a, n - 1) == a % n < n
  {
    var k := Log2(n);
    AndLowBits(a, k);
    hide *;
    assert 0 <= a % n < n;
  }

  lemma {:induction false} OrDisjoint(c: nat, b: nat, r: nat)
    requires b < Pow2(r)
    ensures BitOr(Shl(c, r), b) == Shl(c, r) + b
    decreases r
  {
    if r == 0 {
      OrZero(c);
    } else {
      OrDisjoint(c, b / 2, r - 1);
      ShlDouble(c, r - 1);
      OrEven(Shl(c, r - 1), b);
    }
  }

  lemma ShlDouble(c: nat, r: nat)
    ensures Shl(c, r + 1) == 2 * Shl(c, r)
  {
  }

  lemma OrEven(a: nat, b: nat)
    ensures BitOr(2 * a, b) == b % 2 + 2 * BitOr(a, b / 2)
  {
    assert 2 * a / 2 == a && 2 * a % 2 == 0;
  }

  lemma {:induction false} OrZero(a: nat)
    ensures BitOr(a, 0) == a
  {
    if a != 0 { OrZero(a / 2); }
  }

  lemma {:induction false} OrLowBits(a: nat, b: nat, k: nat)
    ensures BitOr(a, b) % Pow2(k) == BitOr(a % Pow2(k), b % Pow2(k))
  {
    if k > 0 {
      var p := Pow2(k - 1);
      OrLowBits(a / 2, b / 2, k - 1);
      LowBitsStep(a, p);
      LowBitsStep(b, p);
      LowBitsStep(BitOr(a, b), p);
      OrDigits(a, b);
      OrDigits(a % (2 * p), b % (2 * p));
    }
  }

  lemma OrDigits(a: nat, b: nat)
    ensures BitOr(a, b) / 2 == BitOr(a / 2, b / 2)
    ensures BitOr(a, b) % 2 == if a % 2 == 1 || b % 2 == 1 then 1 else 0
  {
  }

  /** The `n & (n - 1)` test. */
  lemma {:induction false} Pow2Test(n: nat)
    requires n >= 1
    ensures BitAnd(n, n - 1) == 0 <==> IsPow2(n)
  {
    if n % 2 == 0 {
      Pow2Test(n / 2);
      assert (n - 1) / 2 == n / 2 - 1;
    } else if n > 1 {
      AndSelf(n / 2);
      assert (n - 1) / 2 == n / 2;
    }
  }

  lemma {:induction false} AndSelf(a: nat)
    ensures BitAnd(a, a) == a
  {
    if a != 0 { AndSelf(a / 2); }
  }

  // ---------------------------------------------------------------- single bits

  /** Bit `b` of a word. */
  function BitAt(u: nat, b: nat): nat { Shr(u, b) % 2 }

  lemma BitStep(u: nat, b: nat)
    ensures BitAt(u, 0) == u % 2
    ensures BitAt(u, b + 1) == BitAt(u / 2, b)
  {
    HalveTwice(u, Pow2(b));
  }

  /** XOR adds bit by bit, modulo two. */
  lemma {:induction false} XorBits(u: nat, v: nat, b: nat)
    ensures BitAt(BitXor(u, v), b) == (BitAt(u, b) + BitAt(v, b)) % 2
  {
    hide BitAt, BitXor;
    XorHalves(u, v);
    if b == 0 {
      BitStep(u, 0);
      BitStep(v, 0);
      BitStep(BitXor(u, v), 0);
    } else {
      XorBits(u / 2, v / 2, b - 1);
      BitStep(u, b - 1);
      BitStep(v, b - 1);
      BitStep(BitXor(u, v), b - 1);
    }
  }

  lemma XorHalves(u: nat, v: nat)
    ensures BitXor(u, v) / 2 == BitXor(u / 2, v / 2) && BitXor(u, v) % 2 == (u % 2 + v % 2) % 2
  {
    XorDigits(u, v);
    hide BitXor;
  }

  /** A word of `k` bits is its bits. */
  lemma {:induction false} SameBits(u: nat, v: nat, k: nat)
    requires u < Pow2(k) && v < Pow2(k) && forall b: nat :: b < k ==> BitAt(u, b) == BitAt(v, b)
    ensures u == v
  {
    if k > 0 {
      forall b: nat | b < k - 1 ensures BitAt(u / 2, b) == BitAt(v / 2, b) {
        BitStep(u, b);
        BitStep(v, b);
      }
      BitStep(u, 0);
      BitStep(v, 0);
      assert BitAt(u, 0) == BitAt(v, 0);
      hide BitAt;
      SameBits(u / 2, v / 2, k - 1);
    }
  }

  /** The bits of a word put together from `k` low bits and the rest. */
  lemma {:induction false} JoinedBits(lo: nat, hi: nat, k: nat, b: nat)
    requires lo < Pow2(k)
    ensures lo + Shl(hi, k) >= 0
    ensures BitAt(lo + Shl(hi, k), b) == if b < k then BitAt(lo, b) else BitAt(hi, b - k)
  {
    if k == 0 {
      assert Shl(hi, 0) == hi;
    } else {
      JoinedHalf(lo, hi, k);
      hide *;
      if b == 0 {
        BitStep(lo, 0);
        BitStep(lo + Shl(hi, k), 0);
      } else {
        BitStep(lo, b - 1);
        BitStep(lo + Shl(hi, k), b - 1);
        JoinedBits(lo / 2, hi, k - 1, b - 1);
      }
    }
  }

  lemma JoinedHalf(lo: nat, hi: nat, k: nat)
    requires k > 0 && lo < Pow2(k)
    ensures lo / 2 < Pow2(k - 1)
    ensures (lo + Shl(hi, k)) / 2 == lo / 2 + Shl(hi, k - 1) && (lo + Shl(hi, k)) % 2 == lo % 2
  {
    ShlDouble(hi, k - 1);
    hide Shl;
  }
}
