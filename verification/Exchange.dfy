/** The material-exchange rounds: XOR keystream, then a Fisher-Yates lane permutation. */
module Exchange {
  import opened Bits
  import opened Bytes
  import opened Xof
  import opened Permutation
  import opened Mix
  import opened Arith
  import opened Seeds

  const ROUNDS_TAG := "BTX_RC_COUP_MAT_XCHG_ROUNDS_V3"

  /** XOR of all lanes, as 64-bit words. */
  function Fold(s: seq<i64>): nat {
    if s == [] then 0 else BitXor(Fold(s[..|s| - 1]), ToU64(s[|s| - 1]))
  }

  function RoundSeed(sha: Hash, sigma: Digest, barrier: nat, r: nat, fold: nat): Digest {
    Sha256d(sha, Ascii(ROUNDS_TAG) + sigma + LittleEndian(barrier, 4) + LittleEndian(r, 4) + LittleEndian(fold, 8))
  }

  /** One lane XORed with 64 key bits. */
  function XorLane(v: i64, key: nat): i64 { ToI64(BitXor(ToU64(v), key)) }

  function XorStream(sha: Hash, seed: Digest, s: seq<i64>): (t: seq<i64>)
    ensures |t| == |s|
    ensures forall i :: 0 <= i < |s| ==> t[i] == XorLane(s[i], WidePair(sha, seed, 2 * i))
  {
    seq(|s|, i requires 0 <= i < |s| => XorLane(s[i], WidePair(sha, seed, 2 * i)))
  }

  /** Bit `b` of the key of lane `i`: word `2 * i` of the generator, then word `2 * i + 1`. */
  function KeyBit(sha: Hash, seed: Digest, i: nat, b: nat): nat {
    if b < 32 then BitAt(WordAt(sha, seed, 2 * i), b) else BitAt(WordAt(sha, seed, 2 * i + 1), b - 32)
  }

  /** Bit by bit: every bit of every lane is the old one plus its key bit, modulo two. */
  ghost predicate IsKeyed(sha: Hash, seed: Digest, before: seq<i64>, after: seq<i64>) {
    && |after| == |before|
    && forall i: nat, b: nat :: i < |before| && b < 64 ==>
         BitAt(ToU64(after[i]), b) == (BitAt(ToU64(before[i]), b) + KeyBit(sha, seed, i, b)) % 2
  }

  lemma KeyBits(sha: Hash, seed: Digest, i: nat, b: nat)
    ensures BitAt(WidePair(sha, seed, 2 * i), b) == KeyBit(sha, seed, i, b)
  {
    var lo, hi := WordAt(sha, seed, 2 * i), WordAt(sha, seed, 2 * i + 1);
    WordIsPow2();
    assert lo + Shl(hi, 32) == WidePair(sha, seed, 2 * i);
    hide Shl, WordAt, BitAt, WidePair;
    JoinedBits(lo, hi, 32, b);
  }

  lemma LaneBits(v: i64, key: nat, b: nat)
    requires key < W64
    ensures BitAt(ToU64(XorLane(v, key)), b) == (BitAt(ToU64(v), b) + BitAt(key, b)) % 2
  {
    LaneIsWord(v, key);
    XorBits(ToU64(v), key, b);
    hide BitXor, ToU64, BitAt, XorLane;
  }

  lemma LaneIsWord(v: i64, key: nat)
    requires key < W64
    ensures ToU64(XorLane(v, key)) == BitXor(ToU64(v), key)
  {
    hide BitXor, ToU64, ToI64, Pow2;
    LaneRoundTrip(v);
    LongWord();
    XorBound(ToU64(v), key, 64);
    WordRoundTrip(BitXor(ToU64(v), key));
  }

  lemma StreamKeyed(sha: Hash, seed: Digest, s: seq<i64>)
    ensures IsKeyed(sha, seed, s, XorStream(sha, seed, s))
  {
    hide XorLane, WidePair, BitAt, KeyBit, ToU64;
    forall i: nat, b: nat | i < |s| && b < 64
      ensures BitAt(ToU64(XorStream(sha, seed, s)[i]), b) == (BitAt(ToU64(s[i]), b) + KeyBit(sha, seed, i, b)) % 2
    {
      KeyBits(sha, seed, i, b);
      LaneBits(s[i], WidePair(sha, seed, 2 * i), b);
    }
  }

  /** Lanes of zeros come out as the keystream. */
  lemma ZeroLanesShowTheKey(sha: Hash, seed: Digest, s: seq<i64>, i: nat)
    requires i < |s| && s[i] == 0
    ensures ToU64(XorStream(sha, seed, s)[i]) == WordAt(sha, seed, 2 * i) + W32 * WordAt(sha, seed, 2 * i + 1)
  {
    hide WordAt;
    LaneIsWord(s[i], WidePair(sha, seed, 2 * i));
    ZeroXor(WidePair(sha, seed, 2 * i));
    hide BitXor;
  }

  lemma {:induction false} ZeroXor(u: nat)
    ensures BitXor(0, u) == u
  {
    if u != 0 { ZeroXor(u / 2); }
  }

  /** One lane under two keys shows two values. */
  lemma KeysApart(v: i64, key: nat, other: nat)
    requires key < W64 && other < W64 && XorLane(v, key) == XorLane(v, other)
    ensures key == other
  {
    LongWord();
    hide BitAt, XorLane, ToU64, Pow2;
    forall b: nat | b < 64 ensures BitAt(key, b) == BitAt(other, b) {
      LaneBits(v, key, b);
      LaneBits(v, other, b);
      BitIsBit(key, b);
      BitIsBit(other, b);
    }
    SameBits(key, other, 64);
  }

  lemma BitIsBit(u: nat, b: nat)
    ensures 0 <= BitAt(u, b) <= 1
  {
  }

  /** One exchange round under `seed`. */
  ghost predicate IsRound(sha: Hash, seed: Digest, s: seq<i64>, t: seq<i64>) {
    |s| >= 1 && IsScatter(XorStream(sha, seed, s), Shuffled(sha, seed, |s|), t)
  }

  /** Un-permute, then XOR the keystream off again. */
  function UndoRound(sha: Hash, seed: Digest, t: seq<i64>): seq<i64> {
    if t == [] then [] else
      ShuffledIsPerm(sha, seed, |t|);
      XorStream(sha, seed, Gather(t, Shuffled(sha, seed, |t|)))
  }

  lemma LaneRoundTrip(v: i64)
    ensures ToI64(ToU64(v)) == v && ToU64(v) < W64
  {
    WrapSame(v % W64, v);
    AlreadyI64(v);
  }

  lemma WordRoundTrip(u: nat)
    requires u < W64
    ensures ToU64(ToI64(u)) == u
  {
    WrapResidue(u);
  }

  lemma XorLaneTwice(v: i64, key: nat)
    requires key < W64
    ensures XorLane(XorLane(v, key), key) == v
  {
    hide BitXor, ToU64, ToI64, Pow2;
    LaneRoundTrip(v);
    LaneIsWord(v, key);
    XorInvolutive(ToU64(v), key);
  }

  lemma XorStreamTwice(sha: Hash, seed: Digest, s: seq<i64>)
    ensures XorStream(sha, seed, XorStream(sha, seed, s)) == s
  {
    hide XorLane, WidePair;
    forall i | 0 <= i < |s| ensures XorStream(sha, seed, XorStream(sha, seed, s))[i] == s[i] {
      XorLaneTwice(s[i], WidePair(sha, seed, 2 * i));
    }
  }

  /** A round is undone by the permutation and keystream of its seed, for any number of lanes. */
  lemma RoundInvertible(sha: Hash, seed: Digest, s: seq<i64>, t: seq<i64>)
    requires IsRound(sha, seed, s, t)
    ensures UndoRound(sha, seed, t) == s
    ensures multiset(t) == multiset(XorStream(sha, seed, s))
  {
    hide XorStream;
    var x := XorStream(sha, seed, s);
    assert |x| == |s|;
    ShuffledIsPerm(sha, seed, |s|);
    GatherScatter(x, Shuffled(sha, seed, |s|), t);
    XorStreamTwice(sha, seed, s);
    ScatterMultiset(x, Shuffled(sha, seed, |s|), t);
  }

  /** The seeds rounds `r0, r0 + 1, ...` draw, each from the fold of the lanes it meets. */
  ghost predicate IsRun(sha: Hash, sigma: Digest, barrier: nat, r0: nat, ss: seq<seq<i64>>) {
    && |ss| >= 1
    && forall k :: 0 <= k < |ss| - 1 ==>
         IsRound(sha, RoundSeed(sha, sigma, barrier, r0 + k, Fold(ss[k])), ss[k], ss[k + 1])
  }

  /** Undo the rounds `folds` belonged to, last one first. */
  function UndoRounds(sha: Hash, sigma: Digest, barrier: nat, r0: nat, folds: seq<nat>, t: seq<i64>): seq<i64>
    decreases |folds|
  {
    if folds == [] then t else
      var last := |folds| - 1;
      UndoRounds(sha, sigma, barrier, r0, folds[..last],
                 UndoRound(sha, RoundSeed(sha, sigma, barrier, r0 + last, folds[last]), t))
  }

  function Folds(ss: seq<seq<i64>>): seq<nat> { seq(|ss|, k requires 0 <= k < |ss| => Fold(ss[k])) }

  /** All rounds together: knowing the folds is enough to recover the lanes that went in. */
  lemma {:induction false} RunInvertible(sha: Hash, sigma: Digest, barrier: nat, r0: nat, ss: seq<seq<i64>>)
    requires |ss| >= 1 && IsRun(sha, sigma, barrier, r0, ss)
    ensures UndoRounds(sha, sigma, barrier, r0, Folds(ss[..|ss| - 1]), ss[|ss| - 1]) == ss[0]
    decreases |ss|
  {
    hide *;
    if |ss| == 1 {
      NoRounds(sha, sigma, barrier, r0, ss[0]);
      assert ss[..0] == [];
    } else {
      var pre, t := ss[..|ss| - 1], ss[|ss| - 1];
      LastRound(sha, sigma, barrier, r0, ss);
      var s := ss[|ss| - 2];
      RunInvertible(sha, sigma, barrier, r0, pre);
      RoundInvertible(sha, RoundSeed(sha, sigma, barrier, r0 + (|ss| - 2), Fold(s)), s, t);
      FoldsSnoc(pre[..|pre| - 1], s);
      PrefixSnoc(pre, |pre| - 1);
      WholePrefix(pre);
      UndoStep(sha, sigma, barrier, r0, Folds(pre[..|pre| - 1]), Fold(s), t);
    }
  }

  lemma NoRounds(sha: Hash, sigma: Digest, barrier: nat, r0: nat, t: seq<i64>)
    ensures UndoRounds(sha, sigma, barrier, r0, Folds([]), t) == t
  {
  }

  lemma LastRound(sha: Hash, sigma: Digest, barrier: nat, r0: nat, ss: seq<seq<i64>>)
    requires IsRun(sha, sigma, barrier, r0, ss) && |ss| > 1
    ensures IsRun(sha, sigma, barrier, r0, ss[..|ss| - 1])
    ensures var m := |ss| - 1;
      IsRound(sha, RoundSeed(sha, sigma, barrier, r0 + (m - 1), Fold(ss[m - 1])), ss[m - 1], ss[m])
  {
    hide IsRound, RoundSeed, Fold;
    var pre, k := ss[..|ss| - 1], |ss| - 2;
    assert IsRound(sha, RoundSeed(sha, sigma, barrier, r0 + k, Fold(ss[k])), ss[k], ss[k + 1]);
    forall k | 0 <= k < |pre| - 1
      ensures IsRound(sha, RoundSeed(sha, sigma, barrier, r0 + k, Fold(pre[k])), pre[k], pre[k + 1])
    {
      assert pre[k] == ss[k] && pre[k + 1] == ss[k + 1];
    }
  }

  lemma FoldsSnoc(ss: seq<seq<i64>>, s: seq<i64>)
    ensures Folds(ss + [s]) == Folds(ss) + [Fold(s)] && |Folds(ss)| == |ss|
  {
    hide Fold;
  }

  lemma UndoStep(sha: Hash, sigma: Digest, barrier: nat, r0: nat, folds: seq<nat>, f: nat, t: seq<i64>)
    ensures UndoRounds(sha, sigma, barrier, r0, folds + [f], t)
         == UndoRounds(sha, sigma, barrier, r0, folds,
                       UndoRound(sha, RoundSeed(sha, sigma, barrier, r0 + |folds|, f), t))
  {
    hide UndoRound, RoundSeed;
    assert (folds + [f])[..|folds|] == folds;
  }

  lemma FoldSnoc(s: seq<i64>, k: nat)
    requires k < |s|
    ensures Fold(s[..k + 1]) == BitXor(Fold(s[..k]), ToU64(s[k]))
  {
    assert s[..k + 1][..k] == s[..k];
  }

  lemma FoldBound(s: seq<i64>)
    ensures Fold(s) < W64
  {
    if s != [] {
      FoldBound(s[..|s| - 1]);
      LongWord();
      XorBound(Fold(s[..|s| - 1]), ToU64(s[|s| - 1]), 64);
    }
  }

  /** What the seed of a round is hashed from. */
  function RoundPreimage(sigma: Digest, barrier: nat, r: nat, fold: nat): seq<byte> {
    Ascii(ROUNDS_TAG) + (sigma + (LittleEndian(barrier, 4) + (LittleEndian(r, 4) + LittleEndian(fold, 8))))
  }

  /** Two rounds draw the same seed only for the same header, barrier, round and fold of the lanes. */
  lemma RoundSeedBinds(sha: Hash, sigma: Digest, barrier: nat, r: nat, fold: nat,
                       sigma': Digest, barrier': nat, r': nat, fold': nat)
    requires barrier < W32 && barrier' < W32 && r < W32 && r' < W32 && fold < W64 && fold' < W64
    requires RoundSeed(sha, sigma, barrier, r, fold) == RoundSeed(sha, sigma', barrier', r', fold')
    ensures (sigma == sigma' && barrier == barrier' && r == r' && fold == fold') ||
            IsCollision(sha, RoundPreimage(sigma, barrier, r, fold), RoundPreimage(sigma', barrier', r', fold'))
  {
    var tag, b, b' := Ascii(ROUNDS_TAG), LittleEndian(barrier, 4), LittleEndian(barrier', 4);
    var c, c', f, f' := LittleEndian(r, 4), LittleEndian(r', 4), LittleEndian(fold, 8), LittleEndian(fold', 8);
    hide LittleEndian, Ascii;
    Bracketed(tag, sigma, b, c, f);
    Bracketed(tag, sigma', b', c', f');
    if RoundPreimage(sigma, barrier, r, fold) == RoundPreimage(sigma', barrier', r', fold') {
      SplitEqual(tag, sigma + (b + (c + f)), tag, sigma' + (b' + (c' + f')));
      SplitEqual(sigma, b + (c + f), sigma', b' + (c' + f'));
      SplitEqual(b, c + f, b', c' + f');
      SplitEqual(c, f, c', f');
      Words32And64();
      LittleEndianInjective(barrier, barrier', 4);
      LittleEndianInjective(r, r', 4);
      LittleEndianInjective(fold, fold', 8);
    }
  }

  lemma Bracketed<T>(a: seq<T>, b: seq<T>, c: seq<T>, d: seq<T>, e: seq<T>)
    ensures a + b + c + d + e == a + (b + (c + (d + e)))
  {
  }

  // ---------------------------------------------------------------- the loop

  /** Every lane is XORed with its two words of the generator. */
  method XorLanes(s: array<i64>, sha: Hash, seed: Digest)
    modifies s
    ensures s[..] == XorStream(sha, seed, old(s[..]))
    ensures IsKeyed(sha, seed, old(s[..]), s[..])
  {
    hide XorLane, WidePair, IsKeyed;
    ghost var before := s[..];
    var xof := new ShaXof(sha, seed);
    for i := 0 to s.Length
      invariant xof.Valid() && xof.taken == 2 * i && xof.sha == sha && xof.seed == seed && fresh(xof)
      invariant forall k :: 0 <= k < i ==> s[k] == XorLane(before[k], WidePair(sha, seed, 2 * k))
      invariant forall k :: i <= k < s.Length ==> s[k] == before[k]
    {
      var key := xof.NextWide();
      s[i] := XorLane(s[i], key);
    }
    StreamKeyed(sha, seed, before);
    assert s[..] == XorStream(sha, seed, before);
  }

  /** How many lanes have bit `b` set. */
  function LanesWith(s: seq<i64>, b: nat): nat {
    if s == [] then 0 else LanesWith(s[..|s| - 1], b) + BitAt(ToU64(s[|s| - 1]), b)
  }

  /** Each bit of the fold is the parity of that bit over the lanes. */
  lemma {:induction false} FoldParity(s: seq<i64>, b: nat)
    ensures BitAt(Fold(s), b) == LanesWith(s, b) % 2
  {
    if s == [] {
      ZeroBits(b);
    } else {
      var front, u := s[..|s| - 1], ToU64(s[|s| - 1]);
      LastLane(s, b);
      hide *;
      FoldParity(front, b);
      XorBits(Fold(front), u, b);
      ParityAdd(LanesWith(front, b), BitAt(u, b));
    }
  }

  lemma LastLane(s: seq<i64>, b: nat)
    requires s != []
    ensures var front, u := s[..|s| - 1], ToU64(s[|s| - 1]);
      && Fold(s) == BitXor(Fold(front), u)
      && LanesWith(s, b) == LanesWith(front, b) + BitAt(u, b)
  {
    hide BitAt, ToU64, BitXor;
  }

  lemma ParityAdd(a: nat, c: nat)
    ensures (a % 2 + c) % 2 == (a + c) % 2
  {
  }

  lemma {:induction false} ZeroBits(b: nat)
    ensures BitAt(0, b) == 0
  {
    DivModUnique(0, 0, 0, Pow2(b));
  }

  method FoldLanes(s: array<i64>) returns (fold: nat)
    ensures fold == Fold(s[..]) && forall b: nat :: BitAt(fold, b) == LanesWith(s[..], b) % 2
  {
    hide BitXor, ToU64;
    fold := 0;
    for i := 0 to s.Length
      invariant fold == Fold(s[..i])
    {
      FoldSnoc(s[..], i);
      assert s[..][..i] == s[..i] && s[..][..i + 1] == s[..i + 1];
      fold := BitXor(fold, ToU64(s[i]));
    }
    assert s[..s.Length] == s[..];
    hide BitAt, Fold, LanesWith;
    forall b: nat ensures BitAt(fold, b) == LanesWith(s[..], b) % 2 { FoldParity(s[..], b); }
  }

  /** `rounds` exchange rounds in place; `run` lists the lanes before each round and at the end. */
  method MaterialExchangeRounds(s: array<i64>, sha: Hash, sigma: Digest, barrier: nat, rounds: nat)
    returns (ghost run: seq<seq<i64>>)
    requires s.Length >= 1
    modifies s
    ensures |run| == rounds + 1 && run[0] == old(s[..]) && run[rounds] == s[..]
    ensures IsRun(sha, sigma, barrier, 0, run)
  {
    hide XorStream, Fold, RoundSeed, Shuffled, IsScatter;
    run := [s[..]];
    for r := 0 to rounds
      invariant |run| == r + 1 && run[0] == old(s[..]) && run[r] == s[..]
      invariant IsRun(sha, sigma, barrier, 0, run)
    {
      var fold := FoldLanes(s);
      var seed := RoundSeed(sha, sigma, barrier, r, fold);
      ghost var before := s[..];
      XorLanes(s, sha, seed);
      var pi := Shuffle(sha, seed, s.Length);
      ApplyPerm(s, pi[..]);
      assert IsRound(sha, seed, before, s[..]);
      RunSnoc(sha, sigma, barrier, run, s[..]);
      run := run + [s[..]];
    }
  }

  lemma RunSnoc(sha: Hash, sigma: Digest, barrier: nat, run: seq<seq<i64>>, t: seq<i64>)
    requires IsRun(sha, sigma, barrier, 0, run)
    requires var r := |run| - 1; IsRound(sha, RoundSeed(sha, sigma, barrier, r, Fold(run[r])), run[r], t)
    ensures IsRun(sha, sigma, barrier, 0, run + [t])
  {
  }
}
