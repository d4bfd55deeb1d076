/** Operand expansion: mantissas and scales drawn from two counter-mode SHA-256 streams. */
module Expand {
  import opened Arith
  import opened Bits
  import opened Bytes
  import opened Nibbles
  import opened Extract
  import opened Seeds

  const MANTISSA_DOMAIN: byte := 0x6D
  const SCALE_DOMAIN: byte := 0x65

  /** The seed, bytes reversed. */
  function SeedLE(seed: Digest): Digest { seq<byte>(32, i requires 0 <= i < 32 => seed[31 - i]) }

  function StreamBlock(sha: Hash, seed: Digest, domain: byte, block: nat): Digest {
    sha(SeedLE(seed) + [domain] + LittleEndian(block, 8))
  }

  function StreamPreimage(seed: Digest, domain: byte, block: nat): seq<byte> {
    SeedLE(seed) + ([domain] + LittleEndian(block, 8))
  }

  /** Mantissas and scales, seeds and blocks never share a hash block, short of a collision. */
  lemma StreamBlockBinds(sha: Hash, seed: Digest, domain: byte, block: nat, seed': Digest, domain': byte, block': nat)
    requires block < W64 && block' < W64 && StreamBlock(sha, seed, domain, block) == StreamBlock(sha, seed', domain', block')
    ensures (seed == seed' && domain == domain' && block == block') ||
            IsShaCollision(sha, StreamPreimage(seed, domain, block), StreamPreimage(seed', domain', block'))
  {
    var u, v := LittleEndian(block, 8), LittleEndian(block', 8);
    ConcatAssoc(SeedLE(seed), [domain], u);
    ConcatAssoc(SeedLE(seed'), [domain'], v);
    hide LittleEndian;
    if SeedLE(seed) + ([domain] + u) == SeedLE(seed') + ([domain'] + v) {
      SplitEqual(SeedLE(seed), [domain] + u, SeedLE(seed'), [domain'] + v);
      SplitEqual([domain], u, [domain'], v);
      Words32And64();
      LittleEndianInjective(block, block', 8);
      forall k | 0 <= k < 32 ensures seed[k] == seed'[k] { assert SeedLE(seed)[31 - k] == SeedLE(seed')[31 - k]; }
      assert seed == seed';
    }
  }

  /** Nibble `p` of a seed's mantissa stream, low nibble of each byte first. */
  function MantissaNibble(sha: Hash, seed: Digest, p: nat): Nibble {
    HalfByte(StreamBlock(sha, seed, MANTISSA_DOMAIN, p / 64 % W64)[p % 64 / 2], p % 2)
  }

  function MantissaStream(sha: Hash, seed: Digest): NibbleStream { p => MantissaNibble(sha, seed, p) }

  ghost predicate SeedsProductive(sha: Hash) {
    forall seed :: KeepsAccepting(MantissaStream(sha, seed))
  }

  /** No cell of an operand applies a mask. */
  function NoMasks(n: nat): (m: seq<Nibble>)
    ensures |m| == n
  {
    seq<Nibble>(n, _ => 0)
  }

  ghost function Mantissas(sha: Hash, seed: Digest, count: nat): (mu: seq<i8>)
    requires SeedsProductive(sha)
    ensures |mu| == count
    ensures forall k :: 0 <= k < count ==> IsMantissa(mu[k])
  {
    Fill(MantissaStream(sha, seed), NoMasks(count), 0)
  }

  lemma MantissasPrefix(sha: Hash, seed: Digest, a: nat, b: nat)
    requires SeedsProductive(sha) && a <= b
    ensures Mantissas(sha, seed, b)[..a] == Mantissas(sha, seed, a)
  {
    assert NoMasks(b) == NoMasks(a) + NoMasks(b - a);
    FillPrefix(MantissaStream(sha, seed), NoMasks(a), NoMasks(b - a), 0);
  }

  /** Two bits of a byte, counted from the low end. */
  function Crumb(b: byte, k: nat): (e: nat)
    requires k < 4
    ensures e <= 3
  {
    if k == 0 then b % 4 else if k == 1 then b / 4 % 4 else if k == 2 then b / 16 % 4 else b / 64
  }

  /** Four scales rebuild a byte, lowest first. */
  lemma CrumbsRebuildByte(b: byte)
    ensures b == Crumb(b, 0) + 4 * Crumb(b, 1) + 16 * Crumb(b, 2) + 64 * Crumb(b, 3)
  {
    var q: int := b / 4;
    assert b == b % 4 + 4 * q && q == q % 4 + 4 * (q / 4);
    assert b / 16 == q / 4 && b / 64 == q / 4 / 4;
  }

  /** Scale `k` of a seed: two bits, from the low end of each byte, nothing rejected. */
  function ScaleAt(sha: Hash, seed: Digest, k: nat): (e: nat)
    ensures e <= 3
  {
    Crumb(StreamBlock(sha, seed, SCALE_DOMAIN, k / 128 % W64)[k % 128 / 4], k % 4)
  }

  function Scales(sha: Hash, seed: Digest, count: nat): (es: seq<nat>)
    ensures |es| == count
    ensures forall k :: 0 <= k < count ==> es[k] == ScaleAt(sha, seed, k)
  {
    seq<nat>(count, k requires 0 <= k < count => ScaleAt(sha, seed, k))
  }

  /** The cell of an operand with `cols` columns at row-major index `idx`. */
  function Dequantised(sha: Hash, seed: Digest, cols: nat, idx: nat, m: i8): (v: i8)
    requires cols >= 1 && IsMantissa(m)
    ensures IsMxValue(v)
  {
    ScaleOne(m, ScaleAt(sha, seed, ScaleIndex(idx, cols)))
  }

  /** One scale per row and 32 columns. */
  function ScaleIndex(idx: nat, cols: nat): nat
    requires cols >= 1
  {
    DivNonNeg(idx, cols);
    RowStart(idx / cols, cols / BLOCK) + idx % cols / BLOCK
  }

  /** The whole operand, row-major. */
  ghost function Operand(sha: Hash, seed: Digest, rows: nat, cols: nat): (out: seq<i8>)
    requires SeedsProductive(sha)
    ensures |out| == RowStart(rows, cols)
    ensures forall k :: 0 <= k < |out| ==> IsMxValue(out[k])
  {
    var n := RowStart(rows, cols);
    if cols == 0 then [] else
      var mu := Mantissas(sha, seed, n);
      seq<i8>(n, k requires 0 <= k < n => Dequantised(sha, seed, cols, k, mu[k]))
  }

  /** Expansion is prefix-stable: an operand with fewer rows is the start of one with more. */
  lemma OperandPrefix(sha: Hash, seed: Digest, r1: nat, r2: nat, cols: nat)
    requires SeedsProductive(sha) && r1 <= r2
    ensures RowStart(r1, cols) <= RowStart(r2, cols)
    ensures Operand(sha, seed, r2, cols)[..RowStart(r1, cols)] == Operand(sha, seed, r1, cols)
  {
    if r1 < r2 { RowFits(r1, r2, cols); }
    var a, b := RowStart(r1, cols), RowStart(r2, cols);
    hide RowStart;
    MantissasPrefix(sha, seed, a, b);
    hide Mantissas, Dequantised, SeedsProductive;
    var x, y := Operand(sha, seed, r1, cols), Operand(sha, seed, r2, cols);
    forall k | 0 <= k < a ensures y[k] == x[k] {
      assert Mantissas(sha, seed, b)[..a][k] == Mantissas(sha, seed, b)[k];
    }
  }

  // ---------------------------------------------------------------- the loops

  lemma ByteIndex(block: nat, i: nat, half: nat)
    requires i < 32 && half <= 1
    ensures var p := 64 * block + 2 * i + half; p / 64 == block && p % 64 / 2 == i && p % 2 == half
  {
    var p := 64 * block + 2 * i + half;
    DivModUnique(p, block, 2 * i + half, 64);
    DivModUnique(2 * i + half, i, half, 2);
    DivModUnique(p, 32 * block + i, half, 2);
  }

  method ExpandMantissaStream(sha: Hash, seed: Digest, count: nat) returns (mu: seq<i8>)
    requires SeedsProductive(sha)
    ensures mu == Mantissas(sha, seed, count)
  {
    hide MantissaStream, Filling, Wait, Fill, KeepsAccepting;
    var s, masks := MantissaStream(sha, seed), NoMasks(count);
    assert KeepsAccepting(s);
    mu := [];
    ghost var blocks: nat := 0;
    var block := 0;
    FillingStart(s, masks);
    if count == 0 { FillingDone(s, masks, mu, 0); }
    while |mu| < count
      invariant |mu| <= count && block == blocks % W64
      invariant |mu| < count ==> Filling(s, masks, mu, 64 * blocks)
      invariant |mu| == count ==> mu == Fill(s, masks, 0)
      decreases count - |mu|, Wait(s, masks, |mu|, 64 * blocks)
    {
      mu := OfferHash(sha, seed, masks, mu, block, blocks);
      block := (block + 1) % W64;
      blocks := blocks + 1;
    }
  }

  method OfferHash(sha: Hash, seed: Digest, masks: seq<Nibble>, start: seq<i8>, block: nat, ghost blocks: nat)
    returns (mu: seq<i8>)
    requires SeedsProductive(sha) && |start| < |masks| && block == blocks % W64
    requires masks == NoMasks(|masks|)
    requires Filling(MantissaStream(sha, seed), masks, start, 64 * blocks)
    ensures var s := MantissaStream(sha, seed);
      && |start| <= |mu| <= |masks|
      && (|mu| < |masks| ==> Filling(s, masks, mu, 64 * (blocks + 1)))
      && (|mu| == |masks| ==> mu == Fill(s, masks, 0))
      && (|mu| == |start| ==> Wait(s, masks, |mu|, 64 * (blocks + 1)) < Wait(s, masks, |mu|, 64 * blocks))
  {
    hide KeepsAccepting, Filling, Wait, Fill, BitXor;
    var s := MantissaStream(sha, seed);
    assert KeepsAccepting(s);
    var hash := StreamBlock(sha, seed, MANTISSA_DOMAIN, block);
    mu := start;
    ghost var p := 64 * blocks;
    for i := 0 to 32
      invariant |start| <= |mu| <= |masks|
      invariant |mu| < |masks| ==> Filling(s, masks, mu, 64 * blocks + 2 * i)
      invariant |mu| == |masks| ==> mu == Fill(s, masks, 0)
      invariant |mu| == |start| ==> Wait(s, masks, |mu|, 64 * blocks + 2 * i) + 2 * i <= Wait(s, masks, |mu|, p)
    {
      if |mu| == |masks| { break; }
      for half := 0 to 2
        invariant |start| <= |mu| <= |masks|
        invariant |mu| < |masks| ==> Filling(s, masks, mu, 64 * blocks + 2 * i + half)
        invariant |mu| == |masks| ==> mu == Fill(s, masks, 0)
        invariant |mu| == |start| ==> Wait(s, masks, |mu|, 64 * blocks + 2 * i + half) + 2 * i + half <= Wait(s, masks, |mu|, p)
      {
        if |mu| == |masks| { break; }
        ghost var at := 64 * blocks + 2 * i + half;
        ByteIndex(blocks, i, half);
        mu := Offer(s, masks, mu, HalfByte(hash[i], half), at);
        if |mu| == |masks| { FillingDone(s, masks, mu, at + 1); }
      }
    }
  }

  lemma CrumbIndex(block: nat, i: nat, c: nat)
    requires i < 32 && c < 4
    ensures var k := 128 * block + 4 * i + c; k / 128 == block && k % 128 / 4 == i && k % 4 == c
  {
    var k := 128 * block + 4 * i + c;
    DivModUnique(k, block, 4 * i + c, 128);
    DivModUnique(4 * i + c, i, c, 4);
    DivModUnique(k, 32 * block + i, c, 4);
  }

  method ExpandScaleStream(sha: Hash, seed: Digest, count: nat) returns (es: seq<nat>)
    ensures es == Scales(sha, seed, count)
  {
    hide Crumb, StreamBlock;
    es := [];
    ghost var all := Scales(sha, seed, count);
    ghost var blocks: nat := 0;
    var block := 0;
    while |es| < count
      invariant |es| <= count && es == all[..|es|] && block == blocks % W64
      invariant |es| < count ==> |es| == 128 * blocks
      decreases count - |es|
    {
      var hash := StreamBlock(sha, seed, SCALE_DOMAIN, block);
      for i := 0 to 32
        invariant |es| <= count && es == all[..|es|]
        invariant |es| < count ==> |es| == 128 * blocks + 4 * i
        invariant |es| >= 128 * blocks && (i > 0 ==> |es| > 128 * blocks)
      {
        if |es| == count { break; }
        for c := 0 to 4
          invariant |es| <= count && es == all[..|es|]
          invariant |es| < count ==> |es| == 128 * blocks + 4 * i + c
          invariant |es| >= 128 * blocks && (i > 0 || c > 0 ==> |es| > 128 * blocks)
        {
          if |es| == count { break; }
          CrumbIndex(blocks, i, c);
          PrefixSnoc(all, |es|);
          es := es + [Crumb(hash[i], c)];
        }
      }
      block := (block + 1) % W64;
      blocks := blocks + 1;
    }
    WholePrefix(all);
  }

  /** Every scale the expansion of a shape reads is one it has expanded. */
  predicate ScalesInBounds(rows: nat, cols: nat) {
    forall i: nat, j: nat :: i < rows && j < cols ==> ScaleOf(i, j, cols) < RowStart(rows, cols / BLOCK)
  }

  /** The scale that cell (i, j) reads. */
  function ScaleOf(i: nat, j: nat, cols: nat): nat { RowStart(i, cols / BLOCK) + j / BLOCK }

  /** Exactly the shapes of whole scale blocks, or without rows, stay inside the scale array. */
  lemma InBoundsIff(rows: nat, cols: nat)
    ensures ScalesInBounds(rows, cols) <==> rows == 0 || cols % BLOCK == 0
  {
    if rows > 0 && cols % BLOCK != 0 {
      RowStep(rows - 1, cols / BLOCK);
      assert ScaleOf(rows - 1, cols - 1, cols) >= RowStart(rows, cols / BLOCK);
    }
    if cols % BLOCK == 0 {
      forall i: nat, j: nat | i < rows && j < cols ensures ScaleOf(i, j, cols) < RowStart(rows, cols / BLOCK) {
        ScaleCell(i, j, rows, cols);
      }
    }
  }

  /** RowBlock expansion: mantissa times its row-block scale, cell by cell. */
  method ExpandMxDequant(sha: Hash, seed: Digest, rows: nat, cols: nat) returns (out: seq<i8>)
    requires SeedsProductive(sha) && (rows == 0 || cols % BLOCK == 0)
    ensures out == Operand(sha, seed, rows, cols)
  {
    assert BLOCK == 32 && RowStart(0, cols) == 0;
    hide *;
    var n, ns := RowStart(rows, cols), RowStart(rows, cols / BLOCK);
    var mu := ExpandMantissaStream(sha, seed, n);
    var scales := ExpandScaleStream(sha, seed, ns);
    out := [];
    ghost var all := Operand(sha, seed, rows, cols);
    for i := 0 to rows
      invariant RowStart(i, cols) <= n && out == all[..RowStart(i, cols)]
    {
      RowFits(i, rows, cols);
      out := DequantRow(sha, seed, rows, cols, mu, scales, i, out);
      RowStep(i, cols);
    }
    WholePrefix(all);
  }

  method DequantRow(sha: Hash, seed: Digest, rows: nat, cols: nat, mu: seq<i8>, scales: seq<nat>,
                    i: nat, above: seq<i8>)
    returns (out: seq<i8>)
    requires SeedsProductive(sha) && cols % BLOCK == 0 && i < rows
    requires RowStart(i, cols) + cols <= RowStart(rows, cols)
    requires mu == Mantissas(sha, seed, RowStart(rows, cols))
    requires scales == Scales(sha, seed, RowStart(rows, cols / BLOCK))
    requires above == Operand(sha, seed, rows, cols)[..RowStart(i, cols)]
    ensures out == Operand(sha, seed, rows, cols)[..RowStart(i, cols) + cols]
  {
    assert BLOCK == 32;
    hide *;
    out := above;
    ghost var all := Operand(sha, seed, rows, cols);
    for j := 0 to cols
      invariant |out| == RowStart(i, cols) + j && out == all[..RowStart(i, cols) + j]
    {
      CellValue(sha, seed, rows, cols, i, j);
      PrefixSnoc(all, RowStart(i, cols) + j);
      out := out + [ScaleOne(mu[RowStart(i, cols) + j], scales[RowStart(i, cols / BLOCK) + j / BLOCK])];
    }
  }

  lemma CellValue(sha: Hash, seed: Digest, rows: nat, cols: nat, i: nat, j: nat)
    requires SeedsProductive(sha) && cols % BLOCK == 0 && i < rows && j < cols
    ensures RowStart(i, cols) + j < RowStart(rows, cols)
    ensures RowStart(i, cols / BLOCK) + j / BLOCK < RowStart(rows, cols / BLOCK)
    ensures var idx, k := RowStart(i, cols) + j, RowStart(i, cols / BLOCK) + j / BLOCK;
      var m, e := Mantissas(sha, seed, RowStart(rows, cols))[idx], Scales(sha, seed, RowStart(rows, cols / BLOCK))[k];
      e <= 3 && Operand(sha, seed, rows, cols)[idx] == ScaleOne(m, e)
  {
    hide Mantissas, SeedsProductive, ScaleAt, IsMxValue, IsMantissa, ScaleOne, ScaleIndex;
    CellIndex(i, j, rows, cols);
    ScaleCell(i, j, rows, cols);
  }

  lemma ScaleCell(i: nat, j: nat, rows: nat, cols: nat)
    requires i < rows && j < cols && cols % BLOCK == 0
    ensures RowStart(i, cols / BLOCK) + j / BLOCK < RowStart(rows, cols / BLOCK)
    ensures ScaleIndex(RowStart(i, cols) + j, cols) == RowStart(i, cols / BLOCK) + j / BLOCK
  {
    CellIndex(i, j, rows, cols);
    assert j / BLOCK < cols / BLOCK;
    CellIndex(i, j / BLOCK, rows, cols / BLOCK);
  }
}
