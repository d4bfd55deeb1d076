/** The counter-mode SHA-256 generator: 32-bit words of SHA256(seed || LE32(counter)). */
module Xof {
  import opened Arith
  import opened Bytes

  const WORDS: nat := 8   // words per hash block

  function Block(sha: Hash, seed: Digest, ctr: nat): Digest { sha(seed + LittleEndian(ctr, 4)) }

  /** Word `i` of block `b`; the 32-bit block counter wraps. */
  function WordOf(sha: Hash, seed: Digest, b: nat, i: nat): (w: nat)
    requires i < WORDS
    ensures w < W32
  {
    Word32(Block(sha, seed, b % W32), 4 * i)
  }

  /** Word `k` of the stream. */
  function WordAt(sha: Hash, seed: Digest, k: nat): (w: nat)
    ensures w < W32
  {
    WordOf(sha, seed, k / WORDS, k % WORDS)
  }

  /** 64 bits from two words, low word first. */
  function WidePair(sha: Hash, seed: Digest, k: nat): (w: nat)
    ensures w < W64
  {
    WordAt(sha, seed, k) + W32 * WordAt(sha, seed, k + 1)
  }

  class ShaXof {
    const sha: Hash
    const seed: Digest
    var ctr: nat
    var pos: nat
    var blk: Digest
    ghost var taken: nat     // words handed out so far
    ghost var refills: nat   // blocks hashed so far

    ghost predicate Valid()
      reads this
    {
      && ctr == refills % W32 && taken + WORDS == WORDS * refills + pos / 4
      && pos % 4 == 0 && pos <= 32
      && (refills == 0 ==> pos == 32)
      && (refills > 0 ==> blk == Block(sha, seed, (refills - 1) % W32))
    }

    constructor (sha: Hash, seed: Digest)
      ensures Valid() && taken == 0 && this.sha == sha && this.seed == seed
    {
      this.sha, this.seed := sha, seed;
      ctr, pos, blk := 0, 32, seed;
      taken, refills := 0, 0;
    }

    method Next() returns (w: nat)
      requires Valid()
      modifies this
      ensures Valid() && taken == old(taken) + 1
      ensures w == WordAt(sha, seed, old(taken)) && w < W32
    {
      hide Word32, Block;
      CounterStep(refills);
      if pos + 4 > 32 {
        blk := Block(sha, seed, ctr);
        ctr := (ctr + 1) % W32;
        pos := 0;
        refills := refills + 1;
      }
      Position(taken, refills - 1, pos / 4);
      w := Word32(blk, pos);
      pos := pos + 4;
      taken := taken + 1;
    }

    method NextWide() returns (w: nat)
      requires Valid()
      modifies this
      ensures Valid() && taken == old(taken) + 2
      ensures w == WidePair(sha, seed, old(taken)) && w < W64
    {
      var lo := Next();
      var hi := Next();
      w := lo + W32 * hi;
    }
  }

  lemma CounterStep(b: nat)
    ensures (b % W32 + 1) % W32 == (b + 1) % W32
  {
  }

  lemma Position(k: nat, b: nat, i: nat)
    requires k == WORDS * b + i && i < WORDS
    ensures k / WORDS == b && k % WORDS == i
  {
  }

  /** The generator hands out every byte of a block once, in order: the little-endian bytes of word `i` of
      block `b` are bytes `4 * i` to `4 * i + 3`. */
  lemma WordsAreTheBlock(sha: Hash, seed: Digest, b: nat, i: nat)
    requires i < WORDS
    ensures LittleEndian(WordAt(sha, seed, WORDS * b + i), 4) == sha(seed + LittleEndian(b % W32, 4))[4 * i..4 * i + 4]
  {
    DivModUnique(WORDS * b + i, b, i, WORDS);
    BytesOfWord(sha(seed + LittleEndian(b % W32, 4)), 4 * i);
    hide LittleEndian, Word32;
  }

  lemma BytesOfWord(b: seq<byte>, pos: nat)
    requires pos + 4 <= |b|
    ensures LittleEndian(Word32(b, pos), 4) == b[pos..pos + 4]
  {
    var w := Word32(b, pos);
    var b0: int, b1: int, b2: int, b3: int := b[pos], b[pos + 1], b[pos + 2], b[pos + 3];
    assert w == b0 + 0x100 * (b1 + 0x100 * (b2 + 0x100 * b3));
    assert w % 256 == b0 && w / 256 == b1 + 0x100 * (b2 + 0x100 * b3);
    assert w / 256 % 256 == b1 && w / 256 / 256 == b2 + 0x100 * b3;
    assert w / 256 / 256 % 256 == b2 && w / 256 / 256 / 256 == b3;
    hide Word32;
    var r := LittleEndian(w, 4);
    assert r == [w % 256] + LittleEndian(w / 256, 3);
    assert LittleEndian(w / 256, 3) == [w / 256 % 256] + LittleEndian(w / 256 / 256, 2);
    assert LittleEndian(w / 256 / 256, 2) == [w / 256 / 256 % 256] + LittleEndian(w / 256 / 256 / 256, 1);
    assert LittleEndian(b3, 1) == [b3];
  }
}
