/** Extract: 32 raw sums become 32 scaled mantissas, the nibble stream mixed with the data. */
module Extract {
  import opened Arith
  import opened Bits
  import opened Bytes
  import opened Nibbles

  const BLOCK: nat := 32
  const LANE_MX_BLOCK: nat := 0x4D58424C
  const GOLDEN: nat := 0x9E3779B9

  /** Key, 32-bit nonce word, 64-bit nonce word, block counter. */
  type ChaCha = (Digest, nat, nat, nat) -> Block64

  /** The two primitives an episode is computed from. */
  datatype Primitives = Primitives(sha: Hash, chacha: ChaCha)

  /** Operand and state values: a mantissa times 1, 2, 4 or 8. */
  predicate IsMxValue(v: int) {
    v in {0, 1, 2, 3, 4, 6, 8, 12, 16, 24, 32, 48} || -v in {1, 2, 3, 4, 6, 8, 12, 16, 24, 32, 48}
  }

  predicate AllMx(m: seq<int>) { forall k :: 0 <= k < |m| ==> IsMxValue(m[k]) }

  lemma AppendMx(a: seq<int>, b: seq<int>)
    requires AllMx(a) && AllMx(b)
    ensures AllMx(a + b)
  {
    hide IsMxValue;
  }

  lemma MxProduct(m: int, e: nat)
    requires IsMantissa(m) && e <= 3
    ensures IsMxValue(m * Pow2(e)) && -48 <= m * Pow2(e) <= 48
  {
    assert Pow2(1) == 2 && Pow2(2) == 4 && Pow2(3) == 8;
    assert e == 0 || e == 1 || e == 2 || e == 3;
  }

  /** Every operand value is a mantissa times one of the four scales. */
  lemma MxIsProduct(v: int)
    requires IsMxValue(v)
    ensures exists m, e :: IsMantissa(m) && 0 <= e <= 3 && v == m * Pow2(e)
  {
    assert Pow2(1) == 2 && Pow2(2) == 4 && Pow2(3) == 8;
    var e := if v % 8 == 0 && IsMantissa(v / 8) then 3
             else if v % 4 == 0 && IsMantissa(v / 4) then 2
             else if v % 2 == 0 && IsMantissa(v / 2) then 1 else 0;
    assert IsMantissa(v / Pow2(e)) && v == v / Pow2(e) * Pow2(e);
  }

  /** 32 bits of a raw sum: the value itself, or both halves folded when it does not fit. */
  function MixBits(y: int): (u: nat) {
    if FitsI32(y) then y % W32 else BitXor(y % W64 % W32, y % W64 / W32)
  }

  /** The top nibble of the mixed raw: the mask its cell applies. */
  function Mask(y: int): Nibble { MixBits(y) * GOLDEN % W32 / 0x1000_0000 }

  function Masks(raw: seq<int>): (m: seq<Nibble>)
    ensures |m| == |raw|
  {
    seq<Nibble>(|raw|, t requires 0 <= t < |raw| => Mask(raw[t]))
  }

  /** ChaCha20 block `remix` of tile (i, bj). */
  function TileBlock(chacha: ChaCha, prf: Digest, i: nat, bj: nat, remix: nat): Block64 {
    chacha(prf, BitXor(bj, LANE_MX_BLOCK), i * W32 + bj, remix)
  }

  /** The `half`-th nibble of a byte, low nibble first. */
  function HalfByte(b: byte, half: nat): Nibble {
    if half == 0 then b % 16 else b / 16
  }

  /** Nibble `p` of a tile's stream; the 32-bit block counter wraps. */
  function TileNibble(chacha: ChaCha, prf: Digest, i: nat, bj: nat, p: nat): Nibble {
    HalfByte(TileBlock(chacha, prf, i, bj, p / 128 % W32)[p % 128 / 2], p % 2)
  }

  function TileStream(chacha: ChaCha, prf: Digest, i: nat, bj: nat): NibbleStream {
    p => TileNibble(chacha, prf, i, bj, p)
  }

  /** No tile ever runs out of acceptable nibbles. */
  ghost predicate TilesProductive(chacha: ChaCha) {
    forall prf, i, bj :: KeepsAccepting(TileStream(chacha, prf, i, bj))
  }

  const SCALE_TAG := "BTX_MATEXPAND_MXSCALE_V44LT"
  const PRF_TAG := "BTX_MATEXPAND_MXPRF_V44LT"

  function MxScale(sha: Hash, prf: Digest, i: nat, bj: nat): (e: nat)
    ensures e <= 3
  {
    Tagged(sha, SCALE_TAG, prf + LittleEndian(i, 4) + LittleEndian(bj, 4))[0] % 4
  }

  function PrfKey(sha: Hash, seed: Digest): Digest { Tagged(sha, PRF_TAG, seed) }

  /** Mantissas times a common power of two. */
  function Scaled(mu: seq<i8>, e: nat): (out: seq<i8>)
    requires e <= 3 && forall k :: 0 <= k < |mu| ==> IsMantissa(mu[k])
    ensures |out| == |mu|
    ensures forall k :: 0 <= k < |out| ==> IsMxValue(out[k]) && out[k] == mu[k] * Pow2(e)
  {
    seq<i8>(|mu|, k requires 0 <= k < |mu| => ScaleOne(mu[k], e))
  }

  function ScaleOne(m: i8, e: nat): (v: i8)
    requires e <= 3 && IsMantissa(m)
    ensures IsMxValue(v) && v == m * Pow2(e)
  {
    MxProduct(m, e);
    m * Pow2(e)
  }

  /** One tile: what the loop of `ExtractTile` computes. */
  ghost function Tile(pr: Primitives, prf: Digest, i: nat, bj: nat, raw: seq<int>): (out: seq<i8>)
    requires TilesProductive(pr.chacha)
    ensures |out| == |raw|
    ensures forall k :: 0 <= k < |out| ==> IsMxValue(out[k])
  {
    Scaled(Fill(TileStream(pr.chacha, prf, i, bj), Masks(raw), 0), MxScale(pr.sha, prf, i, bj))
  }

  lemma NibbleIndex(remix: nat, b: nat, half: nat)
    requires b < 64 && half <= 1
    ensures var p := 128 * remix + 2 * b + half; p / 128 == remix && p % 128 / 2 == b && p % 2 == half
  {
    var p := 128 * remix + 2 * b + half;
    DivModUnique(p, remix, 2 * b + half, 128);
    DivModUnique(2 * b + half, b, half, 2);
    DivModUnique(p, 64 * remix + b, half, 2);
  }

  /** No two tiles, and no two blocks of one tile, are keyed alike: what the cipher is called with tells
      row, tile and block apart. */
  lemma TilesApart(chacha: ChaCha, prf: Digest, i: nat, bj: nat, remix: nat, i': nat, bj': nat, remix': nat)
    returns (a: nat, n: nat, c: nat, a': nat, n': nat, c': nat)
    requires bj < W32 && bj' < W32 && (i != i' || bj != bj' || remix != remix')
    ensures TileBlock(chacha, prf, i, bj, remix) == chacha(prf, a, n, c)
    ensures TileBlock(chacha, prf, i', bj', remix') == chacha(prf, a', n', c')
    ensures n != n' || c != c'
  {
    a, n, c := BitXor(bj, LANE_MX_BLOCK), i * W32 + bj, remix;
    a', n', c' := BitXor(bj', LANE_MX_BLOCK), i' * W32 + bj', remix';
  }

  /** The keystream is used up byte by byte: the two nibbles at places `128 * r + 2 * q` and one after it
      rebuild byte `q` of block `r`, low nibble first. */
  lemma NibblesRebuildByte(chacha: ChaCha, prf: Digest, i: nat, bj: nat, r: nat, q: nat)
    requires q < 64
    ensures TileBlock(chacha, prf, i, bj, r % W32)[q]
         == TileNibble(chacha, prf, i, bj, 128 * r + 2 * q) + 16 * TileNibble(chacha, prf, i, bj, 128 * r + 2 * q + 1)
  {
    NibbleIndex(r, q, 0);
    NibbleIndex(r, q, 1);
    hide TileBlock;
  }

  /** The rejection loop: both nibbles of each keystream byte, low first, until 32 cells are full. */
  method ExtractTileMantissas(pr: Primitives, prf: Digest, i: nat, bj: nat, raw: seq<int>) returns (mu: seq<i8>)
    requires TilesProductive(pr.chacha) && |raw| == BLOCK
    ensures mu == Fill(TileStream(pr.chacha, prf, i, bj), Masks(raw), 0)
  {
    hide TileStream, Masks, Filling, Wait, Fill, KeepsAccepting;
    var s, masks := TileStream(pr.chacha, prf, i, bj), Masks(raw);
    assert KeepsAccepting(s);
    mu := [];
    ghost var blocks: nat := 0;
    var remix := 0;
    FillingStart(s, masks);
    while |mu| < BLOCK
      invariant |mu| <= BLOCK && remix == blocks % W32
      invariant |mu| < BLOCK ==> Filling(s, masks, mu, 128 * blocks)
      invariant |mu| == BLOCK ==> mu == Fill(s, masks, 0)
      decreases BLOCK - |mu|, Wait(s, masks, |mu|, 128 * blocks)
    {
      mu := OfferBlock(pr.chacha, prf, i, bj, masks, mu, remix, blocks);
      remix := (remix + 1) % W32;
      blocks := blocks + 1;
    }
  }

  method OfferBlock(chacha: ChaCha, prf: Digest, i: nat, bj: nat, masks: seq<Nibble>, start: seq<i8>,
                    remix: nat, ghost blocks: nat)
    returns (mu: seq<i8>)
    requires TilesProductive(chacha) && |start| < |masks| && remix == blocks % W32
    requires Filling(TileStream(chacha, prf, i, bj), masks, start, 128 * blocks)
    ensures var s := TileStream(chacha, prf, i, bj);
      && |start| <= |mu| <= |masks|
      && (|mu| < |masks| ==> Filling(s, masks, mu, 128 * (blocks + 1)))
      && (|mu| == |masks| ==> mu == Fill(s, masks, 0))
      && (|mu| == |start| ==> Wait(s, masks, |mu|, 128 * (blocks + 1)) < Wait(s, masks, |mu|, 128 * blocks))
  {
    hide KeepsAccepting, Filling, Wait, Fill, BitXor;
    var s := TileStream(chacha, prf, i, bj);
    assert KeepsAccepting(s);
    var ks := TileBlock(chacha, prf, i, bj, remix);
    mu := start;
    ghost var p := 128 * blocks;
    for b := 0 to 64
      invariant |start| <= |mu| <= |masks|
      invariant |mu| < |masks| ==> Filling(s, masks, mu, 128 * blocks + 2 * b)
      invariant |mu| == |masks| ==> mu == Fill(s, masks, 0)
      invariant |mu| == |start| ==> Wait(s, masks, |mu|, 128 * blocks + 2 * b) + 2 * b <= Wait(s, masks, |mu|, p)
    {
      if |mu| == |masks| { break; }
      for half := 0 to 2
        invariant |start| <= |mu| <= |masks|
        invariant |mu| < |masks| ==> Filling(s, masks, mu, 128 * blocks + 2 * b + half)
        invariant |mu| == |masks| ==> mu == Fill(s, masks, 0)
        invariant |mu| == |start| ==> Wait(s, masks, |mu|, 128 * blocks + 2 * b + half) + 2 * b + half <= Wait(s, masks, |mu|, p)
      {
        if |mu| == |masks| { break; }
        ghost var at := 128 * blocks + 2 * b + half;
        NibbleIndex(blocks, b, half);
        ghost var before := mu;
        mu := Offer(s, masks, mu, HalfByte(ks[b], half), at);
        if |mu| == |masks| { FillingDone(s, masks, mu, at + 1); }
      }
    }
  }

  method ExtractTile(pr: Primitives, prf: Digest, i: nat, bj: nat, raw: seq<int>) returns (out: seq<i8>)
    requires TilesProductive(pr.chacha) && |raw| == BLOCK
    ensures out == Tile(pr, prf, i, bj, raw)
  {
    var mu := ExtractTileMantissas(pr, prf, i, bj, raw);
    out := Scaled(mu, MxScale(pr.sha, prf, i, bj));
  }

  /** Row `i` extracted tile by tile; a tail that fills no tile stays zero. */
  ghost function ExtractTiles(pr: Primitives, prf: Digest, i: nat, raw: seq<int>, nb: nat): (out: seq<i8>)
    requires TilesProductive(pr.chacha) && BLOCK * nb <= |raw|
    ensures |out| == BLOCK * nb
    ensures forall k :: 0 <= k < |out| ==> IsMxValue(out[k])
  {
    if nb == 0 then []
    else ExtractTiles(pr, prf, i, raw, nb - 1) + Tile(pr, prf, i, nb - 1, raw[BLOCK * (nb - 1)..BLOCK * nb])
  }

  lemma TilesGrow(pr: Primitives, prf: Digest, i: nat, raw: seq<int>, bj: nat)
    requires TilesProductive(pr.chacha) && BLOCK * (bj + 1) <= |raw|
    ensures ExtractTiles(pr, prf, i, raw, bj + 1)
         == ExtractTiles(pr, prf, i, raw, bj) + Tile(pr, prf, i, bj, raw[BLOCK * bj..BLOCK * (bj + 1)])
  {
    hide Tile, TilesProductive;
  }

  function ZeroTail(n: nat): (z: seq<i8>)
    ensures |z| == n && forall k :: 0 <= k < n ==> z[k] == 0
  {
    seq<i8>(n, _ => 0)
  }

  ghost function ExtractRow(pr: Primitives, prf: Digest, i: nat, raw: seq<int>): (out: seq<i8>)
    requires TilesProductive(pr.chacha)
    ensures |out| == |raw|
    ensures forall k :: 0 <= k < |out| ==> IsMxValue(out[k])
  {
    ExtractTiles(pr, prf, i, raw, |raw| / BLOCK) + ZeroTail(|raw| % BLOCK)
  }

  method ExtractWholeRow(pr: Primitives, prf: Digest, i: nat, raw: seq<int>) returns (out: seq<i8>)
    requires TilesProductive(pr.chacha)
    ensures out == ExtractRow(pr, prf, i, raw)
  {
    hide Tile, TilesProductive;
    out := [];
    for bj := 0 to |raw| / BLOCK
      invariant out == ExtractTiles(pr, prf, i, raw, bj)
    {
      var tile := ExtractTile(pr, prf, i, bj, raw[BLOCK * bj..BLOCK * (bj + 1)]);
      out := out + tile;
    }
    out := out + ZeroTail(|raw| % BLOCK);
  }

  /** A lane vector extracted over an older state: whole tiles are replaced, what lies beyond them stays. */
  ghost function ExtractOver(pr: Primitives, prf: Digest, raw: seq<int>, before: seq<i8>): (out: seq<i8>)
    requires TilesProductive(pr.chacha) && |before| == |raw|
    ensures |out| == |raw|
  {
    ExtractTiles(pr, prf, 0, raw, |raw| / BLOCK) + before[BLOCK * (|raw| / BLOCK)..]
  }

  lemma OverMx(pr: Primitives, prf: Digest, raw: seq<int>, before: seq<i8>)
    requires TilesProductive(pr.chacha) && |before| == |raw| && AllMx(before)
    ensures AllMx(ExtractOver(pr, prf, raw, before))
  {
    hide TilesProductive, IsMxValue;
    var nb := |raw| / BLOCK;
    assert AllMx(before[BLOCK * nb..]);
    AppendMx(ExtractTiles(pr, prf, 0, raw, nb), before[BLOCK * nb..]);
  }

  /** `extract_active`: every whole tile of the state, in place. */
  method ExtractActive(pr: Primitives, prf: Digest, raw: seq<int>, state: array<i8>)
    requires TilesProductive(pr.chacha) && state.Length == |raw|
    modifies state
    ensures state[..] == ExtractOver(pr, prf, raw, old(state[..]))
  {
    ghost var before := state[..];
    OverStart(pr, prf, raw, before);
    hide TilesProductive, OverUpTo;
    for bj := 0 to |raw| / BLOCK
      invariant state.Length == |raw| && state[..] == OverUpTo(pr, prf, raw, before, bj)
    {
      ExtractTileInto(pr, prf, raw, state, before, bj);
    }
    OverEnd(pr, prf, raw, before);
  }

  /** The state once its first `bj` tiles have been replaced. */
  ghost function OverUpTo(pr: Primitives, prf: Digest, raw: seq<int>, before: seq<i8>, bj: nat): seq<i8>
    requires TilesProductive(pr.chacha) && |before| == |raw| && BLOCK * bj <= |raw|
  {
    ExtractTiles(pr, prf, 0, raw, bj) + before[BLOCK * bj..]
  }

  lemma OverStart(pr: Primitives, prf: Digest, raw: seq<int>, before: seq<i8>)
    requires TilesProductive(pr.chacha) && |before| == |raw|
    ensures OverUpTo(pr, prf, raw, before, 0) == before
  {
    hide TilesProductive;
    assert before[BLOCK * 0..] == before;
  }

  lemma OverEnd(pr: Primitives, prf: Digest, raw: seq<int>, before: seq<i8>)
    requires TilesProductive(pr.chacha) && |before| == |raw|
    ensures OverUpTo(pr, prf, raw, before, |raw| / BLOCK) == ExtractOver(pr, prf, raw, before)
  {
    hide TilesProductive, ExtractTiles;
  }

  method ExtractTileInto(pr: Primitives, prf: Digest, raw: seq<int>, state: array<i8>, ghost before: seq<i8>, bj: nat)
    requires TilesProductive(pr.chacha) && state.Length == |raw| == |before| && BLOCK * (bj + 1) <= |raw|
    requires state[..] == OverUpTo(pr, prf, raw, before, bj)
    modifies state
    ensures state[..] == OverUpTo(pr, prf, raw, before, bj + 1)
  {
    var tile := ExtractTile(pr, prf, 0, bj, raw[BLOCK * bj..BLOCK * (bj + 1)]);
    OverNext(pr, prf, raw, before, bj, tile);
    hide *;
    CopyInto(state, BLOCK * bj, tile);
  }

  lemma OverNext(pr: Primitives, prf: Digest, raw: seq<int>, before: seq<i8>, bj: nat, tile: seq<i8>)
    requires TilesProductive(pr.chacha) && |before| == |raw| && BLOCK * (bj + 1) <= |raw|
    requires tile == Tile(pr, prf, 0, bj, raw[BLOCK * bj..BLOCK * (bj + 1)])
    ensures |tile| == BLOCK && |OverUpTo(pr, prf, raw, before, bj)| == |raw|
    ensures Replaced(OverUpTo(pr, prf, raw, before, bj), BLOCK * bj, tile) == OverUpTo(pr, prf, raw, before, bj + 1)
  {
    hide TilesProductive, Tile, ExtractTiles, Replaced;
    TilesGrow(pr, prf, 0, raw, bj);
    ReplacedNext(ExtractTiles(pr, prf, 0, raw, bj), before[BLOCK * bj..], tile);
    DropDrop(before, BLOCK * bj, BLOCK);
  }

  // ---------------------------------------------------------------- how a raw sum becomes a mask

  /** A raw sum that does not fit 32 bits is folded: bit `b` of what is mixed is bit `b` plus bit `b + 32` of
      its 64-bit word, modulo two. One that fits is taken by its own word. */
  lemma MixBitsFolds(y: int, b: nat)
    requires b < 32
    ensures BitAt(MixBits(y), b) ==
      if FitsI32(y) then BitAt(y % W64, b) else (BitAt(y % W64, b) + BitAt(y % W64, b + 32)) % 2
  {
    var lo, hi := HalvesOf(y);
    hide *;
    JoinedBits(lo, hi, 32, b);
    JoinedBits(lo, hi, 32, b + 32);
    XorBits(lo, hi, b);
  }

  /** The two halves of the 64-bit word of a sum, and what the mixing step makes of them. */
  lemma HalvesOf(y: int) returns (lo: nat, hi: nat)
    ensures lo < Pow2(32) && lo + Shl(hi, 32) == y % W64
    ensures MixBits(y) == if FitsI32(y) then lo else BitXor(lo, hi)
  {
    var u: nat := y % W64;
    lo, hi := u % W32, u / W32;
    WordIsPow2();
    assert y % W32 == lo;
    assert Shl(hi, 32) == hi * Pow2(32);
    hide Shl, Pow2, BitXor;
  }

  // ---------------------------------------------------------------- raw sums that fit 32 bits

  /** The mask an int32 raw sum gets from its own word, nothing folded in. */
  function PlainMask(y: int): Nibble { y % W32 * GOLDEN % W32 / 0x1000_0000 }

  /** No sum of the matrix is folded: each fits 32 bits and masks its cell by its own word alone. */
  predicate NeverFolds(m: seq<int>) {
    Words(m) && forall k :: 0 <= k < |m| ==> Masks(m)[k] == PlainMask(m[k])
  }

  lemma FittingNeverFolds(m: seq<int>)
    requires Words(m)
    ensures NeverFolds(m)
  {
    forall k | 0 <= k < |m| ensures Masks(m)[k] == PlainMask(m[k]) {
      assert MixBits(m[k]) == m[k] % W32;
    }
  }
}
