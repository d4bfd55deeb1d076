/** The ENC_RC episode: recall, fused feed-forward layers, commitment, round after round. */
module Episode {
  import opened Arith
  import opened Bits
  import opened Bytes
  import opened Nibbles
  import opened Extract
  import opened Expand
  import opened Gemm
  import opened Recall
  import Merkle

  datatype EpisodeParams = EpisodeParams(rounds: nat, dHead: nat, nQ: nat, nCtx: nat, layers: nat, dModel: nat,
                                         dFf: nat, bSeq: nat, tLeaf: nat, shareEp: bool, rowblockX0: bool)
  {
    /** The shape every field of which is a 32-bit word and whose operands have whole scale blocks. */
    predicate WellShaped() {
      && dHead % BLOCK == 0 && dModel % BLOCK == 0 && dFf % BLOCK == 0
      && dHead < W32 && nCtx < W32 && dModel < W32 && dFf < W32
    }
  }

  const TOY := EpisodeParams(1, 32, 32, 64, 2, 32, 128, 32, 64, false, false)
  const PRODUCTION := EpisodeParams(4, 128, 512, 786432, 16, 4096, 16384, 16384, 1024, false, false)
  const DATACENTER := EpisodeParams(8, 128, 512, 786432, 24, 4096, 16384, 87552, 4096, true, true)

  const ROUND_TAG := "BTX_RC_ROUND_V1"
  const EPISODE_TAG := "BTX_RC_EPISODE_V1"
  const BLOCK_TAG := "BTX_RC_X0_ROW_BLOCK_V1"

  function OperandSeed(sha: Hash, seed: Digest, tag: string): Digest { Tagged(sha, tag, seed) }

  function Decimal(n: nat): string {
    if n < 10 then ["0123456789"[n]] else Decimal(n / 10) + ["0123456789"[n % 10]]
  }

  function LayerTag(prefix: string, l: nat): string { prefix + Decimal(l) + "_V1" }

  function LayerPrf(sha: Hash, seedR: Digest, prefix: string, l: nat): Digest {
    PrfKey(sha, OperandSeed(sha, seedR, LayerTag(prefix, l)))
  }

  ghost predicate Productive(pr: Primitives) { TilesProductive(pr.chacha) && SeedsProductive(pr.sha) }

  // ---------------------------------------------------------------- layers

  function AddMatrix(a: seq<int>, b: seq<int>): (c: seq<int>)
    requires |a| == |b|
    ensures |c| == |a| && forall k :: 0 <= k < |a| ==> c[k] == a[k] + b[k]
  {
    AddRows(a, b)
  }

  /** H = Extract(X W_up): the inner activations, never committed. */
  ghost function Inner(pr: Primitives, x: seq<int>, wUp: seq<int>, prfUp: Digest, p: EpisodeParams): (h: seq<i8>)
    requires Productive(pr)
    ensures |h| == RowStart(p.bSeq, p.dFf) && AllMx(h)
  {
    ExtractMatrix(pr, prfUp, Product(x, wUp, p.bSeq, p.dModel, p.dFf), p.bSeq, p.dFf)
  }

  /** X' = Extract(H W_down + X). */
  ghost function Layer(pr: Primitives, x: seq<int>, wUp: seq<int>, wDn: seq<int>, prfUp: Digest, prfDn: Digest,
                       p: EpisodeParams): (out: seq<i8>)
    requires Productive(pr) && |x| == RowStart(p.bSeq, p.dModel)
    ensures |out| == RowStart(p.bSeq, p.dModel) && AllMx(out)
  {
    ExtractMatrix(pr, prfDn, AddMatrix(Product(Inner(pr, x, wUp, prfUp, p), wDn, p.bSeq, p.dFf, p.dModel), x),
                  p.bSeq, p.dModel)
  }

  /** The seed of block `b` of the row-blocked first operand. */
  function BlockSeed(sha: Hash, seedX0: Digest, b: nat): Digest { TaggedU32(sha, BLOCK_TAG, seedX0, b) }

  /** Block `b`, expanded from its own seed. */
  ghost function BlockOperand(pr: Primitives, seedX0: Digest, dModel: nat, b: nat): (x: seq<i8>)
    requires Productive(pr)
    ensures |x| == RowStart(BLOCK, dModel) && forall k :: 0 <= k < |x| ==> IsMxValue(x[k])
  {
    Operand(pr.sha, BlockSeed(pr.sha, seedX0, b), BLOCK, dModel)
  }

  /** Independent 32-row blocks of the row-blocked first operand. */
  ghost function RowBlocks(pr: Primitives, seedX0: Digest, dModel: nat, n: nat): seq<i8>
    requires Productive(pr)
  {
    if n == 0 then [] else
      RowBlocks(pr, seedX0, dModel, n - 1)
        + BlockOperand(pr, seedX0, dModel, n - 1)
  }

  lemma {:induction false} RowBlocksShape(pr: Primitives, seedX0: Digest, dModel: nat, n: nat)
    requires Productive(pr)
    ensures var x := RowBlocks(pr, seedX0, dModel, n); |x| == RowStart(BLOCK * n, dModel) && AllMx(x)
  {
    NoRows(dModel);
    hide RowStart, Operand, SeedsProductive, TilesProductive, AllMx;
    NoneMx();
    if n > 0 {
      RowBlocksShape(pr, seedX0, dModel, n - 1);
      RowsAdd(BLOCK * (n - 1), BLOCK, dModel);
      var block := BlockOperand(pr, seedX0, dModel, n - 1);
      OperandMx(block);
      AppendMx(RowBlocks(pr, seedX0, dModel, n - 1), block);
    }
  }

  lemma NoneMx()
    ensures AllMx([])
  {
  }

  lemma OperandMx(m: seq<int>)
    requires forall k :: 0 <= k < |m| ==> IsMxValue(m[k])
    ensures AllMx(m)
  {
  }

  lemma RowsAdd(a: nat, b: nat, cols: nat)
    ensures RowStart(a + b, cols) == RowStart(a, cols) + RowStart(b, cols)
  {
  }

  lemma ZerosMx(n: nat)
    ensures AllMx(ZeroTail(n))
  {
  }

  lemma BlockedOperand(pr: Primitives, seedX0: Digest, dModel: nat, bSeq: nat)
    requires Productive(pr)
    ensures var x := RowBlocks(pr, seedX0, dModel, bSeq / BLOCK) + ZeroTail(RowStart(bSeq % BLOCK, dModel));
      |x| == RowStart(bSeq, dModel) && AllMx(x)
  {
    var n, r := bSeq / BLOCK, bSeq % BLOCK;
    ZerosMx(RowStart(bSeq % BLOCK, dModel));
    hide RowStart, RowBlocks, SeedsProductive, TilesProductive, AllMx, ZeroTail;
    RowsAdd(BLOCK * n, r, dModel);
    RowBlocksShape(pr, seedX0, dModel, n);
    AppendMx(RowBlocks(pr, seedX0, dModel, n), ZeroTail(RowStart(r, dModel)));
    assert bSeq == BLOCK * n + r;
  }

  ghost function FirstOperand(pr: Primitives, seedR: Digest, p: EpisodeParams): (x: seq<i8>)
    requires Productive(pr)
    ensures |x| == RowStart(p.bSeq, p.dModel) && AllMx(x)
  {
    var seedX0 := OperandSeed(pr.sha, seedR, "BTX_RC_X0_V1");
    if p.rowblockX0 then
      BlockedOperand(pr, seedX0, p.dModel, p.bSeq);
      RowBlocks(pr, seedX0, p.dModel, p.bSeq / BLOCK) + ZeroTail(RowStart(p.bSeq % BLOCK, p.dModel))
    else Operand(pr.sha, seedX0, p.bSeq, p.dModel)
  }

  /** The up and down weights of layer `l`: one shared pair, or a pair per round and layer. */
  ghost function UpWeights(pr: Primitives, sigma: Digest, seedR: Digest, p: EpisodeParams, l: nat): (w: seq<i8>)
    requires Productive(pr)
    ensures |w| == RowStart(p.dModel, p.dFf) && AllMx(w)
  {
    Operand(pr.sha, if p.shareEp then OperandSeed(pr.sha, sigma, "BTX_RC_WUP_V1")
                    else OperandSeed(pr.sha, seedR, LayerTag("BTX_RC_WUP_", l)), p.dModel, p.dFf)
  }

  ghost function DownWeights(pr: Primitives, sigma: Digest, seedR: Digest, p: EpisodeParams, l: nat): (w: seq<i8>)
    requires Productive(pr)
    ensures |w| == RowStart(p.dFf, p.dModel) && AllMx(w)
  {
    Operand(pr.sha, if p.shareEp then OperandSeed(pr.sha, sigma, "BTX_RC_WDN_V1")
                    else OperandSeed(pr.sha, seedR, LayerTag("BTX_RC_WDN_", l)), p.dFf, p.dModel)
  }

  /** The activations after `l` layers. */
  ghost function Activations(pr: Primitives, sigma: Digest, seedR: Digest, p: EpisodeParams, l: nat): (x: seq<i8>)
    requires Productive(pr)
    ensures |x| == RowStart(p.bSeq, p.dModel) && AllMx(x)
    decreases l
  {
    if l == 0 then FirstOperand(pr, seedR, p) else
      Layer(pr, Activations(pr, sigma, seedR, p, l - 1),
            UpWeights(pr, sigma, seedR, p, l - 1), DownWeights(pr, sigma, seedR, p, l - 1),
            LayerPrf(pr.sha, seedR, "BTX_RC_PRF_UP_", l - 1), LayerPrf(pr.sha, seedR, "BTX_RC_PRF_DN_", l - 1), p)
  }

  // ---------------------------------------------------------------- recall of one round

  ghost function Queries(pr: Primitives, seedR: Digest, p: EpisodeParams): (q: seq<i8>)
    requires Productive(pr)
    ensures |q| == RowStart(p.nQ, p.dHead) && AllMx(q)
  {
    Operand(pr.sha, OperandSeed(pr.sha, seedR, "BTX_RC_Q_V1"), p.nQ, p.dHead)
  }

  ghost function Keys(pr: Primitives, kvSeed: Digest, p: EpisodeParams): (k: seq<i8>)
    requires Productive(pr)
    ensures |k| == RowStart(p.nCtx, p.dHead) && AllMx(k)
  {
    Operand(pr.sha, OperandSeed(pr.sha, kvSeed, "BTX_RC_KV_K_V1"), p.nCtx, p.dHead)
  }

  ghost function Values(pr: Primitives, kvSeed: Digest, p: EpisodeParams): (v: seq<i8>)
    requires Productive(pr)
    ensures |v| == RowStart(p.nCtx, p.dHead) && AllMx(v)
  {
    Operand(pr.sha, OperandSeed(pr.sha, kvSeed, "BTX_RC_KV_V_V1"), p.nCtx, p.dHead)
  }

  function RecallPrf(sha: Hash, seedR: Digest, tag: string): Digest { PrfKey(sha, OperandSeed(sha, seedR, tag)) }

  ghost function RecallOf(pr: Primitives, sigma: Digest, seedR: Digest, p: EpisodeParams): (z: seq<i8>)
    requires Productive(pr)
    ensures |z| == RowStart(p.nQ, p.dHead) && AllMx(z)
  {
    var kvSeed := if p.shareEp then sigma else seedR;
    Materialised(pr, RecallPrf(pr.sha, seedR, "BTX_RC_PRF_S_V1"), RecallPrf(pr.sha, seedR, "BTX_RC_PRF_Z_V1"),
                 Queries(pr, seedR, p), Keys(pr, kvSeed, p), Values(pr, kvSeed, p), p.nQ, p.nCtx, p.dHead)
  }

  // ---------------------------------------------------------------- commitment

  /** X[1], ..., X[l], one after the other. */
  ghost function LayerStream(pr: Primitives, sigma: Digest, seedR: Digest, p: EpisodeParams, l: nat): (s: seq<i8>)
    requires Productive(pr)
    ensures |s| == RowStart(l, RowStart(p.bSeq, p.dModel)) && AllMx(s)
  {
    if l == 0 then [] else
      RowStep(l - 1, RowStart(p.bSeq, p.dModel));
      LayerStream(pr, sigma, seedR, p, l - 1) + Activations(pr, sigma, seedR, p, l)
  }

  /** What a round commits to: Z, then every layer output. */
  ghost function RoundStream(pr: Primitives, sigma: Digest, seedR: Digest, p: EpisodeParams): (s: seq<i8>)
    requires Productive(pr)
    ensures |s| == RowStart(p.nQ, p.dHead) + RowStart(p.layers, RowStart(p.bSeq, p.dModel)) && AllMx(s)
  {
    RecallOf(pr, sigma, seedR, p) + LayerStream(pr, sigma, seedR, p, p.layers)
  }

  /** The seed of round `r`, chained through the previous root. */
  function RoundSeed(sha: Hash, sigma: Digest, roots: seq<Digest>): Digest {
    TaggedU32(sha, ROUND_TAG, if roots == [] then sigma else roots[|roots| - 1], |roots|)
  }

  function StreamRoot(sha: Hash, t: nat, s: seq<i8>): Digest { Merkle.MerkleRoot(sha, t, U8s(s)) }

  /** The first `r` round roots. */
  ghost function Roots(pr: Primitives, sigma: Digest, p: EpisodeParams, r: nat): (roots: seq<Digest>)
    requires Productive(pr)
    ensures |roots| == r
  {
    if r == 0 then [] else
      var before := Roots(pr, sigma, p, r - 1);
      before + [StreamRoot(pr.sha, p.tLeaf, RoundStream(pr, sigma, RoundSeed(pr.sha, sigma, before), p))]
  }

  /** Root `r` commits a round seeded by the tag, the root before it (the header for the first) and `r`. */
  ghost predicate IsChained(pr: Primitives, sigma: Digest, p: EpisodeParams, roots: seq<Digest>, r: nat)
    requires Productive(pr) && r < |roots|
  {
    roots[r] == StreamRoot(pr.sha, p.tLeaf, RoundStream(pr, sigma,
      TaggedU32(pr.sha, ROUND_TAG, if r == 0 then sigma else roots[r - 1], r), p))
  }

  lemma {:induction false} RootsChained(pr: Primitives, sigma: Digest, p: EpisodeParams, n: nat, r: nat)
    requires Productive(pr) && r < n
    ensures IsChained(pr, sigma, p, Roots(pr, sigma, p, n), r)
    decreases n
  {
    hide Productive, RoundStream, StreamRoot, TaggedU32, RowStart, AllMx;
    if r < n - 1 {
      RootsChained(pr, sigma, p, n - 1, r);
    }
  }

  function DigestPreimage(roots: seq<Digest>): seq<byte> { Ascii(EPISODE_TAG) + Joined(roots) }

  function EpisodeDigest(sha: Hash, roots: seq<Digest>): Digest { Sha256d(sha, DigestPreimage(roots)) }

  // ---------------------------------------------------------------- the loops

  lemma I64Fits(l: seq<int>, r: seq<int>, inner: nat, cols: nat, rows: nat)
    requires AllMx(l) && AllMx(r) && inner < W32
    ensures forall i :: 0 <= i < rows ==> PrefixesFit(l, r, inner, cols, i, 0x8000_0000_0000_0000)
  {
    MxBounded(l);
    MxBounded(r);
    forall i | 0 <= i < rows ensures PrefixesFit(l, r, inner, cols, i, 0x8000_0000_0000_0000) {
      BoundsFit(l, r, inner, cols, i, 48, 48, 0x8000_0000_0000_0000);
    }
  }

  method ExtractAll(pr: Primitives, prf: Digest, y: seq<int>, rows: nat, cols: nat) returns (out: seq<i8>)
    requires TilesProductive(pr.chacha) && |y| == RowStart(rows, cols)
    ensures out == ExtractMatrix(pr, prf, y, rows, cols)
  {
    assert RowStart(0, cols) == 0;
    hide TilesProductive, ExtractRow, RowOf, RowStart;
    out := [];
    for i := 0 to rows
      invariant RowStart(i, cols) <= |y|
      invariant out == ExtractMatrix(pr, prf, y, i, cols)
    {
      RowFits(i, rows, cols);
      RowStep(i, cols);
      var row := ExtractWholeRow(pr, prf, i, RowOf(y, i, cols));
      out := out + row;
    }
  }

  method FusedFfnLayer(pr: Primitives, x: seq<i8>, wUp: seq<i8>, wDn: seq<i8>, prfUp: Digest, prfDn: Digest,
                       p: EpisodeParams)
    returns (out: seq<i8>)
    requires Productive(pr) && p.WellShaped() && AllMx(x) && AllMx(wUp) && AllMx(wDn)
    requires |x| == RowStart(p.bSeq, p.dModel) && |wUp| == RowStart(p.dModel, p.dFf) && |wDn| == RowStart(p.dFf, p.dModel)
    ensures out == Layer(pr, x, wUp, wDn, prfUp, prfDn, p)
  {
    hide RowStart, AllMx, Product, ExtractMatrix, PrefixesFit, TilesProductive, SeedsProductive;
    I64Fits(x, wUp, p.dModel, p.dFf, p.bSeq);
    var h64 := Multiply(x, wUp, p.bSeq, p.dModel, p.dFf, 0x8000_0000_0000_0000);
    var h := ExtractAll(pr, prfUp, h64, p.bSeq, p.dFf);
    I64Fits(h, wDn, p.dFf, p.dModel, p.bSeq);
    var y64 := Multiply(h, wDn, p.bSeq, p.dFf, p.dModel, 0x8000_0000_0000_0000);
    out := ExtractAll(pr, prfDn, AddMatrix(y64, x), p.bSeq, p.dModel);
  }

  method ExpandFirstOperand(pr: Primitives, seedR: Digest, p: EpisodeParams) returns (x: seq<i8>)
    requires Productive(pr) && p.WellShaped()
    ensures x == FirstOperand(pr, seedR, p)
  {
    hide RowStart, AllMx, SeedsProductive, TilesProductive, Operand;
    var seedX0 := OperandSeed(pr.sha, seedR, "BTX_RC_X0_V1");
    if p.rowblockX0 {
      x := [];
      for b := 0 to p.bSeq / BLOCK
        invariant x == RowBlocks(pr, seedX0, p.dModel, b)
      {
        var blk := ExpandMxDequant(pr.sha, BlockSeed(pr.sha, seedX0, b), BLOCK, p.dModel);
        x := x + blk;
      }
      x := x + ZeroTail(RowStart(p.bSeq % BLOCK, p.dModel));
    } else {
      x := ExpandMxDequant(pr.sha, seedX0, p.bSeq, p.dModel);
    }
  }

  method RecallPhase(pr: Primitives, sigma: Digest, seedR: Digest, p: EpisodeParams) returns (z: seq<i8>)
    requires Productive(pr) && p.WellShaped()
    ensures z == RecallOf(pr, sigma, seedR, p)
  {
    hide RowStart, AllMx, SeedsProductive, TilesProductive, Operand, Materialised;
    var kvSeed := if p.shareEp then sigma else seedR;
    var q := ExpandMxDequant(pr.sha, OperandSeed(pr.sha, seedR, "BTX_RC_Q_V1"), p.nQ, p.dHead);
    var k := ExpandMxDequant(pr.sha, OperandSeed(pr.sha, kvSeed, "BTX_RC_KV_K_V1"), p.nCtx, p.dHead);
    var v := ExpandMxDequant(pr.sha, OperandSeed(pr.sha, kvSeed, "BTX_RC_KV_V_V1"), p.nCtx, p.dHead);
    MxBounded(v);
    z := RecallAll(pr, RecallPrf(pr.sha, seedR, "BTX_RC_PRF_S_V1"), RecallPrf(pr.sha, seedR, "BTX_RC_PRF_Z_V1"),
                   q, k, v, p.nQ, p.nCtx, p.dHead);
  }

  method RunLayer(pr: Primitives, sigma: Digest, seedR: Digest, p: EpisodeParams, l: nat, x: seq<i8>)
    returns (out: seq<i8>)
    requires Productive(pr) && p.WellShaped() && x == Activations(pr, sigma, seedR, p, l)
    ensures out == Activations(pr, sigma, seedR, p, l + 1)
  {
    hide RowStart, AllMx, SeedsProductive, TilesProductive, Operand, Layer, FirstOperand;
    var upSeed := if p.shareEp then OperandSeed(pr.sha, sigma, "BTX_RC_WUP_V1")
                  else OperandSeed(pr.sha, seedR, LayerTag("BTX_RC_WUP_", l));
    var dnSeed := if p.shareEp then OperandSeed(pr.sha, sigma, "BTX_RC_WDN_V1")
                  else OperandSeed(pr.sha, seedR, LayerTag("BTX_RC_WDN_", l));
    var wUp := ExpandMxDequant(pr.sha, upSeed, p.dModel, p.dFf);
    var wDn := ExpandMxDequant(pr.sha, dnSeed, p.dFf, p.dModel);
    assert wUp == UpWeights(pr, sigma, seedR, p, l) && wDn == DownWeights(pr, sigma, seedR, p, l);
    hide UpWeights, DownWeights;
    out := FusedFfnLayer(pr, x, wUp, wDn, LayerPrf(pr.sha, seedR, "BTX_RC_PRF_UP_", l),
                         LayerPrf(pr.sha, seedR, "BTX_RC_PRF_DN_", l), p);
  }

  /** Phase 2: the activations of every layer, the first operand included. */
  method ForwardPhase(pr: Primitives, sigma: Digest, seedR: Digest, p: EpisodeParams) returns (xs: seq<seq<i8>>)
    requires Productive(pr) && p.WellShaped()
    ensures |xs| == p.layers + 1
    ensures forall l :: 0 <= l <= p.layers ==> xs[l] == Activations(pr, sigma, seedR, p, l)
  {
    hide RowStart, AllMx, Productive, Activations, EpisodeParams.WellShaped;
    var x := ExpandFirstOperand(pr, seedR, p);
    StartActivations(pr, sigma, seedR, p);
    xs := [x];
    for l := 0 to p.layers
      invariant |xs| == l + 1
      invariant forall k :: 0 <= k <= l ==> xs[k] == Activations(pr, sigma, seedR, p, k)
    {
      x := RunLayer(pr, sigma, seedR, p, l, xs[l]);
      xs := xs + [x];
    }
  }

  /** Z and the layer outputs one after the other; the first operand is not committed. */
  function Streamed(z: seq<i8>, xs: seq<seq<i8>>, l: nat): seq<i8>
    requires l < |xs|
  {
    if l == 0 then z else Streamed(z, xs, l - 1) + xs[l]
  }

  /** Phase 3: absorb Z || X[1..L] and fold. */
  method CommitPhase(sha: Hash, tLeaf: nat, z: seq<i8>, xs: seq<seq<i8>>) returns (root: Digest)
    requires |xs| >= 1
    ensures root == StreamRoot(sha, tLeaf, Streamed(z, xs, |xs| - 1))
  {
    hide Merkle.MerkleRoot, U8s, Merkle.IsCut, Merkle.HashAll;
    var m := new Merkle.Merkle(sha, tLeaf);
    m.Absorb(z);
    NothingBefore(U8s(z));
    for l := 0 to |xs| - 1
      invariant m.Valid() && m.sha == sha && m.tLeaf == tLeaf && fresh(m)
      invariant m.stream == U8s(Streamed(z, xs, l))
    {
      m.Absorb(xs[l + 1]);
      U8sConcat(Streamed(z, xs, l), xs[l + 1]);
    }
    root := m.FinalizeRoot();
  }

  lemma NothingBefore<T>(s: seq<T>)
    ensures [] + s == s
  {
  }

  lemma {:induction false} StreamedIsLayers(pr: Primitives, sigma: Digest, seedR: Digest, p: EpisodeParams,
                                            z: seq<i8>, xs: seq<seq<i8>>, l: nat)
    requires Productive(pr) && l < |xs| && forall k :: 0 <= k <= l ==> xs[k] == Activations(pr, sigma, seedR, p, k)
    ensures Streamed(z, xs, l) == z + LayerStream(pr, sigma, seedR, p, l)
    decreases l
  {
    hide RowStart, AllMx, Productive, Activations;
    if l > 0 {
      StreamedIsLayers(pr, sigma, seedR, p, z, xs, l - 1);
    }
  }

  method RunRound(pr: Primitives, sigma: Digest, seedR: Digest, p: EpisodeParams) returns (root: Digest)
    requires Productive(pr) && p.WellShaped()
    ensures root == StreamRoot(pr.sha, p.tLeaf, RoundStream(pr, sigma, seedR, p))
  {
    hide RowStart, AllMx, Productive, EpisodeParams.WellShaped, StreamRoot, Streamed, LayerStream, Activations,
         RecallOf;
    var z := RecallPhase(pr, sigma, seedR, p);
    var xs := ForwardPhase(pr, sigma, seedR, p);
    root := CommitPhase(pr.sha, p.tLeaf, z, xs);
    StreamedIsLayers(pr, sigma, seedR, p, z, xs, p.layers);
  }

  lemma StartActivations(pr: Primitives, sigma: Digest, seedR: Digest, p: EpisodeParams)
    requires Productive(pr)
    ensures Activations(pr, sigma, seedR, p, 0) == FirstOperand(pr, seedR, p)
  {
  }

  lemma U8sConcat(a: seq<i8>, b: seq<i8>)
    ensures U8s(a + b) == U8s(a) + U8s(b)
  {
  }

  method RunEpisode(pr: Primitives, sigma: Digest, p: EpisodeParams) returns (digest: Digest, roots: seq<Digest>)
    requires Productive(pr) && p.WellShaped()
    ensures roots == Roots(pr, sigma, p, p.rounds) && digest == EpisodeDigest(pr.sha, roots)
    ensures |roots| == p.rounds && forall r :: 0 <= r < p.rounds ==> IsChained(pr, sigma, p, roots, r)
  {
    hide SeedsProductive, TilesProductive, RoundStream, StreamRoot, Joined;
    roots := [];
    for r := 0 to p.rounds
      invariant roots == Roots(pr, sigma, p, r)
    {
      var root := RunRound(pr, sigma, RoundSeed(pr.sha, sigma, roots), p);
      roots := roots + [root];
    }
    digest := EpisodeDigest(pr.sha, roots);
    hide IsChained;
    forall r | 0 <= r < p.rounds ensures IsChained(pr, sigma, p, roots, r) {
      RootsChained(pr, sigma, p, p.rounds, r);
    }
  }
}
