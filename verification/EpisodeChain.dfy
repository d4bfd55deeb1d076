/** How the rounds of an episode hang together: what seeds a round, what a later round can see of the
    header, and where each layer lies in the stream a round commits. */
module EpisodeChain {
  import opened Arith
  import opened Bytes
  import opened Extract
  import opened Expand
  import opened Gemm
  import opened Recall
  import opened Episode
  import opened EpisodeTheorems
  import opened Seeds
  import opened Sums

  // ---------------------------------------------------------------- the chain of seeds

  /** What a round is chained to: the header before the first, the last root before any other. */
  function Previous(sigma: Digest, roots: seq<Digest>): Digest {
    if |roots| == 0 then sigma else roots[|roots| - 1]
  }

  /** Two rounds with one seed have the same number and are chained to the same digest, or their seed
      preimages collide. */
  lemma RoundSeedBinds(sha: Hash, sigma: Digest, roots: seq<Digest>, sigma': Digest, roots': seq<Digest>)
    requires |roots| < W32 && |roots'| < W32 && RoundSeed(sha, sigma, roots) == RoundSeed(sha, sigma', roots')
    ensures (|roots| == |roots'| && Previous(sigma, roots) == Previous(sigma', roots')) ||
            IsShaCollision(sha, SeedPreimage(ROUND_TAG, Previous(sigma, roots), |roots|),
                                SeedPreimage(ROUND_TAG, Previous(sigma', roots'), |roots'|))
  {
    TaggedBinds(sha, ROUND_TAG, Previous(sigma, roots), |roots|, Previous(sigma', roots'), |roots'|);
  }

  /** Outside the shared profile a layer's weights come from the round's seed alone. */
  lemma {:induction false} OwnActivations(pr: Primitives, sigma: Digest, sigma': Digest, seedR: Digest, p: EpisodeParams, l: nat)
    requires Productive(pr) && !p.shareEp
    ensures Activations(pr, sigma, seedR, p, l) == Activations(pr, sigma', seedR, p, l)
  {
    hide Productive, Layer, FirstOperand, RowStart, AllMx, Operand;
    if l > 0 { OwnActivations(pr, sigma, sigma', seedR, p, l - 1); }
  }

  lemma {:induction false} OwnLayers(pr: Primitives, sigma: Digest, sigma': Digest, seedR: Digest, p: EpisodeParams, l: nat)
    requires Productive(pr) && !p.shareEp
    ensures LayerStream(pr, sigma, seedR, p, l) == LayerStream(pr, sigma', seedR, p, l)
  {
    hide Productive, Activations, RowStart, AllMx;
    if l > 0 {
      OwnLayers(pr, sigma, sigma', seedR, p, l - 1);
      OwnActivations(pr, sigma, sigma', seedR, p, l);
    }
  }

  /** Outside the shared profile what a round commits depends on its seed alone. */
  lemma OwnRound(pr: Primitives, sigma: Digest, sigma': Digest, seedR: Digest, p: EpisodeParams)
    requires Productive(pr) && !p.shareEp
    ensures RoundStream(pr, sigma, seedR, p) == RoundStream(pr, sigma', seedR, p)
  {
    OwnLayers(pr, sigma, sigma', seedR, p, p.layers);
    hide Productive, LayerStream, RowStart, AllMx, Materialised, Queries, Keys, Values;
  }

  /** Earlier roots and streams do not change as rounds are added. */
  lemma {:induction false} RootsPrefix(pr: Primitives, sigma: Digest, p: EpisodeParams, n: nat, k: nat)
    requires Productive(pr) && k < n
    ensures Roots(pr, sigma, p, n)[k] == Roots(pr, sigma, p, k + 1)[k]
    ensures CommittedStreams(pr, sigma, p, n)[k] == CommittedStreams(pr, sigma, p, k + 1)[k]
    decreases n
  {
    hide Productive, RoundStream, StreamRoot, RoundSeed, RowStart, AllMx;
    if k + 1 < n { RootsPrefix(pr, sigma, p, n - 1, k); }
  }

  /** Round `k + 1` of either header, when their roots agree at `k`. */
  lemma NextRoundAgrees(pr: Primitives, sigma: Digest, sigma': Digest, p: EpisodeParams, k: nat)
    requires Productive(pr) && !p.shareEp
    requires Roots(pr, sigma, p, k + 1)[k] == Roots(pr, sigma', p, k + 1)[k]
    ensures Roots(pr, sigma, p, k + 2)[k + 1] == Roots(pr, sigma', p, k + 2)[k + 1]
    ensures CommittedStreams(pr, sigma, p, k + 2)[k + 1] == CommittedStreams(pr, sigma', p, k + 2)[k + 1]
  {
    var a, b := Roots(pr, sigma, p, k + 1), Roots(pr, sigma', p, k + 1);
    assert RoundSeed(pr.sha, sigma, a) == RoundSeed(pr.sha, sigma', b);
    OwnRound(pr, sigma, sigma', RoundSeed(pr.sha, sigma, a), p);
    hide Productive, RoundStream, StreamRoot, RoundSeed, RowStart, AllMx;
  }

  /** Outside the shared profile a later round sees the header only through the root before it: once the
      root lists of two headers agree in one place they agree, and so do the streams, in every later place. */
  lemma {:induction false} ChainMerges(pr: Primitives, sigma: Digest, sigma': Digest, p: EpisodeParams, n: nat, k: nat, j: nat)
    requires Productive(pr) && !p.shareEp && k < j < n
    requires Roots(pr, sigma, p, n)[k] == Roots(pr, sigma', p, n)[k]
    ensures Roots(pr, sigma, p, n)[j] == Roots(pr, sigma', p, n)[j]
    ensures CommittedStreams(pr, sigma, p, n)[j] == CommittedStreams(pr, sigma', p, n)[j]
    decreases j
  {
    hide *;
    if j > k + 1 { ChainMerges(pr, sigma, sigma', p, n, k, j - 1); }
    RootsPrefix(pr, sigma, p, n, j - 1);
    RootsPrefix(pr, sigma', p, n, j - 1);
    NextRoundAgrees(pr, sigma, sigma', p, j - 1);
    RootsPrefix(pr, sigma, p, n, j);
    RootsPrefix(pr, sigma', p, n, j);
  }

  // ---------------------------------------------------------------- places in the stream

  lemma LayerStreamStep(pr: Primitives, sigma: Digest, seedR: Digest, p: EpisodeParams, n: nat, l: nat)
    requires Productive(pr) && l < n
    ensures var size := RowStart(p.bSeq, p.dModel);
      && RowStart(l, size) + size <= RowStart(n, size)
      && (l < n - 1 ==> RowStart(l, size) + size <= RowStart(n - 1, size))
      && RowOf(LayerStream(pr, sigma, seedR, p, n), l, size) ==
           if l == n - 1 then Activations(pr, sigma, seedR, p, n) else RowOf(LayerStream(pr, sigma, seedR, p, n - 1), l, size)
  {
    var size := RowStart(p.bSeq, p.dModel);
    var front, last := LayerStream(pr, sigma, seedR, p, n - 1), Activations(pr, sigma, seedR, p, n);
    assert LayerStream(pr, sigma, seedR, p, n) == front + last;
    hide *;
    RowAppended(front, last, n, size, l);
  }

  lemma {:induction false} LayerInStream(pr: Primitives, sigma: Digest, seedR: Digest, p: EpisodeParams, n: nat, l: nat)
    requires Productive(pr) && l < n
    ensures var size := RowStart(p.bSeq, p.dModel);
      && RowStart(l, size) + size <= RowStart(n, size)
      && RowOf(LayerStream(pr, sigma, seedR, p, n), l, size) == Activations(pr, sigma, seedR, p, l + 1)
    decreases n
  {
    hide *;
    LayerStreamStep(pr, sigma, seedR, p, n, l);
    if l < n - 1 { LayerInStream(pr, sigma, seedR, p, n - 1, l); }
  }

  /** A round commits the recalled queries first; behind them place `l` holds the output of layer `l`. The
      first operand has no place. */
  lemma PlacesInStream(pr: Primitives, sigma: Digest, seedR: Digest, p: EpisodeParams, l: nat)
    requires Productive(pr) && l < p.layers
    ensures var s, z, size := RoundStream(pr, sigma, seedR, p), RowStart(p.nQ, p.dHead), RowStart(p.bSeq, p.dModel);
      && z + RowStart(l, size) + size <= |s|
      && s[..z] == RecallOf(pr, sigma, seedR, p)
      && RowOf(s[z..], l, size) == Activations(pr, sigma, seedR, p, l + 1)
  {
    var z, layers := RecallOf(pr, sigma, seedR, p), LayerStream(pr, sigma, seedR, p, p.layers);
    assert RoundStream(pr, sigma, seedR, p) == z + layers;
    hide *;
    LayerInStream(pr, sigma, seedR, p, p.layers, l);
    FrontAndBack(z, layers);
  }

  lemma FrontAndBack<T>(a: seq<T>, b: seq<T>)
    ensures (a + b)[..|a|] == a && (a + b)[|a|..] == b
  {
  }

  // ---------------------------------------------------------------- the row-blocked first operand

  lemma BlockStarts(n: nat, cols: nat)
    ensures RowStart(BLOCK * n, cols) == RowStart(n, RowStart(BLOCK, cols))
  {
    assert (BLOCK * n) * cols == n * (BLOCK * cols);
  }

  lemma BlockStep(pr: Primitives, seedX0: Digest, dModel: nat, n: nat, b: nat, size: nat)
    requires Productive(pr) && b < n && size == RowStart(BLOCK, dModel)
    ensures RowStart(b, size) + size <= |RowBlocks(pr, seedX0, dModel, n)|
    ensures b < n - 1 ==> RowStart(b, size) + size <= |RowBlocks(pr, seedX0, dModel, n - 1)|
    ensures RowOf(RowBlocks(pr, seedX0, dModel, n), b, size) ==
      if b == n - 1 then BlockOperand(pr, seedX0, dModel, b)
      else RowOf(RowBlocks(pr, seedX0, dModel, n - 1), b, size)
  {
    hide *;
    BlocksGrow(pr, seedX0, dModel, n);
    BlocksBefore(pr, seedX0, dModel, n - 1);
    RowAppended(RowBlocks(pr, seedX0, dModel, n - 1), BlockOperand(pr, seedX0, dModel, n - 1), n, size, b);
  }

  lemma {:induction false} BlockPlace(pr: Primitives, seedX0: Digest, dModel: nat, n: nat, b: nat, size: nat)
    requires Productive(pr) && b < n && size == RowStart(BLOCK, dModel)
    ensures RowStart(b, size) + size <= |RowBlocks(pr, seedX0, dModel, n)|
    ensures RowOf(RowBlocks(pr, seedX0, dModel, n), b, size) == BlockOperand(pr, seedX0, dModel, b)
    decreases n
  {
    hide *;
    BlockStep(pr, seedX0, dModel, n, b, size);
    if b < n - 1 { BlockPlace(pr, seedX0, dModel, n - 1, b, size); }
  }

  /** Block `b` of the row-blocked operand is expanded from the tag, the operand's seed and `b`. */
  lemma BlockInOperand(pr: Primitives, seedX0: Digest, dModel: nat, n: nat, b: nat)
    requires Productive(pr) && b < n
    ensures RowStart(b, RowStart(BLOCK, dModel)) + RowStart(BLOCK, dModel) <= |RowBlocks(pr, seedX0, dModel, n)|
    ensures RowOf(RowBlocks(pr, seedX0, dModel, n), b, RowStart(BLOCK, dModel))
         == Operand(pr.sha, TaggedU32(pr.sha, BLOCK_TAG, seedX0, b), BLOCK, dModel)
  {
    BlockPlace(pr, seedX0, dModel, n, b, RowStart(BLOCK, dModel));
    hide RowOf, RowBlocks, RowStart, SeedsProductive, TilesProductive, Operand;
  }

  lemma BlocksGrow(pr: Primitives, seedX0: Digest, dModel: nat, n: nat)
    requires Productive(pr) && n >= 1
    ensures RowBlocks(pr, seedX0, dModel, n) == RowBlocks(pr, seedX0, dModel, n - 1)
      + BlockOperand(pr, seedX0, dModel, n - 1)
  {
    hide SeedsProductive, TilesProductive, RowStart, Operand;
  }

  lemma BlocksBefore(pr: Primitives, seedX0: Digest, dModel: nat, n: nat)
    requires Productive(pr)
    ensures |RowBlocks(pr, seedX0, dModel, n)| == RowStart(n, RowStart(BLOCK, dModel))
  {
    hide *;
    RowBlocksShape(pr, seedX0, dModel, n);
    BlockStarts(n, dModel);
  }

  /** No two blocks share a seed, short of a collision. */
  lemma BlocksApart(sha: Hash, seedX0: Digest, b: nat, c: nat)
    requires b < W32 && c < W32 && b != c
    ensures BlockSeed(sha, seedX0, b) != BlockSeed(sha, seedX0, c) ||
      IsShaCollision(sha, SeedPreimage(BLOCK_TAG, seedX0, b), SeedPreimage(BLOCK_TAG, seedX0, c))
  {
    if BlockSeed(sha, seedX0, b) == BlockSeed(sha, seedX0, c) {
      TaggedBinds(sha, BLOCK_TAG, seedX0, b, seedX0, c);
    }
  }

  // ---------------------------------------------------------------- the residual

  /** With a down matrix of zeros a layer extracts its own input: the residual is what is added, and the
      second key is the one used. */
  lemma ResidualOnly(pr: Primitives, x: seq<i8>, wUp: seq<i8>, wDn: seq<i8>, prfUp: Digest, prfDn: Digest, p: EpisodeParams)
    requires Productive(pr) && |x| == RowStart(p.bSeq, p.dModel) && forall k :: 0 <= k < |wDn| ==> wDn[k] == 0
    ensures Layer(pr, x, wUp, wDn, prfUp, prfDn, p) == ExtractMatrix(pr, prfDn, x, p.bSeq, p.dModel)
  {
    var h := Inner(pr, x, wUp, prfUp, p);
    ZeroProduct(h, wDn, p.bSeq, p.dFf, p.dModel);
    hide Productive, Inner, ExtractMatrix, Product, RowStart;
    assert AddMatrix(Product(h, wDn, p.bSeq, p.dFf, p.dModel), x) == x;
  }

  lemma {:induction false} ZeroProduct(l: seq<int>, r: seq<int>, rows: nat, inner: nat, cols: nat)
    requires forall k :: 0 <= k < |r| ==> r[k] == 0
    ensures forall k :: 0 <= k < |Product(l, r, rows, inner, cols)| ==> Product(l, r, rows, inner, cols)[k] == 0
    decreases rows
  {
    if rows > 0 {
      ZeroProduct(l, r, rows - 1, inner, cols);
      var i := rows - 1;
      forall j | 0 <= j < cols ensures Dot(l, r, inner, cols, i, j, inner) == 0 {
        ZeroDot(l, r, inner, cols, i, j);
      }
      hide Dot, RowStart;
    }
  }

  lemma ZeroDot(l: seq<int>, r: seq<int>, inner: nat, cols: nat, i: nat, j: nat)
    requires forall k :: 0 <= k < |r| ==> r[k] == 0
    ensures Dot(l, r, inner, cols, i, j, inner) == 0
  {
    forall t | 0 <= t < inner ensures Term(l, r, inner, cols, i, j, t) == 0 {
      assert Cell(r, cols, t, j) == 0;
    }
    SumExt(inner, t => Term(l, r, inner, cols, i, j, t), _ => 0);
    SumConst(inner, 0);
  }
}
