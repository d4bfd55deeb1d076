/** What an episode digest commits to, and the value ranges inside an episode. */
module EpisodeTheorems {
  import opened Arith
  import opened Bytes
  import opened Extract
  import opened Expand
  import opened Gemm
  import opened Recall
  import opened Episode
  import Merkle

  // ---------------------------------------------------------------- binding

  lemma JoinedLength(roots: seq<Digest>)
    ensures |Joined(roots)| == 32 * |roots|
  {
    if roots != [] { JoinedLength(roots[..|roots| - 1]); }
  }

  /** Root `r` is bytes `32 * r` to `32 * r + 31` of the concatenation. */
  lemma {:induction false} JoinedAt(roots: seq<Digest>, r: nat)
    requires r < |roots|
    ensures |Joined(roots)| == 32 * |roots| && Joined(roots)[32 * r..32 * r + 32] == roots[r]
    decreases |roots|
  {
    var n := |roots| - 1;
    JoinedLength(roots);
    JoinedLength(roots[..n]);
    if r < n {
      JoinedAt(roots[..n], r);
      SliceLeft(Joined(roots[..n]), roots[n], 32 * r, 32 * r + 32);
    }
  }

  /** Equally many roots are determined by their concatenation. */
  lemma {:induction false} JoinedInjective(a: seq<Digest>, b: seq<Digest>)
    requires |a| == |b| && Joined(a) == Joined(b)
    ensures a == b
    decreases |a|
  {
    if a != [] {
      var n := |a| - 1;
      JoinedLength(a[..n]);
      JoinedLength(b[..n]);
      assert Joined(a)[..32 * n] == Joined(a[..n]) && Joined(b)[..32 * n] == Joined(b[..n]);
      assert Joined(a)[32 * n..] == a[n] && Joined(b)[32 * n..] == b[n];
      JoinedInjective(a[..n], b[..n]);
      assert a == a[..n] + [a[n]] && b == b[..n] + [b[n]];
    }
  }

  function StreamRoots(sha: Hash, t: nat, streams: seq<seq<i8>>): (roots: seq<Digest>)
    ensures |roots| == |streams|
  {
    seq<Digest>(|streams|, r requires 0 <= r < |streams| => StreamRoot(sha, t, streams[r]))
  }

  /** The digest of an episode whose rounds committed `streams`. */
  function CommittedDigest(sha: Hash, t: nat, streams: seq<seq<i8>>): Digest {
    EpisodeDigest(sha, StreamRoots(sha, t, streams))
  }

  /** The two preimages that two episodes with one digest expose: the root lists themselves, or the
      pair from the first round whose streams differ. */
  function EpisodePair(sha: Hash, t: nat, xs: seq<seq<i8>>, ys: seq<seq<i8>>, r: nat): (seq<byte>, seq<byte>)
    requires |xs| == |ys| && r <= |xs|
    decreases |xs| - r
  {
    var a, b := DigestPreimage(StreamRoots(sha, t, xs)), DigestPreimage(StreamRoots(sha, t, ys));
    if r == |xs| || a != b then (a, b)
    else if xs[r] != ys[r] then Merkle.StreamPair(sha, t, U8s(xs[r]), U8s(ys[r]))
    else EpisodePair(sha, t, xs, ys, r + 1)
  }

  /** Two episodes of one shape with one digest have the same round roots, or expose a collision. */
  lemma DigestBindsRoots(sha: Hash, t: nat, xs: seq<seq<i8>>, ys: seq<seq<i8>>)
    requires |xs| == |ys| && CommittedDigest(sha, t, xs) == CommittedDigest(sha, t, ys)
    ensures StreamRoots(sha, t, xs) == StreamRoots(sha, t, ys) ||
            var (x, y) := EpisodePair(sha, t, xs, ys, 0); IsCollision(sha, x, y)
  {
    hide StreamRoot, Merkle.StreamPair;
    var a, b := StreamRoots(sha, t, xs), StreamRoots(sha, t, ys);
    if DigestPreimage(a) == DigestPreimage(b) {
      var n := |Ascii(EPISODE_TAG)|;
      assert DigestPreimage(a)[n..] == Joined(a) && DigestPreimage(b)[n..] == Joined(b);
      JoinedInjective(a, b);
    }
  }

  lemma {:induction false} RoundsBindStreams(sha: Hash, t: nat, xs: seq<seq<i8>>, ys: seq<seq<i8>>, r: nat)
    requires t >= 1 && |xs| == |ys| && r <= |xs| && StreamRoots(sha, t, xs) == StreamRoots(sha, t, ys)
    requires forall k :: 0 <= k < |xs| ==> |xs[k]| == |ys[k]|
    requires forall k :: 0 <= k < r ==> xs[k] == ys[k]
    ensures xs == ys || var (x, y) := EpisodePair(sha, t, xs, ys, r); IsCollision(sha, x, y)
    decreases |xs| - r
  {
    hide Merkle.StreamPair, Merkle.MerkleRoot, IsCollision;
    if r < |xs| {
      assert StreamRoots(sha, t, xs)[r] == StreamRoots(sha, t, ys)[r];
      if xs[r] == ys[r] {
        RoundsBindStreams(sha, t, xs, ys, r + 1);
      } else {
        Merkle.CommitmentBindingSameLength(sha, t, U8s(xs[r]), U8s(ys[r]));
        if U8s(xs[r]) == U8s(ys[r]) { U8sInjective(xs[r], ys[r]); }
      }
    }
  }

  /** Episode binding: episodes of one shape with one digest committed the same roots and the same
      streams in every round, or `EpisodePair` is a sha256d collision. */
  lemma EpisodeBinding(sha: Hash, t: nat, xs: seq<seq<i8>>, ys: seq<seq<i8>>)
    requires t >= 1 && |xs| == |ys| && CommittedDigest(sha, t, xs) == CommittedDigest(sha, t, ys)
    requires forall k :: 0 <= k < |xs| ==> |xs[k]| == |ys[k]|
    ensures (StreamRoots(sha, t, xs) == StreamRoots(sha, t, ys) && xs == ys) ||
            var (x, y) := EpisodePair(sha, t, xs, ys, 0); IsCollision(sha, x, y)
  {
    DigestBindsRoots(sha, t, xs, ys);
    if StreamRoots(sha, t, xs) == StreamRoots(sha, t, ys) {
      RoundsBindStreams(sha, t, xs, ys, 0);
    }
  }

  /** The streams an episode commits, round by round. */
  ghost function CommittedStreams(pr: Primitives, sigma: Digest, p: EpisodeParams, n: nat): (ss: seq<seq<i8>>)
    requires Productive(pr)
    ensures |ss| == n
  {
    if n == 0 then [] else
      CommittedStreams(pr, sigma, p, n - 1)
        + [RoundStream(pr, sigma, RoundSeed(pr.sha, sigma, Roots(pr, sigma, p, n - 1)), p)]
  }

  /** Every round commits the same number of bytes, each of them an operand value. */
  lemma {:induction false} CommittedShape(pr: Primitives, sigma: Digest, p: EpisodeParams, n: nat, r: nat)
    requires Productive(pr) && r < n
    ensures var s := CommittedStreams(pr, sigma, p, n)[r];
      |s| == RowStart(p.nQ, p.dHead) + RowStart(p.layers, RowStart(p.bSeq, p.dModel)) && AllMx(s)
  {
    hide RoundStream, RoundSeed, Roots, RowStart, AllMx, Productive;
    if r < n - 1 {
      CommittedShape(pr, sigma, p, n - 1, r);
    }
  }

  /** The chained roots are the roots of the committed streams. */
  lemma {:induction false} RootsAreCommitted(pr: Primitives, sigma: Digest, p: EpisodeParams, n: nat)
    requires Productive(pr)
    ensures Roots(pr, sigma, p, n) == StreamRoots(pr.sha, p.tLeaf, CommittedStreams(pr, sigma, p, n))
  {
    hide RoundStream, StreamRoot, RowStart, AllMx, Productive;
    if n > 0 {
      RootsAreCommitted(pr, sigma, p, n - 1);
    }
  }

  lemma DigestIs(sha: Hash, t: nat, ss: seq<seq<i8>>)
    ensures CommittedDigest(sha, t, ss) == EpisodeDigest(sha, StreamRoots(sha, t, ss))
  {
  }

  /** Binding for the episodes of two headers: one digest means one transcript, or a collision. */
  lemma EpisodesBind(pr: Primitives, sigma: Digest, sigma': Digest, p: EpisodeParams)
    requires Productive(pr) && p.tLeaf >= 1
    requires EpisodeDigest(pr.sha, Roots(pr, sigma, p, p.rounds)) == EpisodeDigest(pr.sha, Roots(pr, sigma', p, p.rounds))
    ensures var xs, ys := CommittedStreams(pr, sigma, p, p.rounds), CommittedStreams(pr, sigma', p, p.rounds);
      (Roots(pr, sigma, p, p.rounds) == Roots(pr, sigma', p, p.rounds) && xs == ys) ||
      var (x, y) := EpisodePair(pr.sha, p.tLeaf, xs, ys, 0); IsCollision(pr.sha, x, y)
  {
    hide *;
    var xs, ys := CommittedStreams(pr, sigma, p, p.rounds), CommittedStreams(pr, sigma', p, p.rounds);
    RootsAreCommitted(pr, sigma, p, p.rounds);
    RootsAreCommitted(pr, sigma', p, p.rounds);
    DigestIs(pr.sha, p.tLeaf, xs);
    DigestIs(pr.sha, p.tLeaf, ys);
    forall k | 0 <= k < |xs| ensures |xs[k]| == |ys[k]| {
      CommittedShape(pr, sigma, p, p.rounds, k);
      CommittedShape(pr, sigma', p, p.rounds, k);
    }
    EpisodeBinding(pr.sha, p.tLeaf, xs, ys);
  }

  // ---------------------------------------------------------------- value ranges

  /** The shapes at which every raw sum of an episode fits 32 bits. */
  predicate NarrowShape(p: EpisodeParams) {
    p.dHead <= 932067 && p.nCtx <= 932067 && p.dModel <= 932067 && p.dFf <= 932067
  }

  lemma ShippedShapesAreNarrow()
    ensures NarrowShape(TOY) && NarrowShape(PRODUCTION) && NarrowShape(DATACENTER)
    ensures TOY.WellShaped() && PRODUCTION.WellShaped() && DATACENTER.WellShaped()
  {
  }

  /** Far enough inside 32 bits that one more operand value still fits. */
  predicate InBand(m: seq<int>) { forall k :: 0 <= k < |m| ==> -0x8000_0000 + 48 <= m[k] < 0x8000_0000 - 48 }

  /** Products of operand values stay in the band. */
  lemma ProductFits(l: seq<int>, r: seq<int>, rows: nat, inner: nat, cols: nat)
    requires AllMx(l) && AllMx(r) && inner <= 932067
    ensures InBand(Product(l, r, rows, inner, cols))
  {
    MxBounded(l);
    MxBounded(r);
    hide Product;
    ProductBounded(l, r, rows, inner, cols, 48, 48);
  }

  lemma {:induction false} TransposeMx(m: seq<int>, rows: nat, cols: nat)
    requires AllMx(m)
    ensures AllMx(Transpose(m, rows, cols))
  {
    hide RowStart;
  }

  /** Every matrix an episode hands to Extract, in the order of the phases. */
  lemma RecallRawsFit(pr: Primitives, prfS: Digest, q: seq<int>, k: seq<int>, v: seq<int>, p: EpisodeParams)
    requires Productive(pr) && NarrowShape(p) && AllMx(q) && AllMx(k) && AllMx(v)
    ensures var y := Product(q, Transpose(k, p.nCtx, p.dHead), p.nQ, p.dHead, p.nCtx);
      NeverFolds(y) && NeverFolds(Product(ExtractMatrix(pr, prfS, y, p.nQ, p.nCtx), v, p.nQ, p.nCtx, p.dHead))
  {
    var kt := Transpose(k, p.nCtx, p.dHead);
    var y := Product(q, kt, p.nQ, p.dHead, p.nCtx);
    TransposeMx(k, p.nCtx, p.dHead);
    hide Product, Transpose, RowStart, Productive;
    ProductFits(q, kt, p.nQ, p.dHead, p.nCtx);
    ProductFits(ExtractMatrix(pr, prfS, y, p.nQ, p.nCtx), v, p.nQ, p.nCtx, p.dHead);
    hide Masks, PlainMask;
    FittingNeverFolds(y);
    FittingNeverFolds(Product(ExtractMatrix(pr, prfS, y, p.nQ, p.nCtx), v, p.nQ, p.nCtx, p.dHead));
  }

  lemma LayerRawsFit(pr: Primitives, x: seq<int>, wUp: seq<int>, wDn: seq<int>, prfUp: Digest, p: EpisodeParams)
    requires Productive(pr) && NarrowShape(p) && AllMx(x) && AllMx(wUp) && AllMx(wDn)
    requires |x| == RowStart(p.bSeq, p.dModel)
    ensures NeverFolds(Product(x, wUp, p.bSeq, p.dModel, p.dFf))
    ensures NeverFolds(AddMatrix(Product(Inner(pr, x, wUp, prfUp, p), wDn, p.bSeq, p.dFf, p.dModel), x))
  {
    ProductFits(x, wUp, p.bSeq, p.dModel, p.dFf);
    var h := Inner(pr, x, wUp, prfUp, p);
    hide Product, RowStart, Productive, Inner;
    ProductFits(h, wDn, p.bSeq, p.dFf, p.dModel);
    MxBounded(x);
    hide Masks, PlainMask;
    FittingNeverFolds(Product(x, wUp, p.bSeq, p.dModel, p.dFf));
    FittingNeverFolds(AddMatrix(Product(h, wDn, p.bSeq, p.dFf, p.dModel), x));
  }

  /** At a narrow shape no raw sum of any round takes the wide branch of the mixing step: all four kinds of
      matrix handed to Extract are masked by the words of their own sums. */
  lemma NoWideMixing(pr: Primitives, sigma: Digest, seedR: Digest, p: EpisodeParams, l: nat)
    requires Productive(pr) && NarrowShape(p)
    ensures var x := Activations(pr, sigma, seedR, p, l);
      var up, dn := UpWeights(pr, sigma, seedR, p, l), DownWeights(pr, sigma, seedR, p, l);
      var prfUp := LayerPrf(pr.sha, seedR, "BTX_RC_PRF_UP_", l);
      var kv := if p.shareEp then sigma else seedR;
      var y := Product(Queries(pr, seedR, p), Transpose(Keys(pr, kv, p), p.nCtx, p.dHead), p.nQ, p.dHead, p.nCtx);
      var s := ExtractMatrix(pr, RecallPrf(pr.sha, seedR, "BTX_RC_PRF_S_V1"), y, p.nQ, p.nCtx);
      && NeverFolds(y) && NeverFolds(Product(s, Values(pr, kv, p), p.nQ, p.nCtx, p.dHead))
      && NeverFolds(Product(x, up, p.bSeq, p.dModel, p.dFf))
      && NeverFolds(AddMatrix(Product(Inner(pr, x, up, prfUp, p), dn, p.bSeq, p.dFf, p.dModel), x))
  {
    hide *;
    var kv := if p.shareEp then sigma else seedR;
    RecallRawsFit(pr, RecallPrf(pr.sha, seedR, "BTX_RC_PRF_S_V1"), Queries(pr, seedR, p), Keys(pr, kv, p), Values(pr, kv, p), p);
    LayerRawsFit(pr, Activations(pr, sigma, seedR, p, l), UpWeights(pr, sigma, seedR, p, l),
                 DownWeights(pr, sigma, seedR, p, l), LayerPrf(pr.sha, seedR, "BTX_RC_PRF_UP_", l), p);
  }
}
