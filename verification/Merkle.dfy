/** The streaming Merkle commitment of an episode round.

    `Merkle` is the accumulator; `MerkleRoot` is the recursive tree it computes. The binding
    theorem is constructive: `FindPair` walks the two trees and returns the two preimages. */
module Merkle {
  import opened Arith
  import opened Bits
  import opened Bytes

  const LEAF_TAG: byte := 0
  const NODE_TAG: byte := 1
  const PAD_LEAF_TAG: byte := 2

  function LeafPreimage(block: seq<byte>): seq<byte> { [LEAF_TAG] + block }

  function PadPreimage(): seq<byte> { [PAD_LEAF_TAG] + Ascii("BTX_RC_PAD") }

  function NodePreimage(l: Digest, r: Digest): seq<byte> { [NODE_TAG] + l + r }

  function HashNode(sha: Hash, l: Digest, r: Digest): Digest { Sha256d(sha, NodePreimage(l, r)) }

  function HashLeaf(sha: Hash, block: seq<byte>): Digest { Sha256d(sha, LeafPreimage(block)) }

  function PadLeafHash(sha: Hash): Digest { Sha256d(sha, PadPreimage()) }

  /** The first power of two that is at least `n`, doubling up from the power of two `from`. */
  function NextPow2(from: nat, n: nat): (t: nat)
    requires IsPow2(from)
    ensures IsPow2(t) && n <= t && from <= t
    ensures t == from || t / 2 < n
    decreases n - from
  {
    if from < n then NextPow2(2 * from, n) else from
  }

  // ---------------------------------------------------------------- the reference tree

  /** Cut a stream into leaves of `t` bytes; a shorter remainder is dropped. */
  function Split(t: nat, s: seq<byte>): (bs: seq<seq<byte>>)
    requires t >= 1
    ensures forall b :: b in bs ==> |b| == t
    decreases |s|
  {
    if |s| < t then [] else [s[..t]] + Split(t, s[t..])
  }

  function Flatten(bs: seq<seq<byte>>): seq<byte> {
    if bs == [] then [] else bs[0] + Flatten(bs[1..])
  }

  function Zeros(n: nat): (z: seq<byte>)
    ensures |z| == n
  {
    seq(n, _ => 0)
  }

  /** `s`, zero-extended to the next multiple of `t`. */
  function ZeroPadded(t: nat, s: seq<byte>): seq<byte>
    requires t >= 1
  {
    s + Zeros(if |s| % t == 0 then 0 else t - |s| % t)
  }

  /** The leaf preimages of a stream: one per block, or the single pad leaf for an empty stream. */
  function LeafLevel(t: nat, s: seq<byte>): (p: seq<seq<byte>>)
    ensures |p| >= 1
  {
    var blocks := if t == 0 then (if s == [] then [] else [[]]) else Split(t, ZeroPadded(t, s));
    WithPads(blocks)
  }

  function LeafPreimages(bs: seq<seq<byte>>): (r: seq<seq<byte>>)
    ensures |r| == |bs|
    ensures forall k :: 0 <= k < |bs| ==> r[k] == LeafPreimage(bs[k])
  {
    seq(|bs|, k requires 0 <= k < |bs| => LeafPreimage(bs[k]))
  }

  function Pads(n: nat): (r: seq<seq<byte>>)
    ensures |r| == n
    ensures forall k :: 0 <= k < n ==> r[k] == PadPreimage()
  {
    seq(n, _ => PadPreimage())
  }

  function WithPads(bs: seq<seq<byte>>): (p: seq<seq<byte>>)
    ensures IsPow2(|p|) && |p| >= 1 && |p| >= |bs|
  {
    LeafPreimages(bs) + Pads(NextPow2(1, |bs|) - |bs|)
  }

  /** The root of the balanced binary tree over the hashes of `p`, left half and right half. */
  function Tree(sha: Hash, p: seq<seq<byte>>): Digest
    requires IsPow2(|p|)
    decreases |p|
  {
    if |p| == 1 then Sha256d(sha, p[0])
    else HashNode(sha, Tree(sha, p[..|p| / 2]), Tree(sha, p[|p| / 2..]))
  }

  function MerkleRoot(sha: Hash, t: nat, s: seq<byte>): Digest {
    Tree(sha, LeafLevel(t, s))
  }

  // ---------------------------------------------------------------- binding

  predicate LeafShaped(p: seq<seq<byte>>) {
    forall k :: 0 <= k < |p| ==> |p[k]| >= 1 && p[k][0] != NODE_TAG
  }

  /** Walk two trees from the root towards the first place where their leaves differ and return
      the two byte strings hashed there. */
  function FindPair(sha: Hash, p: seq<seq<byte>>, q: seq<seq<byte>>): (seq<byte>, seq<byte>)
    requires IsPow2(|p|) && IsPow2(|q|)
    decreases |p|
  {
    if |p| == 1 && |q| == 1 then (p[0], q[0])
    else if |p| == 1 then (p[0], TopPreimage(sha, q))
    else if |q| == 1 then (TopPreimage(sha, p), q[0])
    else if TopPreimage(sha, p) != TopPreimage(sha, q) then
      (TopPreimage(sha, p), TopPreimage(sha, q))
    else if p[..|p| / 2] != q[..|q| / 2] then FindPair(sha, p[..|p| / 2], q[..|q| / 2])
    else FindPair(sha, p[|p| / 2..], q[|q| / 2..])
  }

  function TopPreimage(sha: Hash, p: seq<seq<byte>>): seq<byte>
    requires IsPow2(|p|) && |p| > 1
  {
    NodePreimage(Tree(sha, p[..|p| / 2]), Tree(sha, p[|p| / 2..]))
  }

  lemma NodePreimageInjective(l: Digest, r: Digest, l': Digest, r': Digest)
    requires NodePreimage(l, r) == NodePreimage(l', r')
    ensures l == l' && r == r'
  {
    assert NodePreimage(l, r)[1..33] == l && NodePreimage(l', r')[1..33] == l';
    assert NodePreimage(l, r)[33..] == r && NodePreimage(l', r')[33..] == r';
  }

  lemma HalvesJoin<T>(p: seq<T>, q: seq<T>)
    requires p[..|p| / 2] == q[..|q| / 2] && p[|p| / 2..] == q[|q| / 2..]
    ensures p == q
  {
    assert p == p[..|p| / 2] + p[|p| / 2..] && q == q[..|q| / 2] + q[|q| / 2..];
  }

  lemma HalvesShaped(p: seq<seq<byte>>, h: nat)
    requires |p| == 2 * h && LeafShaped(p)
    ensures LeafShaped(p[..h]) && LeafShaped(p[h..])
  {
    forall k | 0 <= k < h ensures p[..h][k] == p[k] && p[h..][k] == p[h + k] {
    }
  }

  lemma TreeTop(sha: Hash, p: seq<seq<byte>>)
    requires IsPow2(|p|) && |p| > 1
    ensures Tree(sha, p) == Sha256d(sha, TopPreimage(sha, p)) && TopPreimage(sha, p)[0] == NODE_TAG
  {
  }

  /** Two trees with the same root and different leaves exhibit a sha256d collision. */
  lemma {:induction false} TreeBinding(sha: Hash, p: seq<seq<byte>>, q: seq<seq<byte>>)
    requires IsPow2(|p|) && IsPow2(|q|) && LeafShaped(p) && LeafShaped(q)
    requires Tree(sha, p) == Tree(sha, q) && p != q
    ensures var (x, y) := FindPair(sha, p, q); IsCollision(sha, x, y)
    decreases |p|
  {
    if |p| > 1 { TreeTop(sha, p); }
    if |q| > 1 { TreeTop(sha, q); }
    if |p| == 1 && |q| == 1 {
      assert p == [p[0]] && q == [q[0]];
    } else if |p| > 1 && |q| > 1 && TopPreimage(sha, p) == TopPreimage(sha, q) {
      var pl, pr, ql, qr := p[..|p| / 2], p[|p| / 2..], q[..|q| / 2], q[|q| / 2..];
      HalvesShaped(p, |p| / 2);
      HalvesShaped(q, |q| / 2);
      NodePreimageInjective(Tree(sha, pl), Tree(sha, pr), Tree(sha, ql), Tree(sha, qr));
      hide Tree, TopPreimage, LeafShaped, Sha256d;
      if pl != ql {
        TreeBinding(sha, pl, ql);
      } else {
        if pr == qr { HalvesJoin(p, q); }
        TreeBinding(sha, pr, qr);
      }
    }
  }

  lemma LevelCell(bs: seq<seq<byte>>, k: nat)
    requires k < |WithPads(bs)|
    ensures WithPads(bs)[k] == if k < |bs| then LeafPreimage(bs[k]) else PadPreimage()
    ensures WithPads(bs)[k][0] == if k < |bs| then LEAF_TAG else PAD_LEAF_TAG
  {
  }

  /** A pad leaf never passes for a data leaf, so the level determines its blocks. */
  lemma WithPadsInjective(bs: seq<seq<byte>>, cs: seq<seq<byte>>)
    requires WithPads(bs) == WithPads(cs) && |bs| <= |cs|
    ensures bs == cs
  {
    if |bs| < |cs| {
      LevelCell(bs, |bs|);
      LevelCell(cs, |bs|);
    }
    forall k | 0 <= k < |bs| ensures bs[k] == cs[k] {
      LevelCell(bs, k);
      LevelCell(cs, k);
      assert LeafPreimage(bs[k])[1..] == bs[k] && LeafPreimage(cs[k])[1..] == cs[k];
    }
  }

  lemma {:induction false} FlattenSplit(t: nat, n: nat, s: seq<byte>)
    requires t >= 1 && |s| == n * t
    ensures Flatten(Split(t, s)) == s
    decreases n
  {
    if n >= 1 {
      WholeBlocks(t, n);
      FlattenSplit(t, n - 1, s[t..]);
      assert s == s[..t] + s[t..];
    }
  }

  lemma WholeBlocks(t: nat, n: nat)
    requires n >= 1
    ensures n * t == t + (n - 1) * t && (n - 1) * t >= 0
  {
  }

  lemma ZeroPaddedWhole(t: nat, s: seq<byte>) returns (n: nat)
    requires t >= 1
    ensures |ZeroPadded(t, s)| == n * t
  {
    assert |s| == |s| / t * t + |s| % t;
    n := if |s| % t == 0 then |s| / t else |s| / t + 1;
    assert n * t == if |s| % t == 0 then |s| / t * t else |s| / t * t + t;
  }

  lemma LeafLevelShape(t: nat, s: seq<byte>)
    ensures IsPow2(|LeafLevel(t, s)|) && LeafShaped(LeafLevel(t, s))
  {
  }

  /** The pair of preimages that two streams with one root expose. */
  function StreamPair(sha: Hash, t: nat, s: seq<byte>, s': seq<byte>): (seq<byte>, seq<byte>) {
    FindPair(sha, LeafLevel(t, s), LeafLevel(t, s'))
  }

  /** Commitment binding: streams of any two lengths with one root agree after zero-padding to a
      multiple of the leaf width, or `StreamPair` is a sha256d collision. */
  lemma CommitmentBinding(sha: Hash, t: nat, s: seq<byte>, s': seq<byte>)
    requires t >= 1 && MerkleRoot(sha, t, s) == MerkleRoot(sha, t, s')
    ensures ZeroPadded(t, s) == ZeroPadded(t, s') ||
            var (x, y) := StreamPair(sha, t, s, s'); IsCollision(sha, x, y)
  {
    LeafLevelShape(t, s);
    LeafLevelShape(t, s');
    if LeafLevel(t, s) == LeafLevel(t, s') {
      var bs, cs := Split(t, ZeroPadded(t, s)), Split(t, ZeroPadded(t, s'));
      if |bs| <= |cs| { WithPadsInjective(bs, cs); } else { WithPadsInjective(cs, bs); }
      var n := ZeroPaddedWhole(t, s);
      var n' := ZeroPaddedWhole(t, s');
      FlattenSplit(t, n, ZeroPadded(t, s));
      FlattenSplit(t, n', ZeroPadded(t, s'));
    } else {
      TreeBinding(sha, LeafLevel(t, s), LeafLevel(t, s'));
    }
  }

  /** Streams of one length are committed exactly, padding or not. */
  lemma CommitmentBindingSameLength(sha: Hash, t: nat, s: seq<byte>, s': seq<byte>)
    requires t >= 1 && |s| == |s'| && MerkleRoot(sha, t, s) == MerkleRoot(sha, t, s')
    ensures s == s' || var (x, y) := StreamPair(sha, t, s, s'); IsCollision(sha, x, y)
  {
    CommitmentBinding(sha, t, s, s');
    assert ZeroPadded(t, s)[..|s|] == s && ZeroPadded(t, s')[..|s'|] == s';
  }

  /** The leaf width must not be zero: with `T_leaf == 0` all non-empty streams share one root. */
  lemma ZeroLeafWidthBindsNothing(sha: Hash, s: seq<byte>, s': seq<byte>)
    requires s != [] && s' != []
    ensures MerkleRoot(sha, 0, s) == MerkleRoot(sha, 0, s')
    ensures MerkleRoot(sha, 0, [0]) == MerkleRoot(sha, 0, [1]) && [0] != [1]
  {
  }

  // ---------------------------------------------------------------- the accumulator

  lemma {:induction false} FlattenSnoc(bs: seq<seq<byte>>, b: seq<byte>)
    ensures Flatten(bs + [b]) == Flatten(bs) + b
  {
    if bs != [] {
      assert (bs + [b])[1..] == bs[1..] + [b];
      FlattenSnoc(bs[1..], b);
    } else {
      assert bs + [b] == [b] && Flatten([b][1..]) == [];
    }
  }

  lemma {:induction false} FlattenLength(t: nat, bs: seq<seq<byte>>)
    requires forall b :: b in bs ==> |b| == t
    ensures |Flatten(bs)| == |bs| * t
  {
    if bs != [] {
      FlattenLength(t, bs[1..]);
      WholeBlocks(t, |bs|);
    }
  }

  /** Equal-width blocks are the split of their concatenation. */
  lemma {:induction false} SplitFlatten(t: nat, bs: seq<seq<byte>>)
    requires t >= 1 && forall b :: b in bs ==> |b| == t
    ensures Split(t, Flatten(bs)) == bs
  {
    if bs != [] {
      SplitFlatten(t, bs[1..]);
      var s := Flatten(bs);
      assert s[..t] == bs[0] && s[t..] == Flatten(bs[1..]);
      assert Split(t, s) == [bs[0]] + bs[1..];
    }
  }

  function HashAll(sha: Hash, p: seq<seq<byte>>): (r: seq<Digest>)
    ensures |r| == |p|
    ensures forall k :: 0 <= k < |p| ==> r[k] == Sha256d(sha, p[k])
  {
    seq(|p|, k requires 0 <= k < |p| => Sha256d(sha, p[k]))
  }

  lemma HashAllSplit(sha: Hash, p: seq<seq<byte>>, h: nat)
    requires h <= |p|
    ensures HashAll(sha, p)[..h] == HashAll(sha, p[..h])
    ensures HashAll(sha, p)[h..] == HashAll(sha, p[h..])
  {
  }

  /** The same tree, over digests: what the level-by-level fold computes. */
  function DigestTree(sha: Hash, l: seq<Digest>): Digest
    requires IsPow2(|l|)
    decreases |l|
  {
    if |l| == 1 then l[0]
    else HashNode(sha, DigestTree(sha, l[..|l| / 2]), DigestTree(sha, l[|l| / 2..]))
  }

  lemma {:induction false} DigestTreeIsTree(sha: Hash, p: seq<seq<byte>>)
    requires IsPow2(|p|)
    ensures DigestTree(sha, HashAll(sha, p)) == Tree(sha, p)
    decreases |p|
  {
    if |p| > 1 {
      var h := |p| / 2;
      DigestTreeIsTree(sha, p[..h]);
      DigestTreeIsTree(sha, p[h..]);
      HashAllSplit(sha, p, h);
    }
  }

  /** One level of the fold: neighbours hashed in pairs. */
  function PairUp(sha: Hash, l: seq<Digest>): (up: seq<Digest>)
    requires |l| % 2 == 0
    ensures |up| == |l| / 2
    ensures forall k :: 0 <= k < |up| ==> up[k] == HashNode(sha, l[2 * k], l[2 * k + 1])
  {
    seq(|l| / 2, k requires 0 <= k < |l| / 2 => HashNode(sha, l[2 * k], l[2 * k + 1]))
  }

  lemma PairUpSplit(sha: Hash, l: seq<Digest>, g: nat)
    requires |l| % 2 == 0 && 2 * g <= |l|
    ensures PairUp(sha, l)[..g] == PairUp(sha, l[..2 * g])
    ensures PairUp(sha, l)[g..] == PairUp(sha, l[2 * g..])
  {
    forall k | 0 <= k < g ensures PairUp(sha, l)[k] == PairUp(sha, l[..2 * g])[k] {
      assert l[..2 * g][2 * k] == l[2 * k] && l[..2 * g][2 * k + 1] == l[2 * k + 1];
    }
    forall k | 0 <= k < |l| / 2 - g ensures PairUp(sha, l)[g + k] == PairUp(sha, l[2 * g..])[k] {
      assert l[2 * g..][2 * k] == l[2 * (g + k)] && l[2 * g..][2 * k + 1] == l[2 * (g + k) + 1];
    }
  }

  /** Folding one level bottom-up leaves the top-down root unchanged. */
  lemma {:induction false} PairUpKeepsTree(sha: Hash, l: seq<Digest>, h: nat)
    requires |l| == 2 * h && IsPow2(h)
    ensures IsPow2(|l|) && DigestTree(sha, PairUp(sha, l)) == DigestTree(sha, l)
    decreases h
  {
    var left, right := l[..h], l[h..];
    if h > 1 {
      var up := PairUp(sha, l);
      assert DigestTree(sha, up) == HashNode(sha, DigestTree(sha, up[..h / 2]), DigestTree(sha, up[h / 2..]));
      hide PairUp, HashNode;
      PairUpKeepsTree(sha, left, h / 2);
      PairUpKeepsTree(sha, right, h / 2);
      PairUpSplit(sha, l, h / 2);
      assert up[..h / 2] == PairUp(sha, left) && up[h / 2..] == PairUp(sha, right);
    } else {
      assert DigestTree(sha, left) == l[0] && DigestTree(sha, right) == l[1];
    }
  }

  /** `stream` cut into complete leaves and an incomplete one. */
  ghost predicate IsCut(t: nat, blocks: seq<seq<byte>>, partial: seq<byte>, stream: seq<byte>) {
    && (if t == 0 then blocks == [] else |partial| < t)
    && (forall b :: b in blocks ==> |b| == t)
    && stream == Flatten(blocks) + partial
  }

  lemma CutSnoc(t: nat, blocks: seq<seq<byte>>, partial: seq<byte>, stream: seq<byte>, b: byte)
    requires IsCut(t, blocks, partial, stream)
    ensures if |partial| + 1 == t then IsCut(t, blocks + [partial + [b]], [], stream + [b])
            else IsCut(t, blocks, partial + [b], stream + [b])
  {
    assert Flatten(blocks) + (partial + [b]) == stream + [b];
    if |partial| + 1 == t {
      FlattenSnoc(blocks, partial + [b]);
    }
  }

  /** Absorb a byte stream into leaves of `tLeaf` bytes and fold the tree at the end. */
  class Merkle {
    const sha: Hash
    const tLeaf: nat
    var partial: seq<byte>
    var leaves: seq<Digest>
    ghost var stream: seq<byte>         // everything absorbed so far
    ghost var blocks: seq<seq<byte>>    // the complete leaves cut from it

    ghost predicate Valid()
      reads this
    {
      IsCut(tLeaf, blocks, partial, stream) && leaves == HashAll(sha, LeafPreimages(blocks))
    }

    constructor (sha: Hash, tLeaf: nat)
      ensures Valid() && stream == []
      ensures this.sha == sha && this.tLeaf == tLeaf
    {
      this.sha, this.tLeaf := sha, tLeaf;
      partial, leaves := [], [];
      stream, blocks := [], [];
    }

    method AbsorbByte(b: byte)
      requires Valid()
      modifies this
      ensures Valid() && stream == old(stream) + [b]
    {
      CutSnoc(tLeaf, blocks, partial, stream, b);
      partial := partial + [b];
      stream := stream + [b];
      if |partial| == tLeaf {
        HashAllSnoc(sha, blocks, partial);
        leaves := leaves + [HashLeaf(sha, partial)];
        blocks := blocks + [partial];
        partial := [];
      }
    }

    method Absorb(v: seq<i8>)
      requires Valid()
      modifies this
      ensures Valid() && stream == old(stream) + U8s(v)
    {
      ghost var all := U8s(v);
      for k := 0 to |v|
        invariant Valid() && stream == old(stream) + all[..k]
      {
        AbsorbByte(U8(v[k]));
        AppendSnoc(old(stream), all, k);
      }
      WholePrefix(all);
    }

    /** Zero-extend an incomplete last leaf and hash it. */
    method FlushPartial()
      requires Valid()
      modifies this
      ensures leaves == HashAll(sha, LeafPreimages(blocks))
      ensures LeafLevel(tLeaf, old(stream)) == WithPads(blocks)
    {
      hide LeafLevel, WithPads, IsPow2;
      FlushedLevel(tLeaf, stream, blocks, partial);
      if partial != [] {
        var block := ZeroExtended(tLeaf, partial);
        HashAllSnoc(sha, blocks, block);
        leaves := leaves + [HashLeaf(sha, block)];
        blocks := blocks + [block];
        partial := [];
      }
    }

    /** The root of everything absorbed. The accumulator is spent afterwards. */
    method FinalizeRoot() returns (root: Digest)
      requires Valid()
      modifies this
      ensures root == MerkleRoot(sha, tLeaf, old(stream))
    {
      FlushPartial();
      leaves := PadLeaves(sha, leaves, blocks);
      DigestTreeIsTree(sha, WithPads(blocks));
      root := FoldLevels(sha, leaves);
    }
  }

  lemma HashAllSnoc(sha: Hash, bs: seq<seq<byte>>, b: seq<byte>)
    ensures HashAll(sha, LeafPreimages(bs + [b])) == HashAll(sha, LeafPreimages(bs)) + [HashLeaf(sha, b)]
  {
  }

  /** Extend the leaf hashes to a power of two with the pad leaf. */
  method PadLeaves(sha: Hash, complete: seq<Digest>, ghost blocks: seq<seq<byte>>)
    returns (leaves: seq<Digest>)
    requires complete == HashAll(sha, LeafPreimages(blocks))
    ensures leaves == HashAll(sha, WithPads(blocks))
  {
    leaves := complete;
    if leaves == [] {
      leaves := [PadLeafHash(sha)];
    }
    var target := 1;
    while target < |leaves|
      invariant IsPow2(target) && NextPow2(target, |leaves|) == NextPow2(1, |leaves|)
      decreases |leaves| - target
    {
      target := 2 * target;
    }
    ghost var all := HashAll(sha, WithPads(blocks));
    assert |all| == target;
    while |leaves| < target
      invariant |blocks| <= |leaves| <= target && leaves == all[..|leaves|]
      decreases target - |leaves|
    {
      PrefixSnoc(all, |leaves|);
      leaves := leaves + [PadLeafHash(sha)];
    }
    WholePrefix(all);
  }

  method FoldLevels(sha: Hash, leaves: seq<Digest>) returns (root: Digest)
    requires IsPow2(|leaves|)
    ensures root == DigestTree(sha, leaves)
  {
    var lvl := leaves;
    while |lvl| > 1
      invariant IsPow2(|lvl|) && DigestTree(sha, lvl) == DigestTree(sha, leaves)
      decreases |lvl|
    {
      PairUpKeepsTree(sha, lvl, |lvl| / 2);
      lvl := FoldOneLevel(sha, lvl);
    }
    root := lvl[0];
  }

  method FoldOneLevel(sha: Hash, lvl: seq<Digest>) returns (up: seq<Digest>)
    requires |lvl| % 2 == 0
    ensures up == PairUp(sha, lvl)
  {
    up := [];
    var i := 0;
    while i < |lvl|
      invariant 0 <= i <= |lvl| && i == 2 * |up|
      invariant up == PairUp(sha, lvl)[..|up|]
    {
      PrefixSnoc(PairUp(sha, lvl), |up|);
      up := up + [HashNode(sha, lvl[i], lvl[i + 1])];
      i := i + 2;
    }
    WholePrefix(PairUp(sha, lvl));
  }

  /** The incomplete leaf, resized to the leaf width. */
  function ZeroExtended(t: nat, partial: seq<byte>): seq<byte> {
    if |partial| <= t then partial + Zeros(t - |partial|) else partial[..t]
  }

  lemma FlushedLevel(t: nat, s: seq<byte>, blocks: seq<seq<byte>>, partial: seq<byte>)
    requires IsCut(t, blocks, partial, s)
    ensures LeafLevel(t, s) == WithPads(if partial == [] then blocks else blocks + [ZeroExtended(t, partial)])
  {
    if t == 0 {
      assert s == partial;
      assert partial[..0] == [] && blocks + [[]] == [[]];
    } else {
      SplitFlatten(t, blocks);
      FlattenLength(t, blocks);
      DivModUnique(|s|, |blocks|, |partial|, t);
      if partial == [] {
        assert ZeroPadded(t, s) == Flatten(blocks);
      } else {
        var last := ZeroExtended(t, partial);
        FlattenSnoc(blocks, last);
        assert ZeroPadded(t, s) == Flatten(blocks) + last;
        SplitFlatten(t, blocks + [last]);
      }
    }
  }
}
