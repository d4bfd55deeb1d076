/** Audit paths: every block of a stream is tied to the root by its position. */
module MerklePath {
  import opened Arith
  import opened Bits
  import opened Bytes
  import opened Merkle

  /** The digest reached from a leaf hash by a path of siblings. Bit `k` of the position says on which side
      sibling `k` stands; a node is hashed from the byte 1 and its two halves. */
  function Climb(sha: Hash, leaf: Digest, pos: nat, path: seq<Digest>): Digest
    decreases |path|
  {
    if path == [] then leaf else
      var up := if pos % 2 == 0 then Sha256d(sha, [1] + leaf + path[0]) else Sha256d(sha, [1] + path[0] + leaf);
      Climb(sha, up, pos / 2, path[1..])
  }

  /** The siblings on the way from leaf `pos` to the root. */
  function PathOf(sha: Hash, p: seq<seq<byte>>, pos: nat): (path: seq<Digest>)
    requires IsPow2(|p|) && pos < |p|
    ensures Pow2(|path|) == |p|
    decreases |p|
  {
    if |p| == 1 then [] else
      var h := |p| / 2;
      if pos < h then PathOf(sha, p[..h], pos) + [Tree(sha, p[h..])] else PathOf(sha, p[h..], pos - h) + [Tree(sha, p[..h])]
  }

  /** One more sibling, at the top: its side is the bit of the position above those already used. */
  lemma {:induction false} ClimbSnoc(sha: Hash, leaf: Digest, pos: nat, path: seq<Digest>, top: Digest)
    ensures Climb(sha, leaf, pos, path + [top]) ==
      var below := Climb(sha, leaf, pos, path);
      if BitAt(pos, |path|) == 0 then Sha256d(sha, [1] + below + top) else Sha256d(sha, [1] + top + below)
    decreases |path|
  {
    hide Sha256d;
    if path == [] {
      assert Climb(sha, leaf, pos, []) == leaf && ([] + [top])[1..] == [];
      BitStep(pos, 0);
    } else {
      var up := if pos % 2 == 0 then Sha256d(sha, [1] + leaf + path[0]) else Sha256d(sha, [1] + path[0] + leaf);
      ClimbSnoc(sha, up, pos / 2, path[1..], top);
      BitStep(pos, |path| - 1);
      assert (path + [top])[1..] == path[1..] + [top] && (path + [top])[0] == path[0];
      hide BitAt;
    }
  }

  /** Only the low bits of the position matter. */
  lemma {:induction false} ClimbLow(sha: Hash, leaf: Digest, pos: nat, path: seq<Digest>)
    ensures Climb(sha, leaf, pos + Pow2(|path|), path) == Climb(sha, leaf, pos, path)
    decreases |path|
  {
    hide Sha256d;
    if path != [] {
      var up := if pos % 2 == 0 then Sha256d(sha, [1] + leaf + path[0]) else Sha256d(sha, [1] + path[0] + leaf);
      assert Pow2(|path|) == 2 * Pow2(|path[1..]|);
      assert (pos + Pow2(|path|)) % 2 == pos % 2 && (pos + Pow2(|path|)) / 2 == pos / 2 + Pow2(|path[1..]|);
      ClimbLow(sha, up, pos / 2, path[1..]);
      hide Pow2;
    }
  }

  /** Bit `k` of a number below `2^(k + 1)` says whether it reaches `2^k`. */
  lemma TopBit(pos: nat, k: nat)
    requires pos < 2 * Pow2(k)
    ensures BitAt(pos, k) == if pos < Pow2(k) then 0 else 1
  {
    if pos < Pow2(k) { DivModUnique(pos, 0, pos, Pow2(k)); } else { DivModUnique(pos, 1, pos - Pow2(k), Pow2(k)); }
  }

  /** Up from one half: the path inside it, then the root of the other. */
  lemma TopStep(sha: Hash, leaf: Digest, pos: nat, path: seq<Digest>, h: nat, below: Digest, other: Digest)
    requires h == Pow2(|path|) && pos < 2 * h
    requires Climb(sha, leaf, if pos < h then pos else pos - h, path) == below
    ensures Climb(sha, leaf, pos, path + [other]) ==
      if pos < h then Sha256d(sha, [1] + below + other) else Sha256d(sha, [1] + other + below)
  {
    hide *;
    TopBit(pos, |path|);
    ClimbSnoc(sha, leaf, pos, path, other);
    if pos >= h { ClimbLow(sha, leaf, pos - h, path); }
  }

  lemma Halves(sha: Hash, p: seq<seq<byte>>, pos: nat)
    requires IsPow2(|p|) && pos < |p| && |p| > 1
    ensures var h := |p| / 2;
      && |p| == 2 * h && IsPow2(h) && |p[..h]| == |p[h..]| == h
      && Tree(sha, p) == Sha256d(sha, [1] + Tree(sha, p[..h]) + Tree(sha, p[h..]))
      && PathOf(sha, p, pos) ==
           (if pos < h then PathOf(sha, p[..h], pos) + [Tree(sha, p[h..])]
            else PathOf(sha, p[h..], pos - h) + [Tree(sha, p[..h])])
  {
    hide Sha256d;
  }

  /** From any leaf its path leads to the root of the tree. */
  lemma {:induction false} PathReachesRoot(sha: Hash, p: seq<seq<byte>>, pos: nat)
    requires IsPow2(|p|) && pos < |p|
    ensures Climb(sha, Sha256d(sha, p[pos]), pos, PathOf(sha, p, pos)) == Tree(sha, p)
    decreases |p|
  {
    if |p| > 1 {
      var h := |p| / 2;
      Halves(sha, p, pos);
      hide *;
      var l, r := p[..h], p[h..];
      if pos < h {
        PathReachesRoot(sha, l, pos);
        TopStep(sha, Sha256d(sha, p[pos]), pos, PathOf(sha, l, pos), h, Tree(sha, l), Tree(sha, r));
      } else {
        PathReachesRoot(sha, r, pos - h);
        TopStep(sha, Sha256d(sha, p[pos]), pos, PathOf(sha, r, pos - h), h, Tree(sha, r), Tree(sha, l));
      }
    }
  }

  /** Block `j` of a stream, zero-extended at its end, leads to the root of the stream from place `j`: its
      leaf is hashed from the byte 0 and the block. */
  lemma BlockReachesRoot(sha: Hash, t: nat, s: seq<byte>, j: nat) returns (path: seq<Digest>)
    requires t >= 1 && j * t >= 0 && j * t + t <= |ZeroPadded(t, s)|
    ensures Climb(sha, Sha256d(sha, [0] + ZeroPadded(t, s)[j * t..j * t + t]), j, path) == MerkleRoot(sha, t, s)
  {
    var padded := ZeroPadded(t, s);
    var bs := Split(t, padded);
    BlockOfSplit(t, padded, j, j * t);
    LevelCell(bs, j);
    path := PathOf(sha, LeafLevel(t, s), j);
    PathReachesRoot(sha, LeafLevel(t, s), j);
    hide Climb, Tree, ZeroPadded, Sha256d, PathOf, Split, WithPads;
  }

  lemma {:induction false} BlockOfSplit(t: nat, s: seq<byte>, j: nat, at: nat)
    requires t >= 1 && at == j * t && at + t <= |s|
    ensures j < |Split(t, s)| && Split(t, s)[j] == s[at..at + t]
    decreases |s|
  {
    assert Split(t, s) == [s[..t]] + Split(t, s[t..]);
    hide Split;
    if j > 0 {
      Earlier(j, t);
      BlockOfSplit(t, s[t..], j - 1, at - t);
      assert s[t..][at - t..at] == s[at..at + t];
    }
  }

  lemma Earlier(j: nat, t: nat)
    requires j > 0
    ensures (j - 1) * t == j * t - t && j * t >= t
  {
  }
}
