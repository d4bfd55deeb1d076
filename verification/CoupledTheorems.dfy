/** What a coupled digest commits to: the bank, and the state after every barrier. */
module CoupledTheorems {
  import opened Arith
  import opened Bytes
  import opened Schedule
  import opened Coupled
  import opened Seeds
  import EpisodeTheorems

  // ---------------------------------------------------------------- the bank

  /** All pages one after the other. */
  function BankBytes(pages: seq<seq<i8>>): seq<byte> {
    if pages == [] then [] else BankBytes(pages[..|pages| - 1]) + U8s(pages[|pages| - 1])
  }

  function BankPreimage(pages: seq<seq<i8>>): seq<byte> { Ascii(BANK_TAG) + BankBytes(pages) }

  /** `bank_commitment`, the pages streamed into the hash in order. */
  method BankCommitment(sha: Hash, pages: seq<seq<i8>>) returns (root: Digest)
    ensures root == Sha256d(sha, BankPreimage(pages))
  {
    var written := Ascii(BANK_TAG);
    assert written + [] == written;
    for i := 0 to |pages|
      invariant written == BankPreimage(pages[..i])
    {
      assert pages[..i + 1][..i] == pages[..i];
      ConcatAssoc(Ascii(BANK_TAG), BankBytes(pages[..i]), U8s(pages[i]));
      written := written + U8s(pages[i]);
    }
    WholePrefix(pages);
    root := Sha256d(sha, written);
  }

  lemma LastEqual<T>(a: seq<T>, x: seq<T>, b: seq<T>, y: seq<T>)
    requires a + x == b + y && |x| == |y|
    ensures a == b && x == y
  {
    assert |a| == |b|;
    SplitEqual(a, x, b, y);
  }

  lemma {:induction false} BankBytesInjective(a: seq<seq<i8>>, b: seq<seq<i8>>)
    requires |a| == |b| && BankBytes(a) == BankBytes(b) && forall i :: 0 <= i < |a| ==> |a[i]| == |b[i]|
    ensures a == b
    decreases |a|
  {
    if a != [] {
      var n := |a| - 1;
      LastEqual(BankBytes(a[..n]), U8s(a[n]), BankBytes(b[..n]), U8s(b[n]));
      U8sInjective(a[n], b[n]);
      BankBytesInjective(a[..n], b[..n]);
      assert a == a[..n] + [a[n]] && b == b[..n] + [b[n]];
    }
  }

  /** Two banks of one shape with one commitment are the same bank, or their preimages collide. */
  lemma BankBinding(sha: Hash, p: CoupParams, a: seq<seq<i8>>, b: seq<seq<i8>>)
    requires GoodPages(a, p) && GoodPages(b, p) && Sha256d(sha, BankPreimage(a)) == Sha256d(sha, BankPreimage(b))
    ensures a == b || IsCollision(sha, BankPreimage(a), BankPreimage(b))
  {
    if BankPreimage(a) == BankPreimage(b) {
      SplitEqual(Ascii(BANK_TAG), BankBytes(a), Ascii(BANK_TAG), BankBytes(b));
      BankBytesInjective(a, b);
    }
  }

  // ---------------------------------------------------------------- the digest

  function BarrierPreimage(b: nat, state: seq<i8>): seq<byte> { Ascii(BARRIER_TAG) + LittleEndian(b, 4) + U8s(state) }

  function DigestPreimage(bankRoot: Digest, roots: seq<Digest>): seq<byte> {
    Ascii(COUPLED_EPISODE_TAG) + bankRoot + Joined(roots)
  }

  /** The pair two runs with one digest expose: the root lists, or the first barrier whose states differ. */
  function CoupledPair(sha: Hash, root: Digest, ss: seq<seq<i8>>, root': Digest, ts: seq<seq<i8>>, b: nat)
    : (seq<byte>, seq<byte>)
    requires 1 <= |ss| == |ts| && 1 <= b <= |ss|
    decreases |ss| - b
  {
    var x, y := DigestPreimage(root, BarrierRoots(sha, ss)), DigestPreimage(root', BarrierRoots(sha, ts));
    if b == |ss| || x != y then (x, y)
    else if ss[b] != ts[b] then (BarrierPreimage(b - 1, ss[b]), BarrierPreimage(b - 1, ts[b]))
    else CoupledPair(sha, root, ss, root', ts, b + 1)
  }

  lemma PreimageBinds(root: Digest, roots: seq<Digest>, root': Digest, roots': seq<Digest>)
    requires |roots| == |roots'| && DigestPreimage(root, roots) == DigestPreimage(root', roots')
    ensures root == root' && roots == roots'
  {
    var tag := Ascii(COUPLED_EPISODE_TAG);
    ConcatAssoc(tag, root, Joined(roots));
    ConcatAssoc(tag, root', Joined(roots'));
    SplitEqual(tag, root + Joined(roots), tag, root' + Joined(roots'));
    EpisodeTheorems.JoinedLength(roots);
    EpisodeTheorems.JoinedLength(roots');
    SplitEqual(root, Joined(roots), root', Joined(roots'));
    EpisodeTheorems.JoinedInjective(roots, roots');
  }

  lemma BarrierBinds(sha: Hash, b: nat, s: seq<i8>, t: seq<i8>)
    requires BarrierRoot(sha, b, s) == BarrierRoot(sha, b, t) && |s| == |t|
    ensures s == t || IsCollision(sha, BarrierPreimage(b, s), BarrierPreimage(b, t))
  {
    if BarrierPreimage(b, s) == BarrierPreimage(b, t) {
      SplitEqual(Ascii(BARRIER_TAG) + LittleEndian(b, 4), U8s(s), Ascii(BARRIER_TAG) + LittleEndian(b, 4), U8s(t));
      U8sInjective(s, t);
    }
  }

  /** A barrier's root belongs to its number too. */
  lemma BarrierRootBinds(sha: Hash, b: nat, s: seq<i8>, c: nat, t: seq<i8>)
    requires b < W32 && c < W32 && |s| == |t| && BarrierRoot(sha, b, s) == BarrierRoot(sha, c, t)
    ensures (b == c && s == t) || IsCollision(sha, BarrierPreimage(b, s), BarrierPreimage(c, t))
  {
    var tag, x, y := Ascii(BARRIER_TAG), LittleEndian(b, 4), LittleEndian(c, 4);
    if BarrierPreimage(b, s) == BarrierPreimage(c, t) {
      SplitEqual(tag + x, U8s(s), tag + y, U8s(t));
      SplitEqual(tag, x, tag, y);
      Words32And64();
      LittleEndianInjective(b, c, 4);
      U8sInjective(s, t);
    }
  }

  lemma {:induction false} StatesBind(sha: Hash, root: Digest, ss: seq<seq<i8>>, root': Digest, ts: seq<seq<i8>>, b: nat)
    requires 1 <= |ss| == |ts| && 1 <= b <= |ss| && BarrierRoots(sha, ss) == BarrierRoots(sha, ts) && root == root'
    requires forall k :: 0 <= k < |ss| ==> |ss[k]| == |ts[k]|
    requires forall k :: 1 <= k < b ==> ss[k] == ts[k]
    ensures ss[1..] == ts[1..] || var (x, y) := CoupledPair(sha, root, ss, root', ts, b); IsCollision(sha, x, y)
    decreases |ss| - b
  {
    hide IsCollision, BarrierRoot;
    if b < |ss| {
      assert BarrierRoots(sha, ss)[b - 1] == BarrierRoots(sha, ts)[b - 1];
      if ss[b] == ts[b] {
        StatesBind(sha, root, ss, root', ts, b + 1);
      } else {
        BarrierBinds(sha, b - 1, ss[b], ts[b]);
      }
    }
  }

  /** Coupled binding: two runs of one shape with one digest used the same bank root and passed through the
      same state after every barrier, or `CoupledPair` is a sha256d collision. */
  lemma CoupledBinding(sha: Hash, root: Digest, ss: seq<seq<i8>>, root': Digest, ts: seq<seq<i8>>)
    requires 1 <= |ss| == |ts| && forall k :: 0 <= k < |ss| ==> |ss[k]| == |ts[k]|
    requires CoupledDigest(sha, root, BarrierRoots(sha, ss)) == CoupledDigest(sha, root', BarrierRoots(sha, ts))
    ensures (root == root' && ss[1..] == ts[1..]) ||
            var (x, y) := CoupledPair(sha, root, ss, root', ts, 1); IsCollision(sha, x, y)
  {
    var a, b := BarrierRoots(sha, ss), BarrierRoots(sha, ts);
    hide BarrierRoots;
    if DigestPreimage(root, a) == DigestPreimage(root', b) {
      PreimageBinds(root, a, root', b);
      StatesBind(sha, root, ss, root', ts, 1);
    }
  }
}
