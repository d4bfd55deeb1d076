/** The shuffle as a function of its draws: which draws lead to which permutation. */
module Draws {
  import opened Bytes
  import opened Permutation
  import opened Xof

  /** A list of draws for `n` places: draw `k` is below `n - k`. */
  predicate AreDraws(d: seq<nat>, n: nat) {
    n >= 1 && |d| == n - 1 && forall k :: 0 <= k < |d| ==> d[k] < n - k
  }

  /** Word `k` of the generator leaves draw `k` modulo `n - k`. */
  ghost predicate Follows(sha: Hash, seed: Digest, n: nat, d: seq<nat>) {
    AreDraws(d, n) && forall k: nat :: k < |d| ==> Leaves(sha, seed, n, d, k)
  }

  predicate Leaves(sha: Hash, seed: Digest, n: nat, d: seq<nat>, k: nat)
    requires k < |d| < n
  {
    WordAt(sha, seed, k) % (n - k) == d[k]
  }

  // ---------------------------------------------------------------- from draws to permutations

  /** Position `i` takes the lane drawn, then the positions below it. */
  function DrawnFrom(s: seq<nat>, i: nat, d: seq<nat>): (r: seq<nat>)
    requires i < |s| && |d| == i && forall k :: 0 <= k < i ==> d[k] < i + 1 - k
    ensures |r| == |s|
    decreases i
  {
    if i == 0 then s else DrawnFrom(Swap(s, i, d[0]), i - 1, d[1..])
  }

  function Drawn(n: nat, d: seq<nat>): (r: seq<nat>)
    requires AreDraws(d, n)
    ensures |r| == n
  {
    DrawnFrom(Identity(n), n - 1, d)
  }

  lemma {:induction false} FollowedFrom(sha: Hash, seed: Digest, s: seq<nat>, i: nat, d: seq<nat>)
    requires i < |s| && |d| == i && forall k :: 0 <= k < i ==> d[k] < i + 1 - k
    requires forall k :: 0 <= k < i ==> WordAt(sha, seed, |s| - 1 - i + k) % (i + 1 - k) == d[k]
    ensures ShuffleFrom(sha, seed, s, i) == DrawnFrom(s, i, d)
    decreases i
  {
    hide WordAt, Swap;
    if i > 0 {
      assert WordAt(sha, seed, |s| - 1 - i + 0) % (i + 1 - 0) == d[0];
      forall k | 0 <= k < i - 1
        ensures d[1..][k] < i - k && WordAt(sha, seed, |s| - 1 - (i - 1) + k) % (i - k) == d[1..][k]
      {
        assert WordAt(sha, seed, |s| - 1 - i + (k + 1)) % (i + 1 - (k + 1)) == d[k + 1];
      }
      FollowedFrom(sha, seed, Swap(s, i, d[0]), i - 1, d[1..]);
    }
  }

  /** The generator only matters through what its words leave: a shuffle that follows `d` is `Drawn(d)`. */
  lemma ShuffleFollows(sha: Hash, seed: Digest, n: nat, d: seq<nat>)
    requires Follows(sha, seed, n, d)
    ensures Shuffled(sha, seed, n) == Drawn(n, d)
  {
    hide WordAt;
    forall k | 0 <= k < n - 1 ensures WordAt(sha, seed, |Identity(n)| - 1 - (n - 1) + k) % (n - 1 + 1 - k) == d[k] {
      assert Leaves(sha, seed, n, d, k);
    }
    FollowedFrom(sha, seed, Identity(n), n - 1, d);
  }

  /** Every generator follows some list of draws. */
  function DrawsOf(sha: Hash, seed: Digest, n: nat): (d: seq<nat>)
    requires n >= 1
    ensures AreDraws(d, n)
  {
    seq<nat>(n - 1, k requires 0 <= k < n - 1 => WordAt(sha, seed, k) % (n - k))
  }

  lemma DrawsFollowed(sha: Hash, seed: Digest, n: nat)
    requires n >= 1
    ensures Follows(sha, seed, n, DrawsOf(sha, seed, n))
  {
  }

  // ---------------------------------------------------------------- and back

  /** Where `x` stands. */
  function Place(s: seq<nat>, x: nat): (j: nat)
    requires x in s
    ensures j < |s| && s[j] == x
  {
    if s[0] == x then 0 else 1 + Place(s[1..], x)
  }

  /** Two arrangements of `n` lanes that agree above position `i`. */
  ghost predicate AgreeAbove(s: seq<nat>, pi: seq<nat>, i: nat) {
    IsPerm(s, |pi|) && IsPerm(pi, |pi|) && i < |pi| && forall k :: i < k < |pi| ==> s[k] == pi[k]
  }

  /** What position `i` has to hold stands at `i` or below. */
  lemma PlaceBelow(s: seq<nat>, pi: seq<nat>, i: nat)
    requires AgreeAbove(s, pi, i)
    ensures pi[i] in s && Place(s, pi[i]) <= i
  {
    assert pi[i] in s;
    assert forall k :: i < k < |pi| ==> s[k] == pi[k] != pi[i];
  }

  lemma SwapAgrees(s: seq<nat>, pi: seq<nat>, i: nat)
    requires AgreeAbove(s, pi, i) && i > 0
    ensures pi[i] in s && AgreeAbove(Swap(s, i, Place(s, pi[i])), pi, i - 1)
  {
    PlaceBelow(s, pi, i);
    SwapIsPerm(s, i, Place(s, pi[i]), |pi|);
    hide IsPerm;
  }

  /** The draws that turn `s` into `pi` below position `i`. */
  ghost function DrawsTo(s: seq<nat>, pi: seq<nat>, i: nat): (d: seq<nat>)
    requires AgreeAbove(s, pi, i)
    ensures |d| == i && forall k :: 0 <= k < i ==> d[k] < i + 1 - k
    decreases i
  {
    if i == 0 then [] else
      PlaceBelow(s, pi, i);
      SwapAgrees(s, pi, i);
      [Place(s, pi[i])] + DrawsTo(Swap(s, i, Place(s, pi[i])), pi, i - 1)
  }

  lemma LastPlace(s: seq<nat>, pi: seq<nat>)
    requires AgreeAbove(s, pi, 0)
    ensures s == pi
  {
    PlaceBelow(s, pi, 0);
  }

  lemma {:induction false} DrawsReach(s: seq<nat>, pi: seq<nat>, i: nat)
    requires AgreeAbove(s, pi, i)
    ensures DrawnFrom(s, i, DrawsTo(s, pi, i)) == pi
    decreases i
  {
    if i == 0 {
      LastPlace(s, pi);
    } else {
      PlaceBelow(s, pi, i);
      SwapAgrees(s, pi, i);
      var j := Place(s, pi[i]);
      DrawsReach(Swap(s, i, j), pi, i - 1);
      assert ([j] + DrawsTo(Swap(s, i, j), pi, i - 1))[1..] == DrawsTo(Swap(s, i, j), pi, i - 1);
      hide Swap, Place, AgreeAbove;
    }
  }

  /** A drawing from `i` down leaves the positions above `i` alone. */
  lemma {:induction false} AboveStays(s: seq<nat>, i: nat, d: seq<nat>, k: nat)
    requires i < k < |s| && |d| == i && forall m :: 0 <= m < i ==> d[m] < i + 1 - m
    ensures DrawnFrom(s, i, d)[k] == s[k]
    decreases i
  {
    if i > 0 { AboveStays(Swap(s, i, d[0]), i - 1, d[1..], k); }
  }

  /** Different draws reach different arrangements. */
  lemma {:induction false} DrawsUnique(s: seq<nat>, i: nat, d: seq<nat>, e: seq<nat>)
    requires IsPerm(s, |s|) && i < |s| && |d| == |e| == i
    requires forall k :: 0 <= k < i ==> d[k] < i + 1 - k && e[k] < i + 1 - k
    requires DrawnFrom(s, i, d) == DrawnFrom(s, i, e)
    ensures d == e
    decreases i
  {
    if i > 0 {
      AboveStays(Swap(s, i, d[0]), i - 1, d[1..], i);
      AboveStays(Swap(s, i, e[0]), i - 1, e[1..], i);
      assert s[d[0]] == s[e[0]];
      SwapIsPerm(s, i, d[0], |s|);
      DrawsUnique(Swap(s, i, d[0]), i - 1, d[1..], e[1..]);
      assert d == [d[0]] + d[1..] && e == [e[0]] + e[1..];
    }
  }

  // ---------------------------------------------------------------- the shuffle is onto and one-to-one

  /** For every permutation there is exactly one list of draws under which the shuffle returns it: a
      generator yields `pi` if and only if word `k` leaves that draw modulo `n - k`, for every `k`. */
  lemma ShuffleHits(pi: seq<nat>) returns (d: seq<nat>)
    requires |pi| >= 1 && IsPerm(pi, |pi|)
    ensures AreDraws(d, |pi|)
    ensures forall sha: Hash, seed: Digest :: Shuffled(sha, seed, |pi|) == pi <==> Follows(sha, seed, |pi|, d)
    ensures forall e: seq<nat> :: AreDraws(e, |pi|) && Drawn(|pi|, e) == pi ==> e == d
  {
    hide *;
    d := DrawsFor(pi);
    DrawnIsPerm(|pi|, d);
    forall sha: Hash, seed: Digest ensures Shuffled(sha, seed, |pi|) == pi <==> Follows(sha, seed, |pi|, d) {
      HitIff(sha, seed, pi, d);
    }
  }

  lemma DrawsFor(pi: seq<nat>) returns (d: seq<nat>)
    requires |pi| >= 1 && IsPerm(pi, |pi|)
    ensures AreDraws(d, |pi|) && Drawn(|pi|, d) == pi
  {
    var n := |pi|;
    IdentityIsPerm(n);
    assert AgreeAbove(Identity(n), pi, n - 1);
    d := DrawsTo(Identity(n), pi, n - 1);
    DrawsReach(Identity(n), pi, n - 1);
    hide IsPerm, AgreeAbove, DrawnFrom;
  }

  lemma HitIff(sha: Hash, seed: Digest, pi: seq<nat>, d: seq<nat>)
    requires |pi| >= 1 && AreDraws(d, |pi|) && Drawn(|pi|, d) == pi
    requires forall e: seq<nat> :: AreDraws(e, |pi|) && Drawn(|pi|, e) == pi ==> e == d
    ensures Shuffled(sha, seed, |pi|) == pi <==> Follows(sha, seed, |pi|, d)
  {
    var n := |pi|;
    hide *;
    if Follows(sha, seed, n, d) { ShuffleFollows(sha, seed, n, d); }
    IsDrawn(sha, seed, n);
  }

  /** What a generator yields, by its own draws. */
  lemma IsDrawn(sha: Hash, seed: Digest, n: nat)
    requires n >= 1
    ensures var e := DrawsOf(sha, seed, n);
      AreDraws(e, n) && Follows(sha, seed, n, e) && Shuffled(sha, seed, n) == Drawn(n, e)
  {
    DrawsFollowed(sha, seed, n);
    ShuffleFollows(sha, seed, n, DrawsOf(sha, seed, n));
  }

  lemma IdentityIsPerm(n: nat)
    requires n >= 1
    ensures IsPerm(Identity(n), n)
  {
    forall p | 0 <= p < n ensures p in Identity(n) {
      assert Identity(n)[p] == p;
    }
  }

  /** Every list of draws yields a permutation, and it is the one list that does. */
  lemma DrawnIsPerm(n: nat, d: seq<nat>)
    requires AreDraws(d, n)
    ensures IsPerm(Drawn(n, d), n)
    ensures forall e: seq<nat> :: AreDraws(e, n) && Drawn(n, e) == Drawn(n, d) ==> e == d
  {
    IdentityIsPerm(n);
    DrawnFromIsPerm(Identity(n), n - 1, d);
    hide IsPerm, DrawnFrom;
    forall e: seq<nat> | AreDraws(e, n) && Drawn(n, e) == Drawn(n, d) ensures e == d {
      DrawsUnique(Identity(n), n - 1, e, d);
    }
  }

  lemma {:induction false} DrawnFromIsPerm(s: seq<nat>, i: nat, d: seq<nat>)
    requires IsPerm(s, |s|) && i < |s| && |d| == i && forall k :: 0 <= k < i ==> d[k] < i + 1 - k
    ensures IsPerm(DrawnFrom(s, i, d), |s|)
    decreases i
  {
    hide IsPerm, Swap;
    if i > 0 {
      SwapIsPerm(s, i, d[0], |s|);
      DrawnFromIsPerm(Swap(s, i, d[0]), i - 1, d[1..]);
    }
  }

  /** A generator whose words leave `n - 1 - k` modulo `n - k` moves nothing. */
  lemma NothingMoves(sha: Hash, seed: Digest, n: nat)
    requires n >= 1 && forall k: nat :: k < n - 1 ==> WordAt(sha, seed, k) % (n - k) == n - 1 - k
    ensures Shuffled(sha, seed, n) == Identity(n)
  {
    var d := seq<nat>(n - 1, k requires 0 <= k < n - 1 => n - 1 - k);
    hide WordAt;
    ShuffleFollows(sha, seed, n, d);
    StandsStill(Identity(n), n - 1, d);
  }

  lemma {:induction false} StandsStill(s: seq<nat>, i: nat, d: seq<nat>)
    requires i < |s| && |d| == i && forall k :: 0 <= k < i ==> d[k] == i - k
    ensures DrawnFrom(s, i, d) == s
    decreases i
  {
    if i > 0 {
      assert Swap(s, i, d[0]) == s;
      StandsStill(s, i - 1, d[1..]);
    }
  }
}
