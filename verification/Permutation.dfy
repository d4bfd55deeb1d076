/** Fisher-Yates over the word stream, the scatter that applies it, and its inverse. */
module Permutation {
  import opened Bytes
  import opened Xof

  /** A permutation of [0, n). */
  ghost predicate IsPerm(pi: seq<nat>, n: nat) {
    && |pi| == n
    && (forall i :: 0 <= i < n ==> pi[i] < n)
    && (forall i, j :: 0 <= i < j < n ==> pi[i] != pi[j])
    && (forall p :: 0 <= p < n ==> p in pi)
  }

  function Identity(n: nat): seq<nat> { seq(n, i requires i >= 0 => i) }

  function Swap(s: seq<nat>, i: nat, j: nat): (t: seq<nat>)
    requires i < |s| && j < |s|
    ensures |t| == |s|
  {
    s[i := s[j]][j := s[i]]
  }

  /** The shuffle from position `i` down to 1; the word with index `|s| - 1 - i` decides step `i`. */
  function ShuffleFrom(sha: Hash, seed: Digest, s: seq<nat>, i: nat): (r: seq<nat>)
    requires i < |s|
    ensures |r| == |s|
    decreases i
  {
    if i == 0 then s
    else ShuffleFrom(sha, seed, Swap(s, i, WordAt(sha, seed, |s| - 1 - i) % (i + 1)), i - 1)
  }

  /** The whole shuffle of `n` positions. */
  function Shuffled(sha: Hash, seed: Digest, n: nat): (r: seq<nat>)
    requires n >= 1
    ensures |r| == n
  {
    ShuffleFrom(sha, seed, Identity(n), n - 1)
  }

  lemma SwapIsPerm(s: seq<nat>, i: nat, j: nat, n: nat)
    requires IsPerm(s, n) && i < n && j < n
    ensures IsPerm(Swap(s, i, j), n)
  {
    var t := Swap(s, i, j);
    forall p | 0 <= p < n ensures p in t {
      assert p in s;
      var a :| 0 <= a < n && s[a] == p;
      assert t[if a == i then j else if a == j then i else a] == p;
    }
  }

  lemma {:induction false} ShuffleFromIsPerm(sha: Hash, seed: Digest, s: seq<nat>, i: nat)
    requires i < |s| && IsPerm(s, |s|)
    ensures IsPerm(ShuffleFrom(sha, seed, s, i), |s|)
    decreases i
  {
    hide IsPerm, Swap, WordAt;
    if i > 0 {
      var j := WordAt(sha, seed, |s| - 1 - i) % (i + 1);
      SwapIsPerm(s, i, j, |s|);
      ShuffleFromIsPerm(sha, seed, Swap(s, i, j), i - 1);
    }
  }

  /** Whatever words the generator returns, the result is a permutation. */
  lemma ShuffledIsPerm(sha: Hash, seed: Digest, n: nat)
    requires n >= 1
    ensures IsPerm(Shuffled(sha, seed, n), n)
  {
    var s := Identity(n);
    forall p | 0 <= p < n ensures p in s {
      assert s[p] == p;
    }
    ShuffleFromIsPerm(sha, seed, s, n - 1);
  }

  method Shuffle(sha: Hash, seed: Digest, n: nat) returns (pi: array<nat>)
    requires n >= 1
    ensures fresh(pi) && pi[..] == Shuffled(sha, seed, n) && IsPerm(pi[..], n)
  {
    hide WordAt, IsPerm, Swap;
    var xof := new ShaXof(sha, seed);
    pi := new nat[n](i requires 0 <= i => i);
    assert pi[..] == Identity(n);
    var i := n - 1;
    while i > 0
      invariant i < n == pi.Length && xof.Valid() && xof.taken == n - 1 - i
      invariant xof.sha == sha && xof.seed == seed && fresh(xof)
      invariant ShuffleFrom(sha, seed, pi[..], i) == Shuffled(sha, seed, n)
    {
      ghost var was := pi[..];
      var w := xof.Next();
      SwapCells(pi, i, w % (i + 1));
      assert ShuffleFrom(sha, seed, was, i) == ShuffleFrom(sha, seed, Swap(was, i, w % (i + 1)), i - 1);
      i := i - 1;
    }
    ShuffledIsPerm(sha, seed, n);
  }

  method SwapCells(pi: array<nat>, i: nat, j: nat)
    requires i < pi.Length && j < pi.Length
    modifies pi
    ensures pi[..] == Swap(old(pi[..]), i, j)
  {
    pi[i], pi[j] := pi[j], pi[i];
  }

  // ---------------------------------------------------------------- scatter and gather

  /** `t` is `s` with lane `i` moved to lane `pi[i]`. */
  ghost predicate IsScatter<T>(s: seq<T>, pi: seq<nat>, t: seq<T>) {
    && |s| == |pi| == |t|
    && (forall i :: 0 <= i < |pi| ==> pi[i] < |pi|)
    && (forall i :: 0 <= i < |s| ==> t[pi[i]] == s[i])
  }

  /** Collecting lane `pi[i]` back into lane `i`. */
  function Gather<T>(t: seq<T>, pi: seq<nat>): seq<T>
    requires |t| == |pi| && forall i :: 0 <= i < |pi| ==> pi[i] < |pi|
  {
    seq(|pi|, i requires 0 <= i < |pi| => t[pi[i]])
  }

  lemma GatherScatter<T>(s: seq<T>, pi: seq<nat>, t: seq<T>)
    requires IsScatter(s, pi, t)
    ensures Gather(t, pi) == s
  {
  }

  /** A scatter by a permutation determines every lane. */
  lemma ScatterUnique<T>(s: seq<T>, pi: seq<nat>, t: seq<T>, u: seq<T>)
    requires IsPerm(pi, |pi|) && IsScatter(s, pi, t) && IsScatter(s, pi, u)
    ensures t == u
  {
    forall p | 0 <= p < |t| ensures t[p] == u[p] {
      assert p in pi;
      var i :| 0 <= i < |pi| && pi[i] == p;
    }
  }

  function Without<T>(t: seq<T>, p: nat): seq<T>
    requires p < |t|
  {
    t[..p] + t[p + 1..]
  }

  function Closed(q: nat, p: nat): nat { if q > p then q - 1 else q }

  /** The permutation left when the last position and its image are removed. */
  function Shrunk(pi: seq<nat>): seq<nat>
    requires |pi| > 0
  {
    seq(|pi| - 1, i requires 0 <= i < |pi| - 1 => Closed(pi[i], pi[|pi| - 1]))
  }

  lemma ShrunkIsPerm(pi: seq<nat>, n: nat)
    requires IsPerm(pi, n) && n > 0
    ensures IsPerm(Shrunk(pi), n - 1)
  {
    var last, small := pi[n - 1], Shrunk(pi);
    forall i, j | 0 <= i < j < n - 1 ensures small[i] != small[j] && small[i] < n - 1 {
      assert pi[i] != last && pi[j] != last && pi[i] != pi[j];
    }
    forall i | 0 <= i < n - 1 ensures small[i] < n - 1 {
      assert pi[i] != last;
    }
    forall p | 0 <= p < n - 1 ensures p in small {
      var q := if p >= last then p + 1 else p;
      assert q in pi;
      var i :| 0 <= i < n && pi[i] == q;
      assert i < n - 1 && small[i] == p;
    }
  }

  /** Scattering keeps the multiset of lanes. */
  lemma {:induction false} ScatterMultiset<T>(s: seq<T>, pi: seq<nat>, t: seq<T>)
    requires IsPerm(pi, |pi|) && IsScatter(s, pi, t)
    ensures multiset(t) == multiset(s)
    decreases |s|
  {
    if |s| > 0 {
      var n := |s|;
      var last := pi[n - 1];
      var t', small := Without(t, last), Shrunk(pi);
      ShrunkIsPerm(pi, n);
      forall i | 0 <= i < n - 1 ensures t'[small[i]] == s[..n - 1][i] {
        assert pi[i] != last;
      }
      ScatterMultiset(s[..n - 1], small, t');
      assert t == t[..last] + [t[last]] + t[last + 1..];
      assert s == s[..n - 1] + [s[n - 1]];
    }
  }

  /** The scatter loop: every lane of the result is written exactly once. */
  method ApplyPerm<T(0)>(s: array<T>, pi: seq<nat>)
    requires IsPerm(pi, s.Length)
    modifies s
    ensures IsScatter(old(s[..]), pi, s[..])
    ensures multiset(s[..]) == multiset(old(s[..]))
  {
    ghost var before := s[..];
    var n := s.Length;
    var tmp := new T[n];
    for i := 0 to n
      invariant s[..] == before
      invariant forall k :: 0 <= k < i ==> tmp[pi[k]] == before[k]
    {
      tmp[pi[i]] := s[i];
    }
    for i := 0 to n
      invariant forall k :: 0 <= k < n ==> tmp[pi[k]] == before[k]
      invariant forall k :: 0 <= k < i ==> s[k] == tmp[k]
    {
      s[i] := tmp[i];
    }
    assert s[..] == tmp[..];
    ScatterMultiset(before, pi, s[..]);
  }
}
