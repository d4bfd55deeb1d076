/** Rejection sampling of FP4 mantissas: which nibbles are accepted, and what filling a run of cells
    from a nibble stream yields. */
module Nibbles {
  import opened Bits
  import opened Bytes

  /** The E2M1 magnitude of a nibble; half-integer codes and negative zero are holes. */
  function Magnitude(nib: nat): nat {
    var exp, man := nib / 2 % 4, nib % 2;
    if exp == 0 then 0
    else if exp == 1 then 1
    else if exp == 2 then (if man == 0 then 2 else 3)
    else if man == 0 then 4 else 6
  }

  predicate Negative(nib: nat) { nib / 8 % 2 == 1 }

  predicate Accepted(nib: nat) {
    var exp, man := nib / 2 % 4, nib % 2;
    && (exp <= 1 ==> man == 0)
    && !(Negative(nib) && Magnitude(nib) == 0)
  }

  predicate IsMantissa(v: int) { v in {-6, -4, -3, -2, -1, 0, 1, 2, 3, 4, 6} }

  function Value(nib: nat): (v: i8)
    ensures IsMantissa(v)
  {
    if Negative(nib) then -(Magnitude(nib) as int) else Magnitude(nib)
  }

  /** Exactly the nibbles 1, 3, 8, 9 and 11 are rejected, and accepted nibbles have distinct values. */
  lemma ElevenAccepted(nib: nat, other: nat)
    requires nib < 16 && other < 16
    ensures Accepted(nib) <==> nib !in {1, 3, 8, 9, 11}
    ensures Accepted(nib) && Accepted(other) && Value(nib) == Value(other) ==> nib == other
  {
  }

  // ---------------------------------------------------------------- streams

  type Nibble = n: nat | n < 16

  type NibbleStream = nat -> Nibble

  predicate AcceptedAt(s: NibbleStream, mask: Nibble, q: nat) { Accepted(BitXor(s(q), mask)) }

  ghost predicate AcceptsAfter(s: NibbleStream, mask: Nibble, p: nat) {
    exists q: nat :: q >= p && AcceptedAt(s, mask, q)
  }

  /** The stream never stops producing acceptable nibbles, whatever mask a cell applies. */
  ghost predicate KeepsAccepting(s: NibbleStream) {
    forall mask: Nibble, p: nat :: AcceptsAfter(s, mask, p)
  }

  ghost function FirstUpTo(s: NibbleStream, mask: Nibble, p: nat, w: nat): (q: nat)
    requires p <= w && AcceptedAt(s, mask, w)
    ensures p <= q <= w && AcceptedAt(s, mask, q)
    ensures forall r :: p <= r < q ==> !AcceptedAt(s, mask, r)
    decreases w - p
  {
    if AcceptedAt(s, mask, p) then p else FirstUpTo(s, mask, p + 1, w)
  }

  /** The first acceptable position at or after `p`. */
  ghost function First(s: NibbleStream, mask: Nibble, p: nat): (q: nat)
    requires KeepsAccepting(s)
    ensures p <= q && AcceptedAt(s, mask, q)
    ensures forall r :: p <= r < q ==> !AcceptedAt(s, mask, r)
  {
    assert AcceptsAfter(s, mask, p);
    var w: nat :| w >= p && AcceptedAt(s, mask, w);
    FirstUpTo(s, mask, p, w)
  }

  lemma FirstSkips(s: NibbleStream, mask: Nibble, p: nat)
    requires KeepsAccepting(s)
    ensures if AcceptedAt(s, mask, p) then First(s, mask, p) == p
            else First(s, mask, p) == First(s, mask, p + 1)
  {
    var a, b := First(s, mask, p), First(s, mask, p + 1);
    if !AcceptedAt(s, mask, p) {
      assert a >= p + 1 && a >= b && b >= a;
    }
  }

  /** One mantissa per mask, each from the first nibble its mask accepts. */
  ghost function Fill(s: NibbleStream, masks: seq<Nibble>, p: nat): (mu: seq<i8>)
    requires KeepsAccepting(s)
    ensures |mu| == |masks|
    ensures forall k :: 0 <= k < |mu| ==> IsMantissa(mu[k])
    decreases |masks|
  {
    if masks == [] then [] else
      var q := First(s, masks[0], p);
      [Sample(s, masks[0], q)] + Fill(s, masks[1..], q + 1)
  }

  /** The mantissa at position `q` under `mask`. */
  function Sample(s: NibbleStream, mask: Nibble, q: nat): (v: i8)
    ensures IsMantissa(v)
  {
    Value(BitXor(s(q), mask))
  }

  /** `q` is the first place from `from` on whose nibble the mask accepts. */
  predicate TakesFirst(s: NibbleStream, mask: Nibble, from: nat, q: nat) {
    from <= q && Accepted(BitXor(s(q), mask)) && forall r: nat :: from <= r < q ==> !AcceptedAt(s, mask, r)
  }

  lemma FirstTakes(s: NibbleStream, mask: Nibble, p: nat)
    requires KeepsAccepting(s)
    ensures TakesFirst(s, mask, p, First(s, mask, p))
  {
    hide First, KeepsAccepting;
  }

  /** Cell `t` of a fill from `p` on takes the nibble at `at[t]`. */
  predicate CellTakes(s: NibbleStream, masks: seq<Nibble>, p: nat, at: seq<nat>, t: nat)
    requires t < |masks| == |at|
  {
    TakesFirst(s, masks[t], if t == 0 then p else at[t - 1] + 1, at[t])
  }

  /** The places the cells of a fill take their nibbles from. */
  ghost function Places(s: NibbleStream, masks: seq<Nibble>, p: nat): (at: seq<nat>)
    requires KeepsAccepting(s)
    ensures |at| == |masks|
    decreases |masks|
  {
    if masks == [] then [] else
      var q := First(s, masks[0], p);
      [q] + Places(s, masks[1..], q + 1)
  }

  /** Which nibble each cell takes: the first one behind the cell before whose own mask accepts it; the
      mantissa is that nibble's under the mask. */
  lemma {:induction false} FillPlace(s: NibbleStream, masks: seq<Nibble>, p: nat, t: nat)
    requires KeepsAccepting(s) && t < |masks|
    ensures CellTakes(s, masks, p, Places(s, masks, p), t)
    ensures Fill(s, masks, p)[t] == Value(BitXor(s(Places(s, masks, p)[t]), masks[t]))
    decreases t
  {
    hide *;
    if t == 0 {
      FirstPlace(s, masks, p);
    } else {
      var q := First(s, masks[0], p);
      FillPlace(s, masks[1..], q + 1, t - 1);
      LaterPlace(s, masks, p, t);
    }
  }

  lemma FirstPlace(s: NibbleStream, masks: seq<Nibble>, p: nat)
    requires KeepsAccepting(s) && masks != []
    ensures CellTakes(s, masks, p, Places(s, masks, p), 0)
    ensures Fill(s, masks, p)[0] == Value(BitXor(s(Places(s, masks, p)[0]), masks[0]))
  {
    FirstTakes(s, masks[0], p);
    hide KeepsAccepting, First, TakesFirst, Value, BitXor, IsMantissa;
  }

  lemma LaterPlace(s: NibbleStream, masks: seq<Nibble>, p: nat, t: nat)
    requires KeepsAccepting(s) && 0 < t < |masks|
    ensures var q := First(s, masks[0], p);
      && (CellTakes(s, masks, p, Places(s, masks, p), t) <==>
            CellTakes(s, masks[1..], q + 1, Places(s, masks[1..], q + 1), t - 1))
      && Fill(s, masks, p)[t] == Fill(s, masks[1..], q + 1)[t - 1]
      && Places(s, masks, p)[t] == Places(s, masks[1..], q + 1)[t - 1]
  {
    hide KeepsAccepting, First, TakesFirst, Value, BitXor, IsMantissa, Sample;
  }

  /** Asking for more cells does not change the earlier ones. */
  lemma {:induction false} FillPrefix(s: NibbleStream, masks: seq<Nibble>, more: seq<Nibble>, p: nat)
    requires KeepsAccepting(s)
    ensures Fill(s, masks + more, p)[..|masks|] == Fill(s, masks, p)
    decreases |masks|
  {
    hide *;
    if masks == [] {
      assert masks + more == more;
    } else {
      var x, rest := masks[0], masks[1..];
      var q := First(s, x, p);
      FillPrefix(s, rest, more, q + 1);
      FillStep(s, x, rest, p);
      FillStep(s, x, rest + more, p);
      assert masks == [x] + rest && masks + more == [x] + (rest + more);
      ConsPrefix(Sample(s, x, q), Fill(s, rest + more, q + 1), |rest|);
    }
  }

  lemma FillStep(s: NibbleStream, x: Nibble, rest: seq<Nibble>, p: nat)
    requires KeepsAccepting(s)
    ensures var q := First(s, x, p); Fill(s, [x] + rest, p) == [Sample(s, x, q)] + Fill(s, rest, q + 1)
  {
    hide Sample, First, KeepsAccepting;
    assert ([x] + rest)[1..] == rest;
  }

  lemma ConsPrefix<T>(x: T, s: seq<T>, k: nat)
    requires k <= |s|
    ensures ([x] + s)[..k + 1] == [x] + s[..k]
  {
  }

  /** The state of a fill in progress: `mu` done, the rest still to come from position `p` on. */
  ghost predicate Filling(s: NibbleStream, masks: seq<Nibble>, mu: seq<i8>, p: nat)
    requires KeepsAccepting(s)
  {
    && |mu| <= |masks|
    && mu + Fill(s, masks[|mu|..], p) == Fill(s, masks, 0)
  }

  /** Cells to go, then positions until the next acceptance. */
  ghost function Wait(s: NibbleStream, masks: seq<Nibble>, filled: nat, p: nat): nat
    requires KeepsAccepting(s)
  {
    if filled < |masks| then First(s, masks[filled], p) - p else 0
  }

  lemma FillingStart(s: NibbleStream, masks: seq<Nibble>)
    requires KeepsAccepting(s)
    ensures Filling(s, masks, [], 0)
  {
    assert masks[0..] == masks;
  }

  lemma FillingDone(s: NibbleStream, masks: seq<Nibble>, mu: seq<i8>, p: nat)
    requires KeepsAccepting(s) && Filling(s, masks, mu, p) && |mu| == |masks|
    ensures mu == Fill(s, masks, 0)
  {
    assert masks[|mu|..] == [];
  }

  /** Offer the nibble at position `p` to the next free cell. */
  method Offer(s: NibbleStream, masks: seq<Nibble>, mu: seq<i8>, nib: Nibble, ghost p: nat) returns (mu': seq<i8>)
    requires KeepsAccepting(s) && Filling(s, masks, mu, p) && |mu| < |masks| && nib == s(p)
    ensures Filling(s, masks, mu', p + 1)
    ensures |mu'| == |mu| + 1 || (|mu'| == |mu| && Wait(s, masks, |mu|, p + 1) < Wait(s, masks, |mu|, p))
  {
    hide KeepsAccepting, BitXor, Value, Accepted, First;
    ghost var rest := masks[|mu|..];
    FirstSkips(s, masks[|mu|], p);
    var mixed := BitXor(nib, masks[|mu|]);
    assert rest[0] == masks[|mu|] && rest[1..] == masks[|mu| + 1..];
    if Accepted(mixed) {
      mu' := mu + [Value(mixed)];
      assert mu' + Fill(s, rest[1..], p + 1) == mu + Fill(s, rest, p);
    } else {
      mu' := mu;
      assert Fill(s, rest, p + 1) == Fill(s, rest, p);
    }
  }
}
