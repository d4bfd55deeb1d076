/** Accounting of submitted shares: request ids, the pending list, and the accept and reject counters of
    one pool connection. */
module Submits {
  import opened Wrappers

  const FIRST_ID: nat := 10   // clear of the handshake ids 1, 2 and 3

  datatype Result = Null | Bool(value: bool) | Other

  /** A share written to the wire, or an RPC response read from it. */
  datatype Event = Submit | Response(id: nat, hasError: bool, result: Result)

  /** A response accepts when it carries no error and a result that is neither null nor false. */
  predicate Accepts(e: Event)
    requires e.Response?
  {
    !e.hasError && (if e.result.Bool? then e.result.value else !e.result.Null?)
  }

  // ---------------------------------------------------------------- what the history means

  function Issued(events: seq<Event>): (n: nat)
    ensures n <= |events|
  {
    if events == [] then 0 else
      Issued(events[..|events| - 1]) + if events[|events| - 1].Submit? then 1 else 0
  }

  predicate IsIssued(events: seq<Event>, id: nat) { FIRST_ID <= id < FIRST_ID + Issued(events) }

  /** Event `k` answers request `id`, which had been issued by then. */
  predicate Answers(events: seq<Event>, id: nat, k: nat)
    requires k < |events|
  {
    events[k].Response? && events[k].id == id && IsIssued(events[..k], id)
  }

  /** Event `k` is the first answer: the one that decides the share. */
  predicate Settles(events: seq<Event>, id: nat, k: nat) {
    k < |events| && Answers(events, id, k) && forall j :: 0 <= j < k ==> !Answers(events, id, j)
  }

  /** The requests whose deciding answer accepts, or rejects. */
  function Decided(events: seq<Event>, ok: bool): (ids: set<nat>) {
    set k | 0 <= k < |events| && events[k].Response? && Settles(events, events[k].id, k) && Accepts(events[k]) == ok
      :: events[k].id
  }

  /** A request has at most one deciding answer. */
  lemma SettledOnce(events: seq<Event>, id: nat, j: nat, k: nat)
    requires Settles(events, id, j) && Settles(events, id, k)
    ensures j == k
  {
  }

  lemma DecidedApart(events: seq<Event>)
    ensures Decided(events, true) !! Decided(events, false)
    ensures forall id :: id in Decided(events, true) + Decided(events, false) ==> IsIssued(events, id)
  {
    forall k | 0 <= k < |events| && events[k].Response? && Settles(events, events[k].id, k)
      ensures IsIssued(events, events[k].id)
    {
      IssuedGrows(events, k);
    }
  }

  lemma {:induction false} IssuedGrows(events: seq<Event>, k: nat)
    requires k <= |events|
    ensures Issued(events[..k]) <= Issued(events)
    decreases |events|
  {
    if k < |events| {
      var front := events[..|events| - 1];
      IssuedGrows(front, k);
      assert front[..k] == events[..k];
    } else {
      assert events[..k] == events;
    }
  }

  predicate Open(events: seq<Event>, id: nat) {
    IsIssued(events, id) && id !in Decided(events, true) && id !in Decided(events, false)
  }

  lemma EarlierSame(events: seq<Event>, e: Event, id: nat, k: nat)
    requires k < |events|
    ensures Answers(events + [e], id, k) == Answers(events, id, k)
    ensures Settles(events + [e], id, k) == Settles(events, id, k)
  {
    forall j | 0 <= j <= k ensures Answers(events + [e], id, j) == Answers(events, id, j) {
      assert (events + [e])[..j] == events[..j];
    }
  }

  lemma AnsweredIsDecided(events: seq<Event>, id: nat, j: nat)
    requires j < |events| && Answers(events, id, j)
    ensures id in Decided(events, true) || id in Decided(events, false)
    decreases j
  {
    if i :| 0 <= i < j && Answers(events, id, i) {
      AnsweredIsDecided(events, id, i);
    } else {
      assert Settles(events, id, j);
      assert id in Decided(events, Accepts(events[j]));
    }
  }

  /** A share sent: a new open request, nothing decided. */
  lemma SubmitStep(events: seq<Event>)
    ensures Issued(events + [Submit]) == Issued(events) + 1
    ensures forall ok :: Decided(events + [Submit], ok) == Decided(events, ok)
    ensures !IsIssued(events, FIRST_ID + Issued(events))
    ensures forall id :: Open(events + [Submit], id) <==> Open(events, id) || id == FIRST_ID + Issued(events)
  {
    var next := events + [Submit];
    assert next[..|next| - 1] == events;
    DecisionsGrow(events, Submit, true);
    DecisionsGrow(events, Submit, false);
    DecidedApart(events);
  }

  /** Appending an event adds at most its own request to the decided ones. */
  lemma DecisionsGrow(events: seq<Event>, e: Event, ok: bool)
    ensures Decided(events + [e], ok) == Decided(events, ok)
         + if e.Response? && Settles(events + [e], e.id, |events|) && Accepts(e) == ok then {e.id} else {}
  {
    var next := events + [e];
    var last := if e.Response? && Settles(next, e.id, |events|) && Accepts(e) == ok then {e.id} else {};
    forall id | id in Decided(next, ok) ensures id in Decided(events, ok) + last {
      var k :| 0 <= k < |next| && next[k].Response? && Settles(next, next[k].id, k) && Accepts(next[k]) == ok
               && next[k].id == id;
      if k < |events| { EarlierSame(events, e, id, k); }
    }
    forall id | id in Decided(events, ok) + last ensures id in Decided(next, ok) {
      if id in Decided(events, ok) {
        var k :| 0 <= k < |events| && events[k].Response? && Settles(events, events[k].id, k)
                 && Accepts(events[k]) == ok && events[k].id == id;
        EarlierSame(events, e, id, k);
        assert next[k] == events[k];
      } else {
        assert next[|events|] == e;
      }
    }
  }

  /** A response decides its request exactly when that request is open. */
  lemma ResponseSettles(events: seq<Event>, e: Event)
    requires e.Response?
    ensures Issued(events + [e]) == Issued(events)
    ensures Settles(events + [e], e.id, |events|) <==> Open(events, e.id)
  {
    var next := events + [e];
    assert next[..|next| - 1] == events && next[..|events|] == events;
    forall j | 0 <= j < |events| ensures Answers(next, e.id, j) == Answers(events, e.id, j) {
      EarlierSame(events, e, e.id, j);
    }
    hide Decided;
    if j :| 0 <= j < |events| && Answers(events, e.id, j) {
      AnsweredIsDecided(events, e.id, j);
    } else {
      DecidedWasAnswered(events, e.id);
    }
  }

  lemma DecidedWasAnswered(events: seq<Event>, id: nat)
    requires forall j :: 0 <= j < |events| ==> !Answers(events, id, j)
    ensures id !in Decided(events, true) && id !in Decided(events, false)
  {
  }

  lemma ResponseStep(events: seq<Event>, e: Event)
    requires e.Response?
    ensures Issued(events + [e]) == Issued(events)
    ensures forall id :: Open(events + [e], id) <==> Open(events, id) && id != e.id
  {
    ResponseSettles(events, e);
    DecisionsGrow(events, e, true);
    DecisionsGrow(events, e, false);
  }

  /** An answered request is counted on the side its answer chose; nothing else is counted. */
  lemma ResponseCounts(events: seq<Event>, e: Event, ok: bool)
    requires e.Response?
    ensures |Decided(events + [e], ok)| == |Decided(events, ok)| + One(Open(events, e.id) && Accepts(e) == ok)
  {
    ResponseSettles(events, e);
    DecisionsGrow(events, e, ok);
    hide Decided, Settles;
    if Open(events, e.id) && Accepts(e) == ok {
      assert e.id !in Decided(events, ok);
    }
  }

  // ---------------------------------------------------------------- the counters

  /** Finds the first entry with the given id. */
  function Position(pending: seq<nat>, id: nat): (i: nat)
    ensures i <= |pending| && id !in pending[..i]
    ensures i < |pending| <==> id in pending
    ensures i < |pending| ==> pending[i] == id
  {
    if pending == [] || pending[0] == id then 0 else
      var i := 1 + Position(pending[1..], id);
      assert pending[..i] == [pending[0]] + pending[1..][..i - 1];
      i
  }

  predicate Distinct(s: seq<nat>) { forall i, j :: 0 <= i < j < |s| ==> s[i] != s[j] }

  function Elements(s: seq<nat>): set<nat> { set k | 0 <= k < |s| :: s[k] }

  lemma {:induction false} DistinctSize(s: seq<nat>)
    requires Distinct(s)
    ensures |Elements(s)| == |s|
  {
    if s != [] {
      var front, x := s[..|s| - 1], s[|s| - 1];
      DistinctSize(front);
      assert Elements(s) == Elements(front) + {x};
      assert x !in Elements(front);
    }
  }

  function FirstIds(n: nat): (r: set<nat>)
    ensures |r| == n && forall id :: id in r <==> FIRST_ID <= id < FIRST_ID + n
  {
    if n == 0 then {} else FirstIds(n - 1) + {FIRST_ID + n - 1}
  }

  lemma ThreeParts(a: set<nat>, r: set<nat>, n: nat)
    requires a !! r && a <= FirstIds(n) && r <= FirstIds(n)
    ensures |a| + |r| + |FirstIds(n) - a - r| == n
  {
    var p := FirstIds(n) - a - r;
    assert FirstIds(n) == a + r + p;
  }

  /** The pending list holds exactly the open requests, each once. */
  ghost predicate ListsOpen(pending: seq<nat>, events: seq<Event>) {
    Distinct(pending) && forall id :: id in pending <==> Open(events, id)
  }

  lemma ListSubmitted(pending: seq<nat>, events: seq<Event>, id: nat)
    requires ListsOpen(pending, events) && id == FIRST_ID + Issued(events)
    ensures ListsOpen(pending + [id], events + [Submit])
  {
    SubmitStep(events);
    OpenIsIssued(events, id);
    hide Decided, Issued, Open;
  }

  lemma ListAnswered(pending: seq<nat>, events: seq<Event>, e: Event, i: nat)
    requires e.Response? && ListsOpen(pending, events)
    requires if e.id in pending then i < |pending| && pending[i] == e.id else i == |pending|
    ensures Open(events, e.id) <==> e.id in pending
    ensures if i < |pending| then ListsOpen(pending[..i] + pending[i + 1..], events + [e]) else ListsOpen(pending, events + [e])
  {
    ResponseStep(events, e);
    hide Open;
    if i < |pending| { RemoveAt(pending, i); }
  }

  lemma RemoveAt(s: seq<nat>, i: nat)
    requires i < |s| && Distinct(s)
    ensures Distinct(s[..i] + s[i + 1..])
    ensures forall x :: x in s[..i] + s[i + 1..] <==> x in s && x != s[i]
  {
    var t := s[..i] + s[i + 1..];
    forall x | x in s && x != s[i] ensures x in t {
      var k :| 0 <= k < |s| && s[k] == x;
      if k < i { assert t[k] == x; } else { assert t[k - 1] == x; }
    }
  }

  lemma OpenIsIssued(events: seq<Event>, id: nat)
    ensures Open(events, id) ==> IsIssued(events, id)
  {
  }

  lemma DecidedIsIssued(events: seq<Event>, ok: bool)
    ensures Decided(events, ok) <= FirstIds(Issued(events))
  {
    DecidedApart(events);
    hide Decided, Issued;
    forall id | id in Decided(events, ok) ensures id in FirstIds(Issued(events)) {
      assert id in Decided(events, true) + Decided(events, false);
      assert IsIssued(events, id);
    }
  }

  lemma PendingIsTheRest(pending: seq<nat>, events: seq<Event>)
    requires ListsOpen(pending, events)
    ensures Decided(events, true) <= FirstIds(Issued(events)) && Decided(events, false) <= FirstIds(Issued(events))
    ensures Elements(pending) == FirstIds(Issued(events)) - Decided(events, true) - Decided(events, false)
  {
    DecidedApart(events);
    hide Decided, Issued;
    var rest := FirstIds(Issued(events)) - Decided(events, true) - Decided(events, false);
    forall id: nat ensures id in Elements(pending) <==> id in rest {
      assert id in Elements(pending) <==> id in pending;
      assert id in pending <==> Open(events, id);
    }
    assert Elements(pending) <= rest && rest <= Elements(pending);
    DecidedIsIssued(events, true);
    DecidedIsIssued(events, false);
  }

  class SubmitLedger {
    var nextId: nat
    var pending: seq<nat>
    var accepted: nat
    var rejected: nat
    ghost var events: seq<Event>

    /** The counters tell the history: the pending list holds exactly the open requests, each once, and
        every decided request is counted once, on the side its first answer chose. */
    ghost predicate Valid()
      reads this
    {
      && nextId == FIRST_ID + Issued(events)
      && ListsOpen(pending, events)
      && accepted == |Decided(events, true)|
      && rejected == |Decided(events, false)|
    }

    constructor ()
      ensures Valid() && events == []
    {
      nextId, pending, accepted, rejected, events := FIRST_ID, [], 0, 0, [];
    }

    /** `SubmitShare`: a fresh id, recorded before the line is written. */
    method SubmitShare() returns (rpcId: nat)
      requires Valid()
      modifies this
      ensures Valid() && events == old(events) + [Submit]
      ensures !IsIssued(old(events), rpcId) && Open(events, rpcId)
    {
      hide Open, Issued, Decided, IsIssued, ListsOpen;
      rpcId := nextId;
      SubmitStep(events);
      ListSubmitted(pending, events, rpcId);
      OpenIsIssued(events, rpcId);
      nextId := nextId + 1;
      pending := pending + [rpcId];
      events := events + [Submit];
    }

    /** The submit-response branch of the dispatcher: the first pending entry with this id is settled, an
        unmatched response changes nothing. */
    method HandleResponse(id: nat, hasError: bool, result: Result)
      requires Valid()
      modifies this
      ensures Valid() && events == old(events) + [Response(id, hasError, result)]
      ensures !old(Open(events, id)) ==>
        pending == old(pending) && accepted == old(accepted) && rejected == old(rejected)
      ensures old(Open(events, id)) ==>
        && |pending| == |old(pending)| - 1
        && accepted == old(accepted) + One(!hasError && result != Null && result != Bool(false))
        && rejected == old(rejected) + One(hasError || result == Null || result == Bool(false))
    {
      ghost var e := Response(id, hasError, result);
      ResponseStep(events, e);
      ResponseCounts(events, e, true);
      ResponseCounts(events, e, false);
      hide Open, Issued, Decided, IsIssued, ListsOpen, Distinct;
      var i := Position(pending, id);
      ListAnswered(pending, events, e, i);
      if i < |pending| {
        pending := pending[..i] + pending[i + 1..];
        if !hasError && (if result.Bool? then result.value else !result.Null?) {
          accepted := accepted + 1;
        } else {
          rejected := rejected + 1;
        }
      }
      events := events + [e];
    }

    /** Conservation: every id ever issued is accepted, rejected or pending, in exactly one of the three. */
    lemma NothingLost()
      requires Valid()
      ensures accepted + rejected + |pending| == Issued(events) == nextId - FIRST_ID
    {
      DecidedApart(events);
      DistinctSize(pending);
      PendingIsTheRest(pending, events);
      hide *;
      ThreeParts(Decided(events, true), Decided(events, false), Issued(events));
    }
  }

  /** Any run of submits and responses: the counters end up counting it. */
  method Run(events: seq<Event>) returns (ledger: SubmitLedger)
    ensures fresh(ledger) && ledger.Valid() && ledger.events == events
    ensures ledger.accepted + ledger.rejected + |ledger.pending| == Issued(events)
    ensures ledger.accepted == |Decided(events, true)| && ledger.rejected == |Decided(events, false)|
  {
    ledger := new SubmitLedger();
    for k := 0 to |events|
      invariant fresh(ledger) && ledger.Valid() && ledger.events == events[..k]
    {
      assert events[..k] + [events[k]] == events[..k + 1];
      match events[k]
      case Submit => var _ := ledger.SubmitShare();
      case Response(id, hasError, result) => ledger.HandleResponse(id, hasError, result);
    }
    assert events[..|events|] == events;
    ledger.NothingLost();
  }
}
