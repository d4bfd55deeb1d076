/** The table of per-range nonce cursors that survives reconnects and restarts. */
module Cursor {
  /** A 64-bit unsigned word. */
  type Word = x: int | 0 <= x <= 0xFFFF_FFFF_FFFF_FFFF

  const TOP: nat := 0x1_0000_0000_0000_0000   // one past the last word

  const TABLE_SIZE: nat := 8

  /** A range and the highest cursor reached in it. */
  datatype Entry = Entry(base: Word, cursor: Word)

  /** Index of the first entry of a range; the length when it has none. */
  function Find(r: seq<Entry>, base: Word): (i: nat)
    ensures i <= |r| && forall k :: 0 <= k < i ==> r[k].base != base
    ensures i < |r| ==> r[i].base == base
  {
    if r == [] || r[0].base == base then 0 else
      var i := 1 + Find(r[1..], base);
      assert forall k :: 0 < k < i ==> r[k] == r[1..][k - 1];
      i
  }

  predicate Has(r: seq<Entry>, base: Word) { Find(r, base) < |r| }

  /** Every saved table lists a range once. */
  predicate IsTable(r: seq<Entry>) {
    |r| <= TABLE_SIZE && forall i, j :: 0 <= i < j < |r| ==> r[i].base != r[j].base
  }

  function Recorded(r: seq<Entry>, base: Word, cursor: Word): (r': seq<Entry>) {
    var i := Find(r, base);
    if i < |r| then r[i := Entry(base, if cursor > r[i].cursor then cursor else r[i].cursor)]
    else if |r| < TABLE_SIZE then r + [Entry(base, cursor)]
    else r[1..] + [Entry(base, cursor)]
  }

  /** The range that recording another one pushes out, if any. */
  function Evicted(r: seq<Entry>, base: Word): (out: set<nat>) {
    if !Has(r, base) && |r| >= TABLE_SIZE then {r[0].base} else {}
  }

  /** `RecordCursor`: raise the range's entry, or append one and drop the oldest. */
  method RecordCursor(r: seq<Entry>, base: Word, cursor: Word) returns (r': seq<Entry>)
    ensures r' == Recorded(r, base, cursor)
  {
    r' := r;
    for i := 0 to |r|
      invariant r' == r && forall k :: 0 <= k < i ==> r[k].base != base
    {
      if r'[i].base == base {
        if cursor > r'[i].cursor { r' := r'[i := Entry(base, cursor)]; }
        assert Find(r, base) == i;
        return;
      }
    }
    r' := r' + [Entry(base, cursor)];
    if |r'| > TABLE_SIZE { r' := r'[1..]; }
  }

  /** The first recorded cursor of a range that lies past its base; the base itself when there is none. */
  function Resumed(r: seq<Entry>, base: Word): (cursor: Word)
    ensures cursor >= base
    ensures cursor > base ==> Entry(base, cursor) in r
  {
    if r == [] then base else if r[0].base == base && r[0].cursor > base then r[0].cursor else Resumed(r[1..], base)
  }

  /** `ResumeCursor`, for any table. */
  method ResumeCursor(r: seq<Entry>, base: Word) returns (cursor: Word)
    ensures cursor == Resumed(r, base)
  {
    for i := 0 to |r|
      invariant Resumed(r, base) == Resumed(r[i..], base)
    {
      if r[i].base == base && r[i].cursor > base { return r[i].cursor; }
      assert r[i..][1..] == r[i + 1..];
    }
    cursor := base;
  }

  /** In a table that lists each range once, the range's own entry decides. */
  lemma {:induction false} ResumedIs(r: seq<Entry>, base: Word)
    requires IsTable(r)
    ensures Resumed(r, base) ==
      var i := Find(r, base); if i < |r| && r[i].cursor > base then r[i].cursor else base
  {
    if r == [] {
    } else if r[0].base == base {
      NoneLeft(r[1..], base);
    } else {
      ResumedIs(r[1..], base);
    }
  }

  lemma {:induction false} NoneLeft(r: seq<Entry>, base: Word)
    requires forall k :: 0 <= k < |r| ==> r[k].base != base
    ensures Resumed(r, base) == base
  {
    if r != [] { NoneLeft(r[1..], base); }
  }

  lemma FindIs(r: seq<Entry>, base: Word, i: nat)
    requires i < |r| && r[i].base == base && IsTable(r)
    ensures Find(r, base) == i
  {
    var k := Find(r, base);
    assert r[k].base == base;
  }

  /** What recording `base` makes of the entry of `other`. */
  ghost predicate EntryKept(r: seq<Entry>, r': seq<Entry>, base: Word, cursor: Word, other: Word) {
    && IsTable(r') && Has(r', base)
    && (other != base ==> (Has(r', other) <==> Has(r, other) && other !in Evicted(r, base)))
    && (other != base && Has(r', other) ==> r'[Find(r', other)] == r[Find(r, other)])
    && r'[Find(r', base)].cursor >= cursor
    && (Has(r, base) ==> r'[Find(r', base)].cursor >= r[Find(r, base)].cursor)
  }

  /** Raising an entry moves nothing. */
  lemma RaisedEntry(r: seq<Entry>, base: Word, cursor: Word, other: Word)
    requires IsTable(r) && Has(r, base)
    ensures EntryKept(r, Recorded(r, base, cursor), base, cursor, other)
  {
    var r', i, k := Recorded(r, base, cursor), Find(r, base), Find(r, other);
    assert forall j :: 0 <= j < |r| ==> r'[j].base == r[j].base;
    FindIs(r', base, i);
    hide Find;
    if k < |r| { FindIs(r', other, k); }
    if Has(r', other) { FindIs(r, other, Find(r', other)); }
  }

  /** Appending an entry moves the others down by one when the oldest has to go. */
  lemma AppendedEntry(r: seq<Entry>, base: Word, cursor: Word, other: Word)
    requires IsTable(r) && !Has(r, base)
    ensures EntryKept(r, Recorded(r, base, cursor), base, cursor, other)
  {
    var r', k := Recorded(r, base, cursor), Find(r, other);
    var d := if |r| < TABLE_SIZE then 0 else 1;
    assert forall j :: 0 <= j < |r| - d ==> r'[j] == r[j + d];
    hide Find;
    FindIs(r', base, |r'| - 1);
    if other != base {
      if k < |r| && k >= d { FindIs(r', other, k - d); }
      if Has(r', other) { FindIs(r, other, Find(r', other) + d); }
    }
  }

  /** Where each range's entry sits after recording: the table stays one, no other entry changes, the
      range's own never falls. */
  lemma RecordedEntry(r: seq<Entry>, base: Word, cursor: Word, other: Word)
    requires IsTable(r)
    ensures EntryKept(r, Recorded(r, base, cursor), base, cursor, other)
  {
    hide *;
    if Has(r, base) { RaisedEntry(r, base, cursor, other); } else { AppendedEntry(r, base, cursor, other); }
  }

  /** A recorded cursor comes back: resuming yields the furthest point recorded while the range stays in
      the table, and recording one range leaves every other range's resume point alone unless it is the
      one pushed out. */
  lemma ResumeRecorded(r: seq<Entry>, base: Word, cursor: Word, other: Word)
    requires IsTable(r)
    ensures Resumed(Recorded(r, base, cursor), base) == Max(Resumed(r, base), Max(cursor, base))
    ensures other != base && other !in Evicted(r, base) ==>
      Resumed(Recorded(r, base, cursor), other) == Resumed(r, other)
    ensures other in Evicted(r, base) ==> Resumed(Recorded(r, base, cursor), other) == other
  {
    RecordedEntry(r, base, cursor, other);
    RecordedAt(r, base, cursor);
    var r' := Recorded(r, base, cursor);
    ResumedIs(r, base);
    ResumedIs(r', base);
    ResumedIs(r, other);
    ResumedIs(r', other);
    hide Resumed, Recorded;
    if other in Evicted(r, base) { FindIs(r, other, 0); }
  }

  lemma RecordedAt(r: seq<Entry>, base: Word, cursor: Word)
    requires IsTable(r)
    ensures var r' := Recorded(r, base, cursor);
      Has(r', base) && r'[Find(r', base)] ==
        if Has(r, base) then Entry(base, Max(cursor, r[Find(r, base)].cursor)) else Entry(base, cursor)
  {
    RecordedEntry(r, base, cursor, base);
    var r' := Recorded(r, base, cursor);
    FindIs(r', base, if Has(r, base) then Find(r, base) else |r'| - 1);
  }

  function Max(a: Word, b: Word): Word { if a > b then a else b }
}
