/** Splitting received bytes into protocol lines. */
module Framing {
  import opened Bytes

  const LF: byte := 10
  const CR: byte := 13

  type Line = seq<byte>

  /** The bytes without their carriage returns. */
  function Strip(s: seq<byte>): (r: Line) {
    if s == [] then [] else (if s[0] == CR then [] else [s[0]]) + Strip(s[1..])
  }

  function Keep(line: Line): (r: seq<Line>) { if line == [] then [] else [line] }

  /** Where the first line feed is; the length when there is none. */
  function LineEnd(s: seq<byte>): (i: nat)
    ensures i <= |s| && LF !in s[..i]
    ensures i < |s| ==> s[i] == LF
  {
    if s == [] || s[0] == LF then 0 else
      var i := 1 + LineEnd(s[1..]);
      assert s[..i] == [s[0]] + s[1..][..i - 1];
      i
  }

  /** The complete lines of a stream: cut at line feeds, carriage returns dropped, blank lines skipped. */
  function Lines(s: seq<byte>): (r: seq<Line>)
    decreases |s|
  {
    var i := LineEnd(s);
    if i == |s| then [] else Keep(Strip(s[..i])) + Lines(s[i + 1..])
  }

  /** What is left behind the last line feed. */
  function Tail(s: seq<byte>): (r: Line)
    decreases |s|
  {
    var i := LineEnd(s);
    if i == |s| then Strip(s) else Tail(s[i + 1..])
  }

  lemma {:induction false} StripSnoc(s: seq<byte>, ch: byte)
    ensures Strip(s + [ch]) == Strip(s) + if ch == CR then [] else [ch]
  {
    if s == [] {
    } else {
      StripSnoc(s[1..], ch);
      assert (s + [ch])[1..] == s[1..] + [ch];
    }
  }

  lemma {:induction false} LineEndSnoc(s: seq<byte>, ch: byte)
    ensures LineEnd(s + [ch]) == if LineEnd(s) < |s| || ch == LF then LineEnd(s) else |s| + 1
  {
    if s == [] || s[0] == LF {
    } else {
      LineEndSnoc(s[1..], ch);
      assert (s + [ch])[1..] == s[1..] + [ch];
    }
  }

  lemma Cut(s: seq<byte>, i: nat)
    requires i == LineEnd(s) < |s|
    ensures Lines(s) == Keep(Strip(s[..i])) + Lines(s[i + 1..]) && Tail(s) == Tail(s[i + 1..])
  {
    hide LineEnd, Strip, Keep;
  }

  lemma Uncut(s: seq<byte>)
    requires LineEnd(s) == |s|
    ensures Lines(s) == [] && Tail(s) == Strip(s)
  {
    hide LineEnd, Strip, Keep;
  }

  lemma Snoc<T>(s: seq<T>, ch: T, i: nat)
    requires i < |s|
    ensures (s + [ch])[..i] == s[..i] && (s + [ch])[i + 1..] == s[i + 1..] + [ch]
  {
  }

  lemma SnocWhole<T>(s: seq<T>, ch: T)
    ensures (s + [ch])[..|s|] == s && (s + [ch])[|s| + 1..] == [] && s + [] == s && [] + s == s
  {
  }

  /** One more byte: a line feed completes the tail, a carriage return vanishes, anything else joins it. */
  lemma {:induction false} StreamSnoc(s: seq<byte>, ch: byte)
    ensures ch == LF ==> Lines(s + [ch]) == Lines(s) + Keep(Tail(s)) && Tail(s + [ch]) == []
    ensures ch != LF ==> Lines(s + [ch]) == Lines(s)
    ensures ch != LF ==> Tail(s + [ch]) == Tail(s) + if ch == CR then [] else [ch]
    decreases |s|
  {
    var i, t := LineEnd(s), s + [ch];
    LineEndSnoc(s, ch);
    assert Lines([]) == [] && Tail([]) == [];
    hide *;
    if i < |s| {
      var rest := s[i + 1..];
      StreamSnoc(rest, ch);
      Snoc(s, ch, i);
      Cut(s, i);
      Cut(t, i);
      ConcatAssoc(Keep(Strip(s[..i])), Lines(rest), Keep(Tail(rest)));
    } else {
      Uncut(s);
      StripSnoc(s, ch);
      SnocWhole(s, ch);
      SnocWhole(Keep(Strip(s)), Strip(s));
      if ch == LF { Cut(t, |s|); } else { Uncut(t); }
    }
  }

  /** What the reader hands on for a chunk, when it has already read `seen`. */
  function NewLines(seen: seq<byte>, data: seq<byte>): (r: seq<Line>) {
    if data == [] then [] else
      var front, ch := data[..|data| - 1], data[|data| - 1];
      NewLines(seen, front) + if ch == LF then Keep(Tail(seen + front)) else []
  }

  lemma {:induction false} NewLinesExtend(seen: seq<byte>, data: seq<byte>)
    ensures Lines(seen) + NewLines(seen, data) == Lines(seen + data)
  {
    hide Lines, Tail, Keep;
    if data == [] {
      assert seen + data == seen;
    } else {
      var front, ch := data[..|data| - 1], data[|data| - 1];
      NewLinesExtend(seen, front);
      StreamSnoc(seen + front, ch);
      assert front + [ch] == data;
      ConcatAssoc(seen, front, [ch]);
      ConcatAssoc(Lines(seen), NewLines(seen, front), Keep(Tail(seen + front)));
    }
  }

  /** `FeedRecvBytes`: whatever was read before, the lines emitted for a chunk are exactly the lines it
      completes, and the carry is the unfinished tail of the whole stream. */
  method FeedRecvBytes(carry0: Line, data: seq<byte>, ghost seen: seq<byte>) returns (emitted: seq<Line>, carry: Line)
    requires carry0 == Tail(seen)
    ensures carry == Tail(seen + data)
    ensures Lines(seen) + emitted == Lines(seen + data)
  {
    carry, emitted := carry0, [];
    assert seen + data[..0] == seen;
    for k := 0 to |data|
      invariant carry == Tail(seen + data[..k])
      invariant emitted == NewLines(seen, data[..k])
    {
      var ch := data[k];
      assert data[..k + 1][..k] == data[..k];
      assert seen + data[..k] + [ch] == seen + data[..k + 1];
      StreamSnoc(seen + data[..k], ch);
      if ch == LF {
        if carry != [] {
          emitted := emitted + [carry];
          carry := [];
        }
        continue;
      }
      if ch != CR { carry := carry + [ch]; }
    }
    assert data[..|data|] == data;
    NewLinesExtend(seen, data);
  }

  function Concat(chunks: seq<seq<byte>>): (r: seq<byte>) {
    if chunks == [] then [] else Concat(chunks[..|chunks| - 1]) + chunks[|chunks| - 1]
  }

  /** The reader loop over all its receives. The result is a function of the bytes alone, so any two
      chunkings of one stream dispatch the same lines and leave the same carry. */
  method FeedAll(chunks: seq<seq<byte>>) returns (emitted: seq<Line>, carry: Line)
    ensures emitted == Lines(Concat(chunks)) && carry == Tail(Concat(chunks))
  {
    emitted, carry := [], [];
    for k := 0 to |chunks|
      invariant emitted == Lines(Concat(chunks[..k])) && carry == Tail(Concat(chunks[..k]))
    {
      ghost var seen := Concat(chunks[..k]);
      assert chunks[..k + 1][..k] == chunks[..k];
      var more;
      more, carry := FeedRecvBytes(carry, chunks[k], seen);
      emitted := emitted + more;
    }
    assert chunks[..|chunks|] == chunks;
  }

  predicate IsPlain(line: Line) { line != [] && LF !in line && CR !in line }

  lemma {:induction false} StripPlain(s: seq<byte>)
    ensures CR !in Strip(s) && (LF !in s ==> LF !in Strip(s))
    ensures CR !in s ==> Strip(s) == s
  {
    if s != [] {
      StripPlain(s[1..]);
    }
  }

  /** Every dispatched line is non-blank and free of line terminators. */
  lemma {:induction false} LinesArePlain(s: seq<byte>)
    ensures forall line :: line in Lines(s) ==> IsPlain(line)
    ensures CR !in Tail(s) && LF !in Tail(s)
    decreases |s|
  {
    var i := LineEnd(s);
    StripPlain(s[..i]);
    hide Lines, Tail, Strip, LineEnd;
    if i < |s| {
      LinesArePlain(s[i + 1..]);
      Cut(s, i);
    } else {
      assert s[..i] == s;
      Uncut(s);
    }
  }

  /** A peer writing plain lines, each closed by carriage return and line feed. */
  function Written(ls: seq<Line>): (r: seq<byte>) {
    if ls == [] then [] else ls[0] + [CR, LF] + Written(ls[1..])
  }

  lemma {:induction false} LineEndAt(a: seq<byte>, rest: seq<byte>)
    requires LF !in a
    ensures LineEnd(a + [LF] + rest) == |a|
  {
    var s := a + [LF] + rest;
    if a == [] {
    } else {
      LineEndAt(a[1..], rest);
      assert s[1..] == a[1..] + [LF] + rest;
    }
  }

  lemma FirstLine(a: seq<byte>, rest: seq<byte>)
    requires LF !in a
    ensures Lines(a + [LF] + rest) == Keep(Strip(a)) + Lines(rest) && Tail(a + [LF] + rest) == Tail(rest)
  {
    LineEndAt(a, rest);
    hide *;
    var s := a + [LF] + rest;
    assert s[..|a|] == a && s[|a| + 1..] == rest;
    Cut(s, |a|);
  }

  lemma WrittenFirst(ls: seq<Line>)
    requires ls != []
    ensures Written(ls) == (ls[0] + [CR]) + [LF] + Written(ls[1..]) && ls == [ls[0]] + ls[1..]
  {
    var w := Written(ls[1..]);
    hide Written;
    Pair(ls[0], CR, LF, w);
  }

  lemma Pair<T>(a: seq<T>, x: T, y: T, w: seq<T>)
    ensures a + [x, y] + w == (a + [x]) + [y] + w
  {
  }

  lemma PlainLine(line: Line)
    requires IsPlain(line)
    ensures LF !in line + [CR] && Keep(Strip(line + [CR])) == [line]
  {
    StripSnoc(line, CR);
    StripPlain(line);
    assert line + [] == line;
    hide Strip;
  }

  /** What a peer wrote line by line is what gets dispatched. */
  lemma {:induction false} WrittenLinesArrive(ls: seq<Line>)
    requires forall k :: 0 <= k < |ls| ==> IsPlain(ls[k])
    ensures Lines(Written(ls)) == ls && Tail(Written(ls)) == []
  {
    if ls == [] {
    } else {
      hide *;
      WrittenLinesArrive(ls[1..]);
      PlainLine(ls[0]);
      WrittenFirst(ls);
      FirstLine(ls[0] + [CR], Written(ls[1..]));
    }
  }
}
