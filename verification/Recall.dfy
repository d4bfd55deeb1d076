/** Phase 1 of an episode: streamed associative recall, and the materialised form it refines. */
module Recall {
  import opened Arith
  import opened Bytes
  import opened Sums
  import opened Extract
  import opened Gemm

  const SEG_LEN: nat := 32768

  // ---------------------------------------------------------------- the materialised form

  function RowOf(m: seq<int>, i: nat, cols: nat): (row: seq<int>)
    requires RowStart(i, cols) + cols <= |m|
    ensures |row| == cols
  {
    m[RowStart(i, cols)..RowStart(i, cols) + cols]
  }

  /** Extract over a whole matrix, tile (i, bj) by tile. */
  ghost function ExtractMatrix(pr: Primitives, prf: Digest, y: seq<int>, rows: nat, cols: nat): (out: seq<i8>)
    requires TilesProductive(pr.chacha) && RowStart(rows, cols) <= |y|
    ensures |out| == RowStart(rows, cols)
    ensures forall k :: 0 <= k < |out| ==> IsMxValue(out[k])
    decreases rows
  {
    if rows == 0 then [] else
      RowStep(rows - 1, cols);
      ExtractMatrix(pr, prf, y, rows - 1, cols) + ExtractRow(pr, prf, rows - 1, RowOf(y, rows - 1, cols))
  }

  function Transpose(m: seq<int>, rows: nat, cols: nat): (t: seq<int>)
    ensures |t| == RowStart(cols, rows)
  {
    if rows == 0 then [] else
      seq(RowStart(cols, rows), k requires 0 <= k < RowStart(cols, rows) =>
        DivNonNeg(k, rows); Cell(m, cols, k % rows, k / rows))
  }

  /** Z = Extract(Extract(Q K^T) V). */
  ghost function Materialised(pr: Primitives, prfS: Digest, prfZ: Digest, q: seq<int>, k: seq<int>, v: seq<int>,
                              nQ: nat, nCtx: nat, dHead: nat): (z: seq<i8>)
    requires TilesProductive(pr.chacha)
    ensures |z| == RowStart(nQ, dHead)
    ensures forall j :: 0 <= j < |z| ==> IsMxValue(z[j])
  {
    var s := ExtractMatrix(pr, prfS, Product(q, Transpose(k, nCtx, dHead), nQ, dHead, nCtx), nQ, nCtx);
    ExtractMatrix(pr, prfZ, Product(s, v, nQ, nCtx, dHead), nQ, dHead)
  }

  // ---------------------------------------------------------------- one row at a time

  /** The scores of query `i`, the keys read in their own layout. */
  function Score(q: seq<int>, k: seq<int>, dHead: nat, i: nat, t: nat, n: nat): int {
    Sum(n, d => ScoreTerm(q, k, dHead, i, t, d))
  }

  function ScoreTerm(q: seq<int>, k: seq<int>, dHead: nat, i: nat, t: nat, d: int): int {
    if d < 0 then 0 else Cell(q, dHead, i, d) * Cell(k, dHead, t, d)
  }

  function Scores(q: seq<int>, k: seq<int>, nCtx: nat, dHead: nat, i: nat): (y: seq<int>)
    ensures |y| == nCtx
    ensures forall t :: 0 <= t < nCtx ==> y[t] == Score(q, k, dHead, i, t, dHead)
  {
    seq(nCtx, t requires 0 <= t < nCtx => Score(q, k, dHead, i, t, dHead))
  }

  /** One row of the result: extracted scores, times V, extracted. */
  ghost function RecallRowSpec(pr: Primitives, prfS: Digest, prfZ: Digest, q: seq<int>, k: seq<int>, v: seq<int>,
                               nCtx: nat, dHead: nat, i: nat): (z: seq<i8>)
    requires TilesProductive(pr.chacha)
    ensures |z| == dHead
  {
    ExtractRow(pr, prfZ, i, ProductRow(ExtractRow(pr, prfS, i, Scores(q, k, nCtx, dHead, i)), v, nCtx, dHead, 0))
  }

  lemma TransposeCell(m: seq<int>, rows: nat, cols: nat, t: nat, d: nat)
    requires t < rows && d < cols
    ensures Cell(Transpose(m, rows, cols), rows, d, t) == Cell(m, cols, t, d)
  {
    CellIndex(d, t, cols, rows);
    hide Cell;
    assert Transpose(m, rows, cols)[RowStart(d, rows) + t] == Cell(m, cols, t, d);
    CellIn(Transpose(m, rows, cols), rows, d, t);
  }

  lemma CellIn(m: seq<int>, cols: nat, r: nat, c: nat)
    requires RowStart(r, cols) + c < |m|
    ensures Cell(m, cols, r, c) == m[RowStart(r, cols) + c]
  {
  }

  lemma ScoresAreProduct(q: seq<int>, k: seq<int>, nCtx: nat, dHead: nat, i: nat)
    ensures Scores(q, k, nCtx, dHead, i) == ProductRow(q, Transpose(k, nCtx, dHead), dHead, nCtx, i)
  {
    hide Transpose, Cell;
    var kt := Transpose(k, nCtx, dHead);
    forall t | 0 <= t < nCtx ensures Score(q, k, dHead, i, t, dHead) == Dot(q, kt, dHead, nCtx, i, t, dHead) {
      forall d | 0 <= d < dHead ensures ScoreTerm(q, k, dHead, i, t, d) == Term(q, kt, dHead, nCtx, i, t, d) {
        TransposeCell(k, nCtx, dHead, t, d);
      }
      SumExt(dHead, d => ScoreTerm(q, k, dHead, i, t, d), d => Term(q, kt, dHead, nCtx, i, t, d));
    }
  }

  lemma {:induction false} RowOfProduct(l: seq<int>, r: seq<int>, rows: nat, inner: nat, cols: nat, i: nat)
    requires i < rows
    ensures RowStart(i, cols) + cols <= RowStart(rows, cols)
    ensures RowOf(Product(l, r, rows, inner, cols), i, cols) == ProductRow(l, r, inner, cols, i)
  {
    RowFits(i, rows, cols);
    hide Product, RowStart, Dot;
    forall j | 0 <= j < cols
      ensures RowOf(Product(l, r, rows, inner, cols), i, cols)[j] == ProductRow(l, r, inner, cols, i)[j]
    {
      ProductCell(l, r, rows, inner, cols, i, j);
    }
  }

  lemma {:induction false} RowOfExtract(pr: Primitives, prf: Digest, y: seq<int>, rows: nat, cols: nat, i: nat)
    requires TilesProductive(pr.chacha) && RowStart(rows, cols) <= |y| && i < rows
    ensures RowStart(i, cols) + cols <= RowStart(rows, cols)
    ensures RowOf(ExtractMatrix(pr, prf, y, rows, cols), i, cols) == ExtractRow(pr, prf, i, RowOf(y, i, cols))
    decreases rows
  {
    hide *;
    RowFits(i, rows, cols);
    ExtractMatrixStep(pr, prf, y, rows, cols, i);
    if i < rows - 1 { RowOfExtract(pr, prf, y, rows - 1, cols, i); }
  }

  lemma RowAbove(above: seq<int>, last: seq<int>, i: nat, cols: nat)
    requires RowStart(i, cols) + cols <= |above|
    ensures RowOf(above + last, i, cols) == RowOf(above, i, cols)
  {
    hide RowStart;
  }

  lemma RowLast(above: seq<int>, last: seq<int>, i: nat, cols: nat)
    requires |above| == RowStart(i, cols) && |last| == cols
    ensures RowOf(above + last, i, cols) == last
  {
    hide RowStart;
  }

  lemma MatrixGrows(pr: Primitives, prf: Digest, y: seq<int>, rows: nat, cols: nat)
    requires TilesProductive(pr.chacha) && RowStart(rows, cols) <= |y| && rows >= 1
    ensures RowStart(rows - 1, cols) + cols == RowStart(rows, cols)
    ensures ExtractMatrix(pr, prf, y, rows, cols)
         == ExtractMatrix(pr, prf, y, rows - 1, cols) + ExtractRow(pr, prf, rows - 1, RowOf(y, rows - 1, cols))
  {
    RowStep(rows - 1, cols);
    hide RowStart, ExtractRow, TilesProductive, RowOf;
  }

  /** The last row of an extracted matrix, and every row above it. */
  lemma ExtractMatrixStep(pr: Primitives, prf: Digest, y: seq<int>, rows: nat, cols: nat, i: nat)
    requires TilesProductive(pr.chacha) && RowStart(rows, cols) <= |y| && i < rows
    ensures RowStart(i, cols) + cols <= RowStart(rows, cols) && RowStart(rows - 1, cols) <= |y|
    ensures i < rows - 1 ==> RowStart(i, cols) + cols <= RowStart(rows - 1, cols)
    ensures RowOf(ExtractMatrix(pr, prf, y, rows, cols), i, cols) ==
      if i == rows - 1 then ExtractRow(pr, prf, i, RowOf(y, i, cols))
      else RowOf(ExtractMatrix(pr, prf, y, rows - 1, cols), i, cols)
  {
    hide *;
    MatrixGrows(pr, prf, y, rows, cols);
    RowAppended(ExtractMatrix(pr, prf, y, rows - 1, cols),
                ExtractRow(pr, prf, rows - 1, RowOf(y, rows - 1, cols)), rows, cols, i);
  }

  /** The rows of a matrix to which one more has been appended. */
  lemma RowAppended(above: seq<int>, last: seq<int>, rows: nat, cols: nat, i: nat)
    requires i < rows && |above| == RowStart(rows - 1, cols) && |last| == cols
    ensures RowStart(i, cols) + cols <= RowStart(rows, cols) == |above + last|
    ensures i < rows - 1 ==> RowStart(i, cols) + cols <= RowStart(rows - 1, cols)
    ensures RowOf(above + last, i, cols) == if i == rows - 1 then last else RowOf(above, i, cols)
  {
    RowFits(i, rows, cols);
    RowStep(rows - 1, cols);
    hide RowStart, RowOf;
    if i == rows - 1 {
      RowLast(above, last, i, cols);
    } else {
      RowFits(i, rows - 1, cols);
      RowAbove(above, last, i, cols);
    }
  }

  /** A product row only reads its own row of the left factor. */
  lemma OwnRow(l: seq<int>, r: seq<int>, inner: nat, cols: nat, i: nat)
    requires RowStart(i, inner) + inner <= |l|
    ensures ProductRow(l, r, inner, cols, i) == ProductRow(RowOf(l, i, inner), r, inner, cols, 0)
  {
    var own := RowOf(l, i, inner);
    assert RowStart(0, inner) == 0;
    assert forall t :: 0 <= t < inner ==> Cell(l, inner, i, t) == Cell(own, inner, 0, t);
    hide Cell, RowStart, RowOf;
    forall j | 0 <= j < cols ensures Dot(l, r, inner, cols, i, j, inner) == Dot(own, r, inner, cols, 0, j, inner) {
      SumExt(inner, t => Term(l, r, inner, cols, i, j, t), t => Term(own, r, inner, cols, 0, j, t));
    }
  }

  /** Every row of the materialised form is the row specification. */
  lemma RowOfMaterialised(pr: Primitives, prfS: Digest, prfZ: Digest, q: seq<int>, k: seq<int>, v: seq<int>,
                          nQ: nat, nCtx: nat, dHead: nat, i: nat)
    requires TilesProductive(pr.chacha) && i < nQ
    ensures RowStart(i, dHead) + dHead <= RowStart(nQ, dHead)
    ensures RowOf(Materialised(pr, prfS, prfZ, q, k, v, nQ, nCtx, dHead), i, dHead)
         == RecallRowSpec(pr, prfS, prfZ, q, k, v, nCtx, dHead, i)
  {
    var kt := Transpose(k, nCtx, dHead);
    var y := Product(q, kt, nQ, dHead, nCtx);
    var s := ExtractMatrix(pr, prfS, y, nQ, nCtx);
    var w := Product(s, v, nQ, nCtx, dHead);
    hide Product, ExtractMatrix, ExtractRow, ProductRow, RowStart, Transpose, Scores, RowOf, TilesProductive;
    RowOfExtract(pr, prfZ, w, nQ, dHead, i);
    RowOfProduct(s, v, nQ, nCtx, dHead, i);
    RowOfExtract(pr, prfS, y, nQ, nCtx, i);
    RowOfProduct(q, kt, nQ, dHead, nCtx, i);
    ScoresAreProduct(q, k, nCtx, dHead, i);
    OwnRow(s, v, nCtx, dHead, i);
  }

  // ---------------------------------------------------------------- the streamed loop

  function AddRows(a: seq<int>, b: seq<int>): (c: seq<int>)
    requires |a| == |b|
    ensures |c| == |a| && forall d :: 0 <= d < |a| ==> c[d] == a[d] + b[d]
  {
    seq(|a|, d requires 0 <= d < |a| => a[d] + b[d])
  }

  /** Closed segments plus the open one are the weighted sum over the first `n` keys, and neither
      accumulator has left the 64-bit range. */
  ghost predicate Accumulated(s: seq<int>, v: seq<int>, nCtx: nat, dHead: nat, accZ: seq<int>, segRow: seq<int>, n: nat) {
    && |accZ| == |segRow| == dHead
    && forall d :: 0 <= d < dHead ==>
         && accZ[d] + segRow[d] == Dot(s, v, nCtx, dHead, 0, d, n)
         && Magnitude(accZ[d]) + Magnitude(segRow[d]) <= 2304 * n
  }

  function Magnitude(x: int): nat { if x < 0 then -x else x }

  /** Closing the open segment moves it over without changing the total. */
  lemma Flushed(s: seq<int>, v: seq<int>, nCtx: nat, dHead: nat, accZ: seq<int>, segRow: seq<int>, n: nat)
    requires Accumulated(s, v, nCtx, dHead, accZ, segRow, n)
    ensures Accumulated(s, v, nCtx, dHead, AddRows(accZ, segRow), seq(dHead, _ => 0), n)
  {
    hide Dot;
  }

  function WeighedRow(weight: int, v: seq<int>, dHead: nat, t: nat, segRow: seq<int>): (row: seq<int>)
    requires |segRow| == dHead
    ensures |row| == dHead
    ensures forall d :: 0 <= d < dHead ==> row[d] == segRow[d] + weight * Cell(v, dHead, t, d)
  {
    seq(dHead, d requires 0 <= d < dHead => segRow[d] + weight * Cell(v, dHead, t, d))
  }

  /** One more key, weighed into the open segment. */
  lemma Weighed(s: seq<int>, v: seq<int>, nCtx: nat, dHead: nat, accZ: seq<int>, segRow: seq<int>, n: nat)
    requires n < nCtx == |s| && Bounded(s, 48) && Bounded(v, 48)
    requires Accumulated(s, v, nCtx, dHead, accZ, segRow, n)
    ensures Accumulated(s, v, nCtx, dHead, accZ, WeighedRow(s[n], v, dHead, n, segRow), n + 1)
  {
    var row := WeighedRow(s[n], v, dHead, n, segRow);
    assert Cell(s, nCtx, 0, n) == s[n];
    hide Dot;
    forall d | 0 <= d < dHead
      ensures accZ[d] + row[d] == Dot(s, v, nCtx, dHead, 0, d, n + 1)
      ensures Magnitude(accZ[d]) + Magnitude(row[d]) <= 2304 * (n + 1)
    {
      DotStep(s, v, nCtx, dHead, 0, d, n);
      ProductBound(s[n], Cell(v, dHead, n, d), 48, 48);
    }
  }

  /** Fold one extracted tile into the accumulators, closing a segment when the key index crosses one. */
  method ConsumeTile(tile: seq<i8>, ghost s: seq<int>, v: seq<int>, nCtx: nat, dHead: nat, t0: nat,
                     accIn: seq<int>, segIn: seq<int>, curIn: nat)
    returns (accZ: seq<int>, segRow: seq<int>, curSeg: nat)
    requires |s| == nCtx && t0 + |tile| <= nCtx && s[t0..t0 + |tile|] == tile
    requires Bounded(s, 48) && Bounded(v, 48) && |v| == RowStart(nCtx, dHead)
    requires Accumulated(s, v, nCtx, dHead, accIn, segIn, t0)
    ensures Accumulated(s, v, nCtx, dHead, accZ, segRow, t0 + |tile|)
  {
    accZ, segRow, curSeg := accIn, segIn, curIn;
    for off := 0 to |tile|
      invariant Accumulated(s, v, nCtx, dHead, accZ, segRow, t0 + off)
    {
      var tt := t0 + off;
      var seg := tt / SEG_LEN;
      if seg != curSeg {
        Flushed(s, v, nCtx, dHead, accZ, segRow, tt);
        accZ := AddRows(accZ, segRow);
        segRow := seq(dHead, _ => 0);
        curSeg := seg;
      }
      assert s[tt] == s[t0..t0 + |tile|][off] == tile[off];
      Weighed(s, v, nCtx, dHead, accZ, segRow, tt);
      segRow := WeighedRow(tile[off], v, dHead, tt, segRow);
    }
  }

  /** The score of one query against one key. */
  method ScoreOf(q: seq<int>, k: seq<int>, dHead: nat, i: nat, t: nat) returns (acc: int)
    requires RowStart(i, dHead) + dHead <= |q| && RowStart(t, dHead) + dHead <= |k|
    ensures acc == Score(q, k, dHead, i, t, dHead)
  {
    acc := 0;
    for d := 0 to dHead
      invariant acc == Score(q, k, dHead, i, t, d)
    {
      acc := acc + q[RowStart(i, dHead) + d] * k[RowStart(t, dHead) + d];
    }
  }

  lemma {:induction false} TileOfTiles(pr: Primitives, prf: Digest, i: nat, raw: seq<int>, nb: nat, b: nat)
    requires TilesProductive(pr.chacha) && BLOCK * nb <= |raw| && b < nb
    ensures ExtractTiles(pr, prf, i, raw, nb)[BLOCK * b..BLOCK * b + BLOCK]
         == Tile(pr, prf, i, b, raw[BLOCK * b..BLOCK * (b + 1)])
    decreases nb
  {
    hide Tile, TilesProductive;
    var before := ExtractTiles(pr, prf, i, raw, nb - 1);
    var last := Tile(pr, prf, i, nb - 1, raw[BLOCK * (nb - 1)..BLOCK * nb]);
    if b < nb - 1 {
      TileOfTiles(pr, prf, i, raw, nb - 1, b);
      SliceLeft(before, last, BLOCK * b, BLOCK * b + BLOCK);
    } else {
      SliceRight(before, last);
    }
  }

  /** Tile `b` of an extracted row. */
  lemma TileOfRow(pr: Primitives, prf: Digest, i: nat, raw: seq<int>, b: nat)
    requires TilesProductive(pr.chacha) && BLOCK * (b + 1) <= |raw|
    ensures ExtractRow(pr, prf, i, raw)[BLOCK * b..BLOCK * b + BLOCK]
         == Tile(pr, prf, i, b, raw[BLOCK * b..BLOCK * (b + 1)])
  {
    hide Tile, TilesProductive;
    TileOfTiles(pr, prf, i, raw, |raw| / BLOCK, b);
    SliceLeft(ExtractTiles(pr, prf, i, raw, |raw| / BLOCK), ZeroTail(|raw| % BLOCK), BLOCK * b, BLOCK * b + BLOCK);
  }

  /** Tile `b` of row `i` of an extracted matrix is extracted from its own 32 sums, keyed by (i, b). */
  lemma TileOfMatrix(pr: Primitives, prf: Digest, y: seq<int>, rows: nat, cols: nat, i: nat, b: nat)
    requires TilesProductive(pr.chacha) && RowStart(rows, cols) <= |y| && i < rows && BLOCK * (b + 1) <= cols
    ensures RowStart(i, cols) + cols <= RowStart(rows, cols)
    ensures RowOf(ExtractMatrix(pr, prf, y, rows, cols), i, cols)[BLOCK * b..BLOCK * b + BLOCK]
         == Tile(pr, prf, i, b, RowOf(y, i, cols)[BLOCK * b..BLOCK * (b + 1)])
  {
    hide *;
    RowOfExtract(pr, prf, y, rows, cols, i);
    TileOfRow(pr, prf, i, RowOf(y, i, cols), b);
  }

  /** Keys beyond the last full tile weigh nothing. */
  lemma {:induction false} TailWeighsNothing(s: seq<int>, v: seq<int>, nCtx: nat, dHead: nat, d: nat, a: nat, b: nat)
    requires a <= b <= nCtx == |s| && forall t :: a <= t < nCtx ==> s[t] == 0
    ensures Dot(s, v, nCtx, dHead, 0, d, b) == Dot(s, v, nCtx, dHead, 0, d, a)
    decreases b
  {
    if a < b {
      assert Cell(s, nCtx, 0, b - 1) == 0;
      hide Dot, Cell;
      DotStep(s, v, nCtx, dHead, 0, d, b - 1);
      TailWeighsNothing(s, v, nCtx, dHead, d, a, b - 1);
    }
  }

  lemma MxBounded(m: seq<int>)
    requires forall k :: 0 <= k < |m| ==> IsMxValue(m[k])
    ensures Bounded(m, 48)
  {
  }

  lemma NothingYet(s: seq<int>, v: seq<int>, nCtx: nat, dHead: nat)
    ensures Accumulated(s, v, nCtx, dHead, seq(dHead, _ => 0), seq(dHead, _ => 0), 0)
  {
    forall d | 0 <= d < dHead ensures Dot(s, v, nCtx, dHead, 0, d, 0) == 0 {
      DotStep(s, v, nCtx, dHead, 0, d, 0);
    }
  }

  /** The accumulators after the last full tile are the whole weighted row. */
  lemma AllWeighed(pr: Primitives, prfS: Digest, i: nat, y: seq<int>, v: seq<int>, nCtx: nat, dHead: nat,
                   accZ: seq<int>, segRow: seq<int>, bj: nat)
    requires TilesProductive(pr.chacha) && |y| == nCtx && bj == nCtx / BLOCK
    requires Accumulated(ExtractRow(pr, prfS, i, y), v, nCtx, dHead, accZ, segRow, BLOCK * bj)
    ensures AddRows(accZ, segRow) == ProductRow(ExtractRow(pr, prfS, i, y), v, nCtx, dHead, 0)
  {
    var s, done := ExtractRow(pr, prfS, i, y), BLOCK * bj;
    TailIsZero(pr, prfS, i, y, bj);
    hide Dot, ExtractRow, TilesProductive, Magnitude;
    forall d | 0 <= d < dHead ensures Dot(s, v, nCtx, dHead, 0, d, done) == Dot(s, v, nCtx, dHead, 0, d, nCtx) {
      TailWeighsNothing(s, v, nCtx, dHead, d, done, nCtx);
    }
  }

  lemma TailIsZero(pr: Primitives, prf: Digest, i: nat, y: seq<int>, bj: nat)
    requires TilesProductive(pr.chacha) && bj == |y| / BLOCK
    ensures forall t :: BLOCK * bj <= t < |y| ==> ExtractRow(pr, prf, i, y)[t] == 0
  {
    hide Tile, ExtractTiles, TilesProductive;
  }

  /** 32 pending scores: extracted as tile `bj`, then weighed. */
  method ConsumePending(pr: Primitives, prfS: Digest, i: nat, pending: seq<int>, ghost y: seq<int>, v: seq<i8>,
                        nCtx: nat, dHead: nat, bj: nat, accIn: seq<int>, segIn: seq<int>, curIn: nat)
    returns (accZ: seq<int>, segRow: seq<int>, curSeg: nat)
    requires TilesProductive(pr.chacha) && |y| == nCtx && BLOCK * (bj + 1) <= nCtx
    requires |pending| == BLOCK && pending == y[BLOCK * bj..BLOCK * (bj + 1)]
    requires |v| == RowStart(nCtx, dHead) && Bounded(v, 48)
    requires Accumulated(ExtractRow(pr, prfS, i, y), v, nCtx, dHead, accIn, segIn, BLOCK * bj)
    ensures Accumulated(ExtractRow(pr, prfS, i, y), v, nCtx, dHead, accZ, segRow, BLOCK * bj + BLOCK)
  {
    ghost var s := ExtractRow(pr, prfS, i, y);
    MxBounded(s);
    assert BLOCK == 32;
    hide *;
    var tile := ExtractTile(pr, prfS, i, bj, pending);
    TileOfRow(pr, prfS, i, y, bj);
    accZ, segRow, curSeg := ConsumeTile(tile, s, v, nCtx, dHead, BLOCK * bj, accIn, segIn, curIn);
  }

  /** Streamed recall of one query: scores gathered 32 at a time, extracted, weighed, segment by segment. */
  method RecallRow(pr: Primitives, prfS: Digest, prfZ: Digest, q: seq<i8>, k: seq<i8>, v: seq<i8>,
                   nCtx: nat, dHead: nat, i: nat)
    returns (z: seq<i8>)
    requires TilesProductive(pr.chacha) && RowStart(i, dHead) + dHead <= |q|
    requires |k| == |v| == RowStart(nCtx, dHead) && Bounded(v, 48)
    ensures z == RecallRowSpec(pr, prfS, prfZ, q, k, v, nCtx, dHead, i)
  {
    assert BLOCK == 32;
    ghost var y := Scores(q, k, nCtx, dHead, i);
    ghost var s := ExtractRow(pr, prfS, i, y);
    MxBounded(s);
    hide *;
    var pending: seq<int> := [];
    var bj, t0, curSeg := 0, 0, 0;
    var accZ, segRow: seq<int> := seq(dHead, _ => 0), seq(dHead, _ => 0);
    NothingYet(s, v, nCtx, dHead);
    for t := 0 to nCtx
      invariant t0 == BLOCK * bj && t0 + |pending| == t && |pending| < BLOCK && pending == y[t0..t]
      invariant Accumulated(s, v, nCtx, dHead, accZ, segRow, t0)
    {
      RowFits(t, nCtx, dHead);
      var acc := ScoreOf(q, k, dHead, i, t);
      SliceSnoc(y, t0, t);
      pending := pending + [acc];
      if |pending| == BLOCK {
        accZ, segRow, curSeg := ConsumePending(pr, prfS, i, pending, y, v, nCtx, dHead, bj, accZ, segRow, curSeg);
        pending, bj, t0 := [], bj + 1, t0 + BLOCK;
      }
    }
    AllWeighed(pr, prfS, i, y, v, nCtx, dHead, accZ, segRow, bj);
    RowSpecIs(pr, prfS, prfZ, q, k, v, nCtx, dHead, i);
    z := ExtractWholeRow(pr, prfZ, i, AddRows(accZ, segRow));
  }

  lemma RowSpecIs(pr: Primitives, prfS: Digest, prfZ: Digest, q: seq<int>, k: seq<int>, v: seq<int>,
                  nCtx: nat, dHead: nat, i: nat)
    requires TilesProductive(pr.chacha)
    ensures RecallRowSpec(pr, prfS, prfZ, q, k, v, nCtx, dHead, i)
         == ExtractRow(pr, prfZ, i, ProductRow(ExtractRow(pr, prfS, i, Scores(q, k, nCtx, dHead, i)), v, nCtx, dHead, 0))
  {
  }

  /** Phase 1: every query in turn. The result is the materialised form, whatever the shape. */
  method RecallAll(pr: Primitives, prfS: Digest, prfZ: Digest, q: seq<i8>, k: seq<i8>, v: seq<i8>,
                   nQ: nat, nCtx: nat, dHead: nat)
    returns (z: seq<i8>)
    requires TilesProductive(pr.chacha) && |q| == RowStart(nQ, dHead)
    requires |k| == |v| == RowStart(nCtx, dHead) && Bounded(v, 48)
    ensures z == Materialised(pr, prfS, prfZ, q, k, v, nQ, nCtx, dHead)
  {
    ghost var all := Materialised(pr, prfS, prfZ, q, k, v, nQ, nCtx, dHead);
    assert RowStart(0, dHead) == 0;
    hide *;
    z := [];
    for i := 0 to nQ
      invariant RowStart(i, dHead) <= |all| && z == all[..RowStart(i, dHead)]
    {
      RowFits(i, nQ, dHead);
      RowStep(i, dHead);
      var row := RecallRow(pr, prfS, prfZ, q, k, v, nCtx, dHead, i);
      RowOfMaterialised(pr, prfS, prfZ, q, k, v, nQ, nCtx, dHead, i);
      RowIsSlice(all, i, dHead);
      PrefixSlice(all, RowStart(i, dHead), RowStart(i, dHead) + dHead);
      z := z + row;
    }
    WholePrefix(all);
  }

  lemma RowIsSlice(m: seq<int>, i: nat, cols: nat)
    requires RowStart(i, cols) + cols <= |m|
    ensures RowOf(m, i, cols) == m[RowStart(i, cols)..RowStart(i, cols) + cols]
  {
  }
}
