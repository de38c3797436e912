/** Folding lines into rows of a fixed width. */
module TextWrap {
  import opened Arith
  import opened TextLines

  /** A line ends at a newline, the last one at the end of the text. */
  predicate LineEnds(t: Text, i: int) {
    i == |t| || (0 <= i < |t| && t[i] == NL)
  }

  /** Where row `v` ends when the row after the last of `rows` is to start at `next`: before the
    * end of its line, or where the next row starts.
    */
  function RowEnd(t: Text, rows: seq<int>, next: int, v: nat): int
    requires v < |rows|
  {
    var n := if v + 1 < |rows| then rows[v + 1] else next;
    if LineEnds(t, n - 1) then n - 1 else n
  }

  /** Row `v`: no wider than `cols`, without a newline in it, and continuing its line exactly
    * where the row before it was full, unless it starts a line.
    */
  ghost predicate RowOk(t: Text, rows: seq<int>, cols: nat, next: int, v: nat)
    requires v < |rows|
  {
    var e := RowEnd(t, rows, next, v);
    && 0 <= rows[v] <= e <= |t| && e <= rows[v] + cols
    && (forall i :: rows[v] <= i < e && i < |t| ==> t[i] != NL)
    && (!IsStart(t, rows[v]) ==> v >= 1 && rows[v] == rows[v - 1] + cols && e > rows[v])
  }

  /** The rows of the text before `next`: from its start, in order, each as it should be. */
  ghost predicate RowsTo(t: Text, rows: seq<int>, cols: nat, next: int) {
    && Increasing(rows) && (rows != [] ==> rows[0] == 0)
    && (forall i :: 0 <= i < |rows| ==> 0 <= rows[i] < next)
    && forall v :: 0 <= v < |rows| ==> RowOk(t, rows, cols, next, v)
  }

  /** The rows of the whole text. */
  ghost predicate RowsOk(t: Text, rows: seq<int>, cols: nat) {
    rows != [] && RowsTo(t, rows, cols, |t| + 1)
  }

  /** Offset `k` is in row `v`. */
  predicate InRow(t: Text, rows: seq<int>, k: int, v: nat) {
    v < |rows| && rows[v] <= k < RowEnd(t, rows, |t| + 1, v)
  }

  /** Offset `k` is the newline between row `v` and the next one. */
  predicate BehindRow(t: Text, rows: seq<int>, k: int, v: nat) {
    v + 1 < |rows| && k == RowEnd(t, rows, |t| + 1, v) < rows[v + 1] && 0 <= k < |t| && t[k] == NL
  }

  /** The last of the first `n` rows to start at or before `k`. */
  ghost function LastStart(rows: seq<int>, k: int, n: nat): (v: nat)
    requires 1 <= n <= |rows| && rows[0] <= k
    ensures v < n && rows[v] <= k && (v + 1 < n ==> k < rows[v + 1])
  {
    if n == 1 || rows[n - 1] <= k then n - 1 else LastStart(rows, k, n - 1)
  }

  /** Row `v` alone holds offset `k`, as one of its characters or as the newline behind it. */
  ghost predicate HeldBy(t: Text, rows: seq<int>, k: int, v: nat) {
    && InRow(t, rows, k, v) != BehindRow(t, rows, k, v)
    && forall w: nat :: w < |rows| && w != v ==> !InRow(t, rows, k, w) && !BehindRow(t, rows, k, w)
  }

  /** Rows and the newlines between them cover the text without gap or overlap: every character
    * is in exactly one row, or it is the newline behind exactly one.
    */
  lemma RowsPartition(t: Text, rows: seq<int>, cols: nat, k: nat)
    requires RowsOk(t, rows, cols) && k < |t|
    ensures exists v: nat :: v < |rows| && HeldBy(t, rows, k, v)
  {
    hide LineEnds, RowsOk, InRow, BehindRow;
    HasRows(t, rows, cols);
    var v := LastStart(rows, k, |rows|);
    HeldHere(t, rows, cols, k, v);
    forall w: nat | w < |rows| && w != v
      ensures !InRow(t, rows, k, w) && !BehindRow(t, rows, k, w)
    {
      NotHere(t, rows, cols, k, v, w);
    }
    assert HeldBy(t, rows, k, v);
  }

  lemma HasRows(t: Text, rows: seq<int>, cols: nat)
    requires RowsOk(t, rows, cols)
    ensures |rows| >= 1 && rows[0] == 0
  {
  }

  lemma HeldHere(t: Text, rows: seq<int>, cols: nat, k: nat, v: nat)
    requires RowsOk(t, rows, cols) && v < |rows| && rows[v] <= k < |t| && (v + 1 < |rows| ==> k < rows[v + 1])
    ensures InRow(t, rows, k, v) != BehindRow(t, rows, k, v)
  {
    hide Increasing;
    assert RowOk(t, rows, cols, |t| + 1, v);
  }

  lemma NotHere(t: Text, rows: seq<int>, cols: nat, k: nat, v: nat, w: nat)
    requires RowsOk(t, rows, cols) && v < |rows| && w < |rows| && w != v
    requires rows[v] <= k && (v + 1 < |rows| ==> k < rows[v + 1])
    ensures !InRow(t, rows, k, w) && !BehindRow(t, rows, k, w)
  {
    hide RowOk;
    if w < v {
      assert rows[w + 1] <= rows[v];
    } else {
      assert rows[v + 1] <= rows[w];
    }
  }

  /** A row ends where it did once the next one is there. */
  lemma RowStays(t: Text, rows: seq<int>, cols: nat, start: int, next: int, v: nat)
    requires v < |rows| && RowOk(t, rows, cols, start, v)
    ensures RowOk(t, rows + [start], cols, next, v)
  {
    assert RowEnd(t, rows + [start], next, v) == RowEnd(t, rows, start, v);
  }

  /** One more row from `start`, the next to start at `next`. */
  lemma RowAdded(t: Text, rows: seq<int>, cols: nat, start: int, next: int)
    requires RowsTo(t, rows, cols, start) && 0 <= start < next && (rows == [] ==> start == 0)
    requires var e := if LineEnds(t, next - 1) then next - 1 else next;
             && start <= e <= |t| && e <= start + cols && (forall i :: start <= i < e && i < |t| ==> t[i] != NL)
             && (!IsStart(t, start) ==> rows != [] && start == rows[|rows| - 1] + cols && e > start)
    ensures RowsTo(t, rows + [start], cols, next)
  {
    var rows' := rows + [start];
    forall v | 0 <= v < |rows'|
      ensures RowOk(t, rows', cols, next, v)
    {
      if v < |rows| {
        RowStays(t, rows, cols, start, next, v);
      }
    }
  }

  /** Rows a line of `run` characters takes: one at least. */
  function RowsFor(run: nat, cols: nat): (n: nat)
    requires cols >= 1
    ensures n >= 1
  {
    Max(1, CeilDiv(run, cols))
  }

  /** Whole rows in `n` characters. */
  function FullRows(n: nat, cols: nat): nat
    requires cols >= 1
  {
    n / cols
  }

  /** Where chunk `c` of a line starts; past the last one, where the next line does. */
  function ChunkStart(start: nat, run: nat, cols: nat, c: nat): nat {
    if c == 0 || Times(c, cols) < run then start + Times(c, cols) else start + run + 1
  }

  /** A line as the index gives it: from a start to the first newline, or the end. */
  ghost predicate IsLine(t: Text, start: nat, run: nat) {
    && IsStart(t, start) && start + run <= |t| && LineEnds(t, start + run)
    && forall i :: start <= i < start + run ==> t[i] != NL
  }

  /** One more chunk of a line is a row. */
  lemma ChunkAdded(t: Text, rows: seq<int>, cols: nat, start: nat, run: nat, c: nat)
    requires cols >= 1 && IsLine(t, start, run) && c < RowsFor(run, cols) && RowsTo(t, rows, cols, ChunkStart(start, run, cols, c))
    requires if c == 0 then rows == [] ==> start == 0 else rows != [] && rows[|rows| - 1] + cols == start + Times(c, cols)
    ensures ChunkStart(start, run, cols, c) == start + Times(c, cols)
    ensures RowsTo(t, rows + [start + Times(c, cols)], cols, ChunkStart(start, run, cols, c + 1))
    ensures Times(c + 1, cols) == Times(c, cols) + cols
  {
    hide RowsTo;
    ChunkInLine(run, cols, c);
    if Times(c + 1, cols) < run {
      var next := start + Times(c + 1, cols);
      assert !LineEnds(t, next - 1);
    }
    RowAdded(t, rows, cols, start + Times(c, cols), ChunkStart(start, run, cols, c + 1));
  }

  lemma ChunkInLine(run: nat, cols: nat, c: nat)
    requires cols >= 1 && c < RowsFor(run, cols)
    ensures Times(c + 1, cols) == Times(c, cols) + cols
    ensures c > 0 ==> Times(c, cols) < run
    ensures Times(c, cols) <= run
    ensures Times(c + 1, cols) < run || (c + 1 == RowsFor(run, cols) && run <= Times(c, cols) + cols)
  {
    CeilDivBounds(run, cols);
    var chunks := CeilDiv(run, cols);
    if chunks >= 1 {
      MulMonotone(c, chunks - 1, cols);
      if c + 1 < chunks {
        MulMonotone(c + 1, chunks - 1, cols);
      }
    }
  }

  /** The rows of one line of `run` characters from `start` on. No row is written past `room`. */
  method FoldLine(t: Text, cols: nat, start: nat, run: nat, rows0: seq<int>, ghost room: nat) returns (rows: seq<int>)
    requires cols >= 1 && RowsTo(t, rows0, cols, start) && (rows0 == [] ==> start == 0) && IsLine(t, start, run)
    requires |rows0| + RowsFor(run, cols) <= room
    ensures RowsTo(t, rows, cols, start + run + 1) && |rows| == |rows0| + RowsFor(run, cols)
  {
    hide RowsTo, IsLine, Times;
    assert Times(0, cols) == 0 by { ZeroTimes(cols); }
    if run <= 0 {
      ChunkAdded(t, rows0, cols, start, run, 0);
      LastChunk(start, run, cols);
      return rows0 + [start];
    }
    var chunks := RowsFor(run, cols);
    rows := rows0;
    for c := 0 to chunks
      invariant |rows| == |rows0| + c && RowsTo(t, rows, cols, ChunkStart(start, run, cols, c))
      invariant c > 0 ==> rows != [] && rows[|rows| - 1] + cols == start + Times(c, cols)
    {
      assert |rows| < room;
      ChunkAdded(t, rows, cols, start, run, c);
      rows := rows + [start + Times(c, cols)];
    }
    LastChunk(start, run, cols);
  }

  lemma ZeroTimes(cols: nat)
    ensures Times(0, cols) == 0
  {
  }

  lemma LastChunk(start: nat, run: nat, cols: nat)
    requires cols >= 1
    ensures ChunkStart(start, run, cols, RowsFor(run, cols)) == start + run + 1
    ensures run == 0 ==> RowsFor(run, cols) == 1
  {
    CeilDivBounds(run, cols);
    if CeilDiv(run, cols) >= 1 {
      MulMonotone(1, RowsFor(run, cols), cols);
    }
  }

  /** Rows of the lines so far against the space reserved for them. */
  lemma RoomLeft(v: nat, start: nat, run: nat, cols: nat, line: nat, len: nat)
    requires cols >= 1 && v <= FullRows(start, cols) + line && start + run <= len
    ensures v + RowsFor(run, cols) <= FullRows(start + run, cols) + line + 1
    ensures FullRows(start + run, cols) <= FullRows(start + run + 1, cols) && FullRows(start + run, cols) <= FullRows(len, cols)
  {
    DivSum(start, run, cols);
    if run > 0 {
      CeilDivIsDiv(run, cols);
    } else {
      CeilDivBounds(0, cols);
    }
    DivSum(start + run, 1, cols);
    DivSum(start + run, len - start - run, cols);
  }

  lemma DivSum(a: nat, b: nat, cols: nat)
    requires cols >= 1
    ensures a / cols + b / cols <= (a + b) / cols
    ensures b / cols >= 0
  {
    var q := a / cols + b / cols;
    assert q * cols <= a + b by {
      assert a / cols * cols <= a && b / cols * cols <= b;
      assert q * cols == a / cols * cols + b / cols * cols;
    }
    if (a + b) / cols < q {
      MulMonotone((a + b) / cols + 1, q, cols);
    }
  }

  lemma CeilDivIsDiv(n: nat, cols: nat)
    requires cols >= 1 && n >= 1
    ensures CeilDiv(n, cols) <= n / cols + 1
  {
    CeilDivBounds(n, cols);
    if CeilDiv(n, cols) > n / cols + 1 {
      MulMonotone(n / cols + 1, CeilDiv(n, cols) - 1, cols);
    }
  }

  /** Fold every line, given the index of their starts. Never more rows are written than were
    * reserved.
    */
  method RebuildWrap(t: Text, lines: seq<int>, cols: nat) returns (rows: seq<int>)
    requires LineIndex(t, lines) && cols >= 1
    ensures RowsOk(t, rows, cols) && |rows| <= FullRows(|t|, cols) + |lines| + 8
  {
    hide RowsTo, LineIndex, IsLine, FullRows, RowsFor;
    StartsAndLines(t, lines);
    ghost var maxV := FullRows(|t|, cols) + |lines| + 8;
    rows := [];
    assert RowsTo(t, [], cols, 0) && FullRows(0, cols) == 0 by { NoRows(t, cols); }
    var li := 0;
    while li < |lines|
      invariant li <= |lines| && RowsTo(t, rows, cols, NextLine(t, lines, li)) && (rows == [] ==> li == 0)
      invariant |rows| <= Min(FullRows(NextLine(t, lines, li), cols), FullRows(|t|, cols)) + li
    {
      LineAtIndex(t, lines, li);
      var start := lines[li];
      var end := if li + 1 < |lines| then lines[li + 1] - 1 else |t|;
      var run := end - start;
      RoomLeft(|rows|, start, run, cols, li, |t|);
      rows := FoldLine(t, cols, start, run, rows, maxV);
      li := li + 1;
      if li < |lines| {
        LineAtIndex(t, lines, li);
      }
    }
  }

  /** Where line `li` starts, or past the text after the last line. */
  function NextLine(t: Text, lines: seq<int>, li: nat): (n: nat)
    requires li <= |lines|
  {
    if li < |lines| && lines[li] >= 0 then lines[li] else |t| + 1
  }

  lemma NoRows(t: Text, cols: nat)
    requires cols >= 1
    ensures RowsTo(t, [], cols, 0) && FullRows(0, cols) == 0
  {
  }

  /** What the index says of line `li`. */
  lemma LineAtIndex(t: Text, lines: seq<int>, li: nat)
    requires LineIndex(t, lines) && li < |lines|
    ensures 0 <= lines[li] <= |t| && IsStart(t, lines[li]) && (li == 0 ==> lines[li] == 0)
    ensures var end := if li + 1 < |lines| then lines[li + 1] - 1 else |t|;
            lines[li] <= end <= |t| && IsLine(t, lines[li], end - lines[li])
  {
    StartCounts(t, lines, li);
    StartsAndLines(t, lines);
    var end := if li + 1 < |lines| then lines[li + 1] - 1 else |t|;
    if li + 1 < |lines| {
      StartCounts(t, lines, li + 1);
      assert IsStart(t, lines[li + 1]) && lines[li] < lines[li + 1];
    }
    forall i | lines[li] <= i < end
      ensures t[i] != NL
    {
      assert forall k :: 0 <= k < |lines| ==> lines[k] != i + 1;
      assert !IsStart(t, i + 1);
    }
  }

  // ---- lookups ----

  /** Row `v` holds the offset. */
  ghost predicate RowHolds(t: Text, rows: seq<int>, offset: int, v: int) {
    0 <= v < |rows| && rows[v] <= offset && (v + 1 < |rows| ==> offset < rows[v + 1])
  }

  /** The row of an offset, by binary search. */
  method RowOf(t: Text, rows: seq<int>, cols: nat, offset: int) returns (v: int)
    requires RowsOk(t, rows, cols)
    ensures 0 <= v < |rows|
    ensures 0 <= offset <= |t| ==> RowHolds(t, rows, offset, v)
  {
    if offset <= 0 {
      return 0;
    }
    if offset >= |t| {
      return |rows| - 1;
    }
    var lo, hi := 0, |rows| - 1;
    while lo < hi
      invariant 0 <= lo <= hi < |rows| && rows[lo] <= offset
      invariant hi + 1 < |rows| ==> offset < rows[hi + 1]
    {
      var m := (lo + hi + 1) / 2;
      if rows[m] <= offset {
        lo := m;
      } else {
        hi := m - 1;
      }
    }
    v := lo;
  }

  /** Scroll just enough to show row `cv`, and never past the end. */
  method EnsureVisible(cv: nat, vis: nat, total: nat, scroll0: int) returns (scroll: int)
    requires vis >= 1 && cv < total
    ensures scroll <= cv < scroll + vis && 0 <= scroll <= Max(0, total - vis)
    ensures 0 <= scroll0 <= cv < scroll0 + vis && scroll0 <= Max(0, total - vis) ==> scroll == scroll0
  {
    scroll := scroll0;
    if cv < scroll {
      scroll := cv;
    } else if cv >= scroll + vis {
      scroll := cv - vis + 1;
    }
    if scroll < 0 {
      scroll := 0;
    }
    var maxScroll := total - vis;
    if maxScroll < 0 {
      maxScroll := 0;
    }
    if scroll > maxScroll {
      scroll := maxScroll;
    }
  }
}
