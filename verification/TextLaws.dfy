/** What runs of keys come to in a text box, said of characters and positions. */
module TextLaws {
  import opened Arith
  import opened TextLines
  import opened TextWrap
  import opened TextBox

  /** `t` with `w` in place of what lies between `a` and `b`. */
  function Replaced(t: Text, a: nat, b: nat, w: Text): Text
    requires a <= b <= |t|
  {
    t[..a] + w + t[b..]
  }

  /** A key that types its own character: a newline, a printable ASCII character, or one from 160 on. */
  predicate Types(key: nat) {
    key == 10 || 32 <= key < 127 || key >= 160
  }

  // ---- typing and pasting ----

  /** Pressing the characters of `w` one by one, with nothing selected, puts them in at the cursor, in order,
    * and leaves the cursor behind the last.
    */
  lemma {:induction false} TypingInserts(views: seq<View>, shapes: seq<Shape>, events: seq<Event>, f: Frame, first: Shape, i: nat, w: Text)
    requires Story(views, shapes, events, f, first) && i + |w| <= |events| && views[i].anchor == -1
    requires forall k :: 0 <= k < |w| ==> events[i + k] == Press(w[k]) && Types(w[k])
    ensures var s := views[i]; 0 <= s.cursor <= |s.text| && views[i + |w|] == View(Replaced(s.text, s.cursor, s.cursor, w), s.cursor + |w|, -1)
  {
    hide Told;
    var s := views[i];
    assert Inside(s);
    if w != [] {
      var n := |w| - 1;
      TypingInserts(views, shapes, events, f, first, i, w[..n]);
      assert events[i + n] == Press(w[n]) && [w[n]][0] == w[n];
      InputReplaces(views, shapes, events, f, first, i + n, [w[n]]);
      OneMore(s.text, s.cursor, w, n);
    } else {
      assert Replaced(s.text, s.cursor, s.cursor, w) == s.text;
    }
  }

  lemma OneMore(t: Text, c: nat, w: Text, n: nat)
    requires c <= |t| && n + 1 == |w|
    ensures Replaced(Replaced(t, c, c, w[..n]), c + n, c + n, [w[n]]) == Replaced(t, c, c, w)
  {
    assert w == w[..n] + [w[n]];
    var p := Replaced(t, c, c, w[..n]);
    assert p[..c + n] == t[..c] + w[..n] && p[c + n..] == t[c..];
  }

  /** The two ends of a selection. */
  function Low(s: View): int {
    if s.anchor < 0 then s.cursor else Min(s.anchor, s.cursor)
  }

  function High(s: View): int {
    if s.anchor < 0 then s.cursor else Max(s.anchor, s.cursor)
  }

  /** A key that types, or text that is pasted, replaces the selection, or nothing without one; the cursor ends
    * behind it. A tabulator types four spaces.
    */
  lemma InputReplaces(views: seq<View>, shapes: seq<Shape>, events: seq<Event>, f: Frame, first: Shape, i: nat, w: Text)
    requires Story(views, shapes, events, f, first) && i < |events| && w != []
    requires events[i] == PasteEvent(w) || (|w| == 1 && Types(w[0]) && events[i] == Press(w[0])) || (w == [32, 32, 32, 32] && events[i] == Press(9))
    ensures var s := views[i];
            && 0 <= Low(s) <= High(s) <= |s.text|
            && views[i + 1] == View(Replaced(s.text, Low(s), High(s), w), Low(s) + |w|, -1)
  {
    hide Handled, Typed, After;
    var s := views[i];
    assert Told(views, shapes, f, i, events[i]) && Inside(s);
    InputIsTyped(s, views[i + 1], Folding(shapes[i], f.showLineNumbers), events[i], w);
    TypedReplaces(s, w);
  }

  lemma InputIsTyped(s: View, s': View, cols: int, e: Event, w: Text)
    requires Handled(s, s', cols, e) && w != []
    requires e == PasteEvent(w) || (|w| == 1 && Types(w[0]) && e == Press(w[0])) || (w == [32, 32, 32, 32] && e == Press(9))
    ensures s' == After(Typed(s.text, s.cursor, s.anchor, w))
  {
    hide Vertically, ToEdge, Typed;
    if e.Press? && |w| == 1 {
      assert w == [w[0]];
    }
  }

  lemma TypedReplaces(s: View, w: Text)
    requires Inside(s)
    ensures 0 <= Low(s) <= High(s) <= |s.text|
    ensures After(Typed(s.text, s.cursor, s.anchor, w)) == View(Replaced(s.text, Low(s), High(s), w), Low(s) + |w|, -1)
  {
    assert s.text[..s.cursor] + s.text[s.cursor..] == s.text;
  }

  /** So pasting `w` comes to the same as typing it. */
  lemma PastingIsTyping(views: seq<View>, shapes: seq<Shape>, events: seq<Event>, views': seq<View>, shapes': seq<Shape>, events': seq<Event>,
                        f: Frame, first: Shape, i: nat, j: nat, w: Text)
    requires Story(views, shapes, events, f, first) && Story(views', shapes', events', f, first) && w != []
    requires i + |w| <= |events| && j < |events'| && views[i] == views'[j] && views[i].anchor == -1
    requires (forall k :: 0 <= k < |w| ==> events[i + k] == Press(w[k]) && Types(w[k])) && events'[j] == PasteEvent(w)
    ensures views[i + |w|] == views'[j + 1]
  {
    TypingInserts(views, shapes, events, f, first, i, w);
    InputReplaces(views', shapes', events', f, first, j, w);
  }

  // ---- deleting ----

  /** Backspace and the delete key take out the selection; without one, the character before the cursor and
    * the one behind it.
    */
  lemma KeysDelete(views: seq<View>, shapes: seq<Shape>, events: seq<Event>, f: Frame, first: Shape, i: nat)
    requires Story(views, shapes, events, f, first) && i < |events| && (events[i] == Press(8) || events[i] == Press(134))
    ensures var s := views[i];
            var a := if s.anchor >= 0 then Low(s) else if events[i].key == 8 then Max(0, s.cursor - 1) else s.cursor;
            var b := if s.anchor >= 0 then High(s) else if events[i].key == 8 then s.cursor else Min(|s.text|, s.cursor + 1);
            && 0 <= a <= b <= |s.text| && views[i + 1] == View(Replaced(s.text, a, b, []), a, -1)
  {
    var s := views[i];
    assert Told(views, shapes, f, i, events[i]) && Inside(s);
    assert s.text[..s.cursor] + s.text[s.cursor..] == s.text;
  }

  /** A character and a backspace after it give the text and the cursor back. */
  lemma BackspaceUndoes(views: seq<View>, shapes: seq<Shape>, events: seq<Event>, f: Frame, first: Shape, i: nat)
    requires Story(views, shapes, events, f, first) && i + 1 < |events| && views[i].anchor == -1
    requires events[i].Press? && Types(events[i].key) && events[i + 1] == Press(8)
    ensures views[i + 2] == views[i]
  {
    var s := views[i];
    InputReplaces(views, shapes, events, f, first, i, [events[i].key]);
    KeysDelete(views, shapes, events, f, first, i + 1);
    assert Replaced(views[i + 1].text, s.cursor, s.cursor + 1, []) == s.text;
  }

  /** Cutting takes out the selection; putting what was cut in again gives the text back, the cursor behind it. */
  lemma CutAndPaste(views: seq<View>, shapes: seq<Shape>, events: seq<Event>, f: Frame, first: Shape, i: nat)
    requires Story(views, shapes, events, f, first) && i + 1 < |events| && views[i].anchor >= 0 && events[i].CutEvent?
    requires Inside(views[i]) && events[i + 1] == PasteEvent(views[i].text[Low(views[i])..High(views[i])])
    ensures var s := views[i];
            && views[i + 1] == View(Replaced(s.text, Low(s), High(s), []), Low(s), -1)
            && views[i + 2] == View(s.text, High(s), -1)
  {
    var s := views[i];
    CutTakesOut(views, shapes, events, f, first, i);
    hide Story, Told;
    InputReplaces(views, shapes, events, f, first, i + 1, s.text[Low(s)..High(s)]);
    PutBack(s.text, Low(s), High(s));
  }

  lemma CutTakesOut(views: seq<View>, shapes: seq<Shape>, events: seq<Event>, f: Frame, first: Shape, i: nat)
    requires Story(views, shapes, events, f, first) && i < |events| && views[i].anchor >= 0 && events[i].CutEvent?
    ensures var s := views[i];
            0 <= Low(s) < High(s) <= |s.text| && views[i + 1] == View(Replaced(s.text, Low(s), High(s), []), Low(s), -1)
  {
    assert Told(views, shapes, f, i, events[i]) && Inside(views[i]);
  }

  lemma PutBack(t: Text, a: nat, b: nat)
    requires a <= b <= |t|
    ensures Replaced(Replaced(t, a, b, []), a, a, t[a..b]) == t
  {
  }

  // ---- moving ----

  /** The arrow keys move by one character, or to the end of the selection on their side; Ctrl+A selects all. */
  lemma KeysMove(views: seq<View>, shapes: seq<Shape>, events: seq<Event>, f: Frame, first: Shape, i: nat)
    requires Story(views, shapes, events, f, first) && i < |events|
    ensures var s := views[i];
            && (events[i] == Press(130) ==> views[i + 1] == View(s.text, if s.anchor >= 0 then Low(s) else Max(0, s.cursor - 1), -1))
            && (events[i] == Press(131) ==> views[i + 1] == View(s.text, if s.anchor >= 0 then High(s) else Min(|s.text|, s.cursor + 1), -1))
            && (events[i] == Press(1) && s.text != [] ==> views[i + 1] == View(s.text, |s.text|, 0))
  {
    assert Told(views, shapes, f, i, events[i]) && Inside(views[i]);
  }

  /** The line of position `c` goes from `a` to `e`. */
  ghost predicate LineAround(t: Text, c: int, a: int, e: int) {
    && 0 <= a <= c <= e <= |t| && (a == 0 || t[a - 1] == 10) && (e == |t| || t[e] == 10)
    && forall j :: a <= j < e ==> t[j] != 10
  }

  /** Rows as wide as the text are lines. */
  lemma WideRowIsLine(t: Text, rows: seq<int>, v: int)
    requires RowsOk(t, rows, |t|) && 0 <= v < |rows|
    ensures LineAround(t, rows[v], rows[v], RowEnd(t, rows, |t| + 1, v))
    ensures v + 1 < |rows| ==> rows[v + 1] == RowEnd(t, rows, |t| + 1, v) + 1 && RowEnd(t, rows, |t| + 1, v) < |t|
    ensures v + 1 == |rows| ==> RowEnd(t, rows, |t| + 1, v) == |t|
    ensures v > 0 ==> rows[v] > 0
  {
    assert RowOk(t, rows, |t|, |t| + 1, v);
    if v + 1 < |rows| {
      assert RowOk(t, rows, |t|, |t| + 1, v + 1);
    }
  }

  /** In a box that does not wrap home and end go to the ends of the line. */
  lemma HomeAndEnd(views: seq<View>, shapes: seq<Shape>, events: seq<Event>, f: Frame, first: Shape, i: nat, a: int, e: int)
    requires Story(views, shapes, events, f, first) && i < |events| && !shapes[i].wrap && LineAround(views[i].text, views[i].cursor, a, e)
    ensures events[i] == Press(132) ==> views[i + 1] == View(views[i].text, a, -1)
    ensures events[i] == Press(133) ==> views[i + 1] == View(views[i].text, e, -1)
  {
    hide LineAround, RowsOk, RowEnd;
    var s, s' := views[i], views[i + 1];
    assert Told(views, shapes, f, i, events[i]);
    if events[i] == Press(132) || events[i] == Press(133) {
      var rows, v :| RowsOk(s.text, rows, |s.text|) && RowEdge(s, s', events[i] == Press(133), rows, v);
      RowIsLine(s.text, rows, v, s.cursor, a, e);
    }
  }

  /** Up there keeps the column, or goes to the end of a shorter line; nothing happens in the first line. */
  lemma UpALine(views: seq<View>, shapes: seq<Shape>, events: seq<Event>, f: Frame, first: Shape, i: nat, a: int, e: int, a1: int)
    requires Story(views, shapes, events, f, first) && i < |events| && !shapes[i].wrap && LineAround(views[i].text, views[i].cursor, a, e)
    requires events[i] == Press(128) && (a > 0 ==> LineAround(views[i].text, a - 1, a1, a - 1))
    ensures views[i + 1] == if a == 0 then views[i] else View(views[i].text, a1 + Min(views[i].cursor - a, a - 1 - a1), -1)
  {
    hide LineAround, RowsOk, RowEnd;
    var s, s' := views[i], views[i + 1];
    assert Told(views, shapes, f, i, events[i]);
    var rows, v :| RowsOk(s.text, rows, |s.text|) && RowMoved(s, s', false, rows, v);
    RowIsLine(s.text, rows, v, s.cursor, a, e);
    if v > 0 {
      LineBefore(s.text, rows, v);
      RowIsLine(s.text, rows, v - 1, a - 1, a1, a - 1);
    }
  }

  /** So does down, and nothing happens in the last line. */
  lemma DownALine(views: seq<View>, shapes: seq<Shape>, events: seq<Event>, f: Frame, first: Shape, i: nat, a: int, e: int, e1: int)
    requires Story(views, shapes, events, f, first) && i < |events| && !shapes[i].wrap && LineAround(views[i].text, views[i].cursor, a, e)
    requires events[i] == Press(129) && (e < |views[i].text| ==> LineAround(views[i].text, e + 1, e + 1, e1))
    ensures views[i + 1] == if e == |views[i].text| then views[i] else View(views[i].text, e + 1 + Min(views[i].cursor - a, e1 - (e + 1)), -1)
  {
    hide LineAround, RowsOk, RowEnd;
    var s, s' := views[i], views[i + 1];
    assert Told(views, shapes, f, i, events[i]);
    var rows, v :| RowsOk(s.text, rows, |s.text|) && RowMoved(s, s', true, rows, v);
    RowIsLine(s.text, rows, v, s.cursor, a, e);
    if v + 1 < |rows| {
      LineBefore(s.text, rows, v + 1);
      RowIsLine(s.text, rows, v + 1, e + 1, e + 1, e1);
    }
  }

  /** A row starts behind the newline of the one before, and both hold their ends. */
  lemma LineBefore(t: Text, rows: seq<int>, v: int)
    requires RowsOk(t, rows, |t|) && 0 < v < |rows|
    ensures rows[v] == RowEnd(t, rows, |t| + 1, v - 1) + 1
    ensures RowHolds(t, rows, rows[v], v) && RowHolds(t, rows, rows[v] - 1, v - 1)
  {
    WideRowIsLine(t, rows, v - 1);
    WideRowIsLine(t, rows, v);
  }

  lemma RowIsLine(t: Text, rows: seq<int>, v: int, c: int, a: int, e: int)
    requires RowsOk(t, rows, |t|) && RowHolds(t, rows, c, v) && LineAround(t, c, a, e)
    ensures 0 <= a <= e <= |t| && rows[v] == a && RowEnd(t, rows, |t| + 1, v) == e && (v == 0 <==> a == 0) && (v + 1 == |rows| <==> e == |t|)
  {
    WideRowIsLine(t, rows, v);
  }

  // ---- folded lines ----

  /** The columns of a box are as many as its width holds, without the scrollbar and the line numbers; one at least. */
  lemma ColumnsFit(w: int, showLineNumbers: bool)
    ensures var tw := w - 10 - (if showLineNumbers then 40 else 0);
            var cols := ColumnsFor(w, showLineNumbers);
            if tw < 8 then cols == 1 else cols * 8 <= tw < cols * 8 + 8
  {
  }

  /** A row starts a whole number of widths behind the start of its line, and ends a width further or with the line. */
  lemma {:induction false} RowInLine(t: Text, rows: seq<int>, cols: nat, v: nat, c: int, a: int, e: int)
    requires RowsOk(t, rows, cols) && cols >= 1 && v < |rows| && LineAround(t, c, a, e) && RowHolds(t, rows, c, v)
    ensures exists k: nat :: rows[v] == a + Times(k, cols)
    ensures rows[v] <= c <= rows[v] + cols && (c == rows[v] + cols ==> c == e)
    ensures RowEnd(t, rows, |t| + 1, v) == Min(e, rows[v] + cols)
    decreases v
  {
    assert RowOk(t, rows, cols, |t| + 1, v);
    RowReaches(t, rows, cols, v, c, a, e);
    if !IsStart(t, rows[v]) {
      assert RowOk(t, rows, cols, |t| + 1, v - 1);
      RowInLine(t, rows, cols, v - 1, rows[v] - 1, a, e);
      var k: nat :| rows[v - 1] == a + Times(k, cols);
      assert rows[v] == a + Times(k + 1, cols);
    } else {
      assert rows[v] == a + Times(0, cols);
    }
    if v + 1 < |rows| {
      assert RowOk(t, rows, cols, |t| + 1, v + 1);
    }
  }

  /** The row that holds a position of a line starts in the line and ends in it. */
  lemma RowReaches(t: Text, rows: seq<int>, cols: nat, v: nat, c: int, a: int, e: int)
    requires RowsOk(t, rows, cols) && cols >= 1 && v < |rows| && LineAround(t, c, a, e) && RowHolds(t, rows, c, v)
    ensures a <= rows[v] <= c <= RowEnd(t, rows, |t| + 1, v) <= e || rows[v] < a
  {
    assert RowOk(t, rows, cols, |t| + 1, v);
  }
}
