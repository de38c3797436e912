/** The multi-line text box: an edited buffer with a lazily rebuilt line index and wrap index. */
module TextBox {
  import opened Arith
  import opened TextLines
  import opened TextWrap

  const FONT_W: int := 8
  const LINE_H: int := 18
  const LEFT_PAD: int := 8
  const LINENO_W: int := 32
  const SCROLLBAR_W: int := 10
  const MIN_W: int := 10
  const INITIAL_CAP: nat := 1024

  const KEY_UP: nat := 128
  const KEY_DOWN: nat := 129
  const KEY_LEFT: nat := 130
  const KEY_RIGHT: nat := 131
  const KEY_HOME: nat := 132
  const KEY_END: nat := 133
  const KEY_DELETE: nat := 134
  const KEY_BACKSPACE: nat := 8
  const KEY_TAB: nat := 9
  const KEY_ALL: nat := 1
  const SPACE: nat := 32

  predicate IsTextChar(key: nat) {
    32 <= key < 127 || key >= 0xA0
  }

  // ---- the buffer ----

  /** `t` without what lies between `a` and `b`, both clamped to it. */
  function Removed(t: Text, a: int, b: int): Text {
    if Max(a, 0) >= Min(b, |t|) then t else t[..Max(a, 0)] + t[Min(b, |t|)..]
  }

  /** `t` with `ins` at position `p`, clamped to it. */
  function Inserted(t: Text, p: int, ins: Text): Text {
    var q := Max(0, Min(p, |t|));
    t[..q] + ins + t[q..]
  }

  /** Close the gap between `a` and `b` in place. */
  method RemoveRange(buf: array<nat>, len: nat, a0: int, b0: int) returns (len': nat)
    requires len < buf.Length
    modifies buf
    ensures len' <= len && buf[..len'] == Removed(old(buf[..len]), a0, b0)
    ensures old(buf[len]) == 0 ==> buf[len'] == 0
  {
    var a, b := a0, b0;
    if a < 0 {
      a := 0;
    }
    if b > len {
      b := len;
    }
    if a >= b {
      return len;
    }
    var n := b - a;
    for i := a to len - n
      invariant forall j :: 0 <= j < a ==> buf[j] == old(buf[j])
      invariant forall j :: a <= j < i ==> buf[j] == old(buf[j + n])
      invariant forall j :: i <= j < buf.Length ==> buf[j] == old(buf[j])
    {
      buf[i] := buf[i + n];
    }
    len' := len - n;
    ghost var t := old(buf[..len]);
    Closed(buf[..len'], t, a, b);
    buf[len'] := 0;
    assert buf[..len'] == t[..a] + t[b..];
  }

  lemma Closed(c: Text, t: Text, a: nat, b: nat)
    requires a <= b <= |t| && |c| == |t| - (b - a)
    requires forall j :: 0 <= j < |c| ==> c[j] == t[if j < a then j else j + (b - a)]
    ensures c == t[..a] + t[b..]
  {
  }

  /** Move what lies between `pos` and `len` up by `n`, the last first. */
  method ShiftUp(buf: array<nat>, len: nat, pos: nat, n: nat)
    requires pos <= len && len + n < buf.Length
    modifies buf
    ensures buf[..pos] == old(buf[..pos]) && buf[pos + n..len + n] == old(buf[pos..len])
  {
    ghost var t := buf[..];
    var i := len - 1;
    while i >= pos
      invariant pos - 1 <= i <= len - 1
      invariant forall j :: 0 <= j <= i ==> buf[j] == t[j]
      invariant forall j :: i + n < j < len + n ==> buf[j] == t[j - n]
    {
      buf[i + n] := buf[i];
      i := i - 1;
    }
  }

  /** Copy `src` into the buffer from `pos` on. */
  method CopyIn(buf: array<nat>, pos: nat, src: Text)
    requires pos + |src| < buf.Length
    modifies buf
    ensures buf[..pos] == old(buf[..pos]) && buf[pos..pos + |src|] == src && buf[pos + |src|..] == old(buf[pos + |src|..])
  {
    ghost var t := buf[..];
    for k := 0 to |src|
      invariant forall j :: pos <= j < pos + k ==> buf[j] == src[j - pos]
      invariant forall j :: 0 <= j < buf.Length && !(pos <= j < pos + k) ==> buf[j] == t[j]
    {
      buf[pos + k] := src[k];
    }
  }

  /** Open a gap at `pos` that `ins` fills. */
  method OpenAndFill(buf: array<nat>, len: nat, pos: nat, ins: Text)
    requires pos <= len && len + |ins| < buf.Length
    modifies buf
    ensures buf[..len + |ins|] == old(buf[..pos]) + ins + old(buf[pos..len]) && buf[len + |ins|] == 0
  {
    ghost var t := buf[..len];
    assert t[..pos] == buf[..pos] && t[pos..] == buf[pos..len];
    ShiftUp(buf, len, pos, |ins|);
    ghost var moved := buf[..];
    assert moved[pos + |ins|..len + |ins|] == t[pos..];
    CopyIn(buf, pos, ins);
    ghost var filled := buf[..];
    Opened(filled, moved, t, pos, ins);
    buf[len + |ins|] := 0;
    assert buf[..len + |ins|] == filled[..len + |ins|];
  }

  /** Open a gap at `pos0` and fill it, as far as there is room. */
  method InsertRange(buf: array<nat>, len: nat, pos0: int, src: Text) returns (put: nat)
    requires len < buf.Length && buf[len] == 0
    modifies buf
    ensures put == Min(|src|, buf.Length - 1 - len)
    ensures buf[..len + put] == Inserted(old(buf[..len]), pos0, src[..put]) && buf[len + put] == 0
  {
    var pos := pos0;
    if pos < 0 {
      pos := 0;
    }
    if pos > len {
      pos := len;
    }
    var room := buf.Length - 1 - len;
    put := |src|;
    if room <= 0 || put <= 0 {
      return 0;
    }
    if put > room {
      put := room;
    }
    ghost var t := buf[..len];
    assert t[..pos] == buf[..pos] && t[pos..] == buf[pos..len];
    OpenAndFill(buf, len, pos, src[..put]);
  }

  lemma Opened(b: Text, moved: Text, t: Text, pos: nat, ins: Text)
    requires pos <= |t| && |t| + |ins| <= |b| == |moved|
    requires b[..pos] == moved[..pos] == t[..pos] && b[pos..pos + |ins|] == ins && b[pos + |ins|..] == moved[pos + |ins|..]
    requires moved[pos + |ins|..|t| + |ins|] == t[pos..]
    ensures b[..|t| + |ins|] == t[..pos] + ins + t[pos..]
  {
    var n, m := |ins|, |t| + |ins|;
    assert b[pos + n..m] == b[pos + n..][..m - (pos + n)] == moved[pos + n..][..m - (pos + n)] == moved[pos + n..m];
    assert b[..m] == b[..pos] + b[pos..pos + n] + b[pos + n..m];
  }

  // ---- what an edit does ----

  /** The text and the cursor. */
  datatype Edit = Edit(text: Text, cursor: int)

  /** The selection removed; nothing without one. */
  function Deleted(t: Text, cursor: int, anchor: int): Edit {
    if anchor < 0 || anchor == cursor then Edit(t, cursor)
    else Edit(Removed(t, Min(anchor, cursor), Max(anchor, cursor)), Min(anchor, cursor))
  }

  /** Text typed or pasted over the selection. */
  function Typed(t: Text, cursor: int, anchor: int, ins: Text): Edit {
    var d := Deleted(t, cursor, anchor);
    Edit(Inserted(d.text, d.cursor, ins), d.cursor + |ins|)
  }

  /** The character before the cursor removed, or the selection. */
  function Erased(t: Text, cursor: int, anchor: int): Edit {
    if anchor >= 0 && anchor != cursor then Deleted(t, cursor, anchor)
    else if cursor > 0 then Edit(Removed(t, cursor - 1, cursor), cursor - 1)
    else Edit(t, cursor)
  }

  /** The character after the cursor removed, or the selection. */
  function ErasedAfter(t: Text, cursor: int, anchor: int): Edit {
    if anchor >= 0 && anchor != cursor then Deleted(t, cursor, anchor)
    else Edit(Removed(t, cursor, cursor + 1), cursor)
  }

  /** What is seen of the box: the text, the cursor and the anchor of the selection, -1 for none. */
  datatype View = View(text: Text, cursor: int, anchor: int)

  /** The view after an edit. */
  function After(e: Edit): View {
    View(e.text, e.cursor, -1)
  }

  predicate Moves(key: nat) {
    key in {KEY_UP, KEY_DOWN, KEY_LEFT, KEY_RIGHT, KEY_HOME, KEY_END, KEY_ALL}
  }

  predicate Edits(key: nat) {
    (key in {KEY_BACKSPACE, KEY_DELETE, KEY_TAB, NL} || IsTextChar(key)) && !Moves(key)
  }

  /** What an editing key does. */
  function KeyEdit(s: View, key: nat): Edit {
    if key == KEY_BACKSPACE then Erased(s.text, s.cursor, s.anchor)
    else if key == KEY_DELETE then ErasedAfter(s.text, s.cursor, s.anchor)
    else if key == KEY_TAB then Typed(s.text, s.cursor, s.anchor, [SPACE, SPACE, SPACE, SPACE])
    else Typed(s.text, s.cursor, s.anchor, [key])
  }

  /** The cursor one character left or right, or at the edge of the selection. */
  function Sideways(s: View, right: bool): View {
    var c := if s.anchor >= 0 then (if right then Max(s.anchor, s.cursor) else Min(s.anchor, s.cursor))
             else if right then Min(|s.text|, s.cursor + 1) else Max(0, s.cursor - 1);
    View(s.text, c, -1)
  }

  /** The cursor a row up or down, in the same column or at the end of a shorter row; nothing
    * happens at the first and the last row.
    */
  ghost predicate RowMoved(s: View, s': View, down: bool, rows: seq<int>, v: int) {
    && RowHolds(s.text, rows, s.cursor, v)
    && var u := if down then v + 1 else v - 1;
       if 0 <= u < |rows| then
         s' == View(s.text, rows[u] + Min(s.cursor - rows[v], RowEnd(s.text, rows, |s.text| + 1, u) - rows[u]), -1)
       else s' == s
  }

  /** The cursor at the start or the end of its row. */
  ghost predicate RowEdge(s: View, s': View, end: bool, rows: seq<int>, v: int) {
    && RowHolds(s.text, rows, s.cursor, v)
    && s' == View(s.text, if end then RowEnd(s.text, rows, |s.text| + 1, v) else rows[v], -1)
  }

  ghost predicate Vertically(s: View, s': View, cols: int, down: bool) {
    exists rows, v :: RowsOk(s.text, rows, WidthFor(s.text, cols)) && RowMoved(s, s', down, rows, v)
  }

  ghost predicate ToEdge(s: View, s': View, cols: int, end: bool) {
    exists rows, v :: RowsOk(s.text, rows, WidthFor(s.text, cols)) && RowEdge(s, s', end, rows, v)
  }

  /** What a key does to the view of a box `cols` columns wide (-1: not wrapped). */
  ghost predicate Pressed(s: View, s': View, cols: int, key: nat) {
    if key == KEY_ALL then s' == if s.text == [] then s else View(s.text, |s.text|, 0)
    else if key == KEY_LEFT || key == KEY_RIGHT then s' == Sideways(s, key == KEY_RIGHT)
    else if key == KEY_UP || key == KEY_DOWN then
      Vertically(s, s', cols, key == KEY_DOWN)
    else if key == KEY_HOME || key == KEY_END then
      ToEdge(s, s', cols, key == KEY_END)
    else s' == if Edits(key) then After(KeyEdit(s, key)) else s
  }

  function WidthFor(t: Text, cols: int): nat {
    if cols < 0 then |t| else cols
  }

  /** Columns of text a box of width `w` shows. */
  function ColumnsFor(w: int, showLineNumbers: bool): (n: nat)
    ensures n >= 1
  {
    var tw := w - SCROLLBAR_W - (if showLineNumbers then LINENO_W + LEFT_PAD else 0);
    Max(1, Max(tw, FONT_W) / FONT_W)
  }

  class MultiText {
    const x: int
    const y: int
    const fillMode: bool
    var buf: array<nat>
    var len: nat
    var cursor: int
    var selAnchor: int
    var scroll: int
    var w: int
    var h: int
    const showLineNumbers: bool
    var wordWrap: bool
    var modified: bool

    var lineOffsets: seq<int>
    var linesDirty: bool
    var wrapOffsets: seq<int>
    var wrapDirty: bool
    var wrapBuiltForW: int

    constructor (x: int, y: int, w: int, h: int, fillMode: bool, showLineNumbers: bool)
      ensures Valid() && fresh(buf) && Content() == [] && cursor == 0 && selAnchor == -1
      ensures this.x == x && this.y == y && this.fillMode == fillMode && this.showLineNumbers == showLineNumbers
      ensures this.w == w && this.h == h && wordWrap
    {
      this.x, this.y, this.fillMode := x, y, fillMode;
      buf := new nat[0];
      len, cursor, selAnchor, scroll := 0, 0, -1, 0;
      this.w, this.h, this.showLineNumbers := w, h, showLineNumbers;
      wordWrap, modified := true, false;
      lineOffsets, linesDirty, wrapOffsets, wrapDirty, wrapBuiltForW := [], true, [], true, 0;
    }

    /** Columns of text a widget of width `w` shows. */
    function Columns(w: int): (n: nat)
      ensures n >= 1
    {
      ColumnsFor(w, showLineNumbers)
    }

    ghost function Content(): Text
      reads this, buf
      requires len <= buf.Length
    {
      buf[..len]
    }

    /** A clean line index is exact, and a clean wrap index folds the text at the width it was
      * built for. A selection, if any, is inside the text.
      */
    ghost predicate Valid()
      reads this, buf
    {
      && (if buf.Length == 0 then len == 0 else len < buf.Length && buf[len] == 0)
      && 0 <= cursor <= len && scroll >= 0
      && (selAnchor == -1 || (0 <= selAnchor <= len && selAnchor != cursor))
      && CachesOk()
    }

    ghost predicate CachesOk()
      reads this, buf
      requires len <= buf.Length
    {
      && (linesDirty ==> wrapDirty)
      && (!linesDirty ==> LineIndex(Content(), lineOffsets))
      && (!wrapDirty ==> RowsOk(Content(), wrapOffsets, Columns(wrapBuiltForW)))
    }

    ghost function Seen(): View
      reads this, buf
      requires len <= buf.Length
    {
      View(Content(), cursor, selAnchor)
    }

    /** Columns rows are wrapped at, -1 if they are not. */
    ghost function WrapAt(): int
      reads this
    {
      if wordWrap then Columns(w) else -1
    }

    /** The rows on show: wrapped, or the lines. */
    ghost function Rows(): seq<int>
      reads this
    {
      if wordWrap then wrapOffsets else lineOffsets
    }

    ghost function RowWidth(): nat
      reads this
    {
      if wordWrap then Columns(w) else len
    }

    ghost predicate Ready()
      reads this, buf
    {
      Valid() && !linesDirty && RowsOk(Content(), Rows(), RowWidth())
    }

    // ---- the caches ----

    method EnsureLines()
      requires Valid()
      modifies this`lineOffsets, this`linesDirty
      ensures Valid() && !linesDirty
    {
      hide LineIndex, RowsOk;
      if linesDirty {
        lineOffsets := RebuildLines(buf[..len]);
        linesDirty := false;
      }
    }

    /** Bring both caches up to date. */
    method EnsureRows()
      requires Valid()
      modifies this`lineOffsets, this`linesDirty, this`wrapOffsets, this`wrapDirty, this`wrapBuiltForW
      ensures Ready()
    {
      hide LineIndex, RowsOk;
      EnsureLines();
      if wordWrap {
        if wrapDirty || wrapBuiltForW != w {
          wrapOffsets := RebuildWrap(buf[..len], lineOffsets, Columns(w));
          wrapBuiltForW := w;
          wrapDirty := false;
        }
      } else {
        LinesAreRows(Content(), lineOffsets);
      }
    }

    /** Forget both caches. */
    method MarkStructural()
      requires len <= buf.Length
      modifies this`linesDirty, this`wrapDirty
      ensures linesDirty && wrapDirty && CachesOk()
    {
      linesDirty := true;
      wrapDirty := true;
    }

    /** Shift a clean line index after an edit without newlines; the wrap index is forgotten. */
    method LinesShift(from: int, delta: int)
      requires len <= buf.Length
      requires linesDirty ==> wrapDirty
      requires !linesDirty ==> Increasing(lineOffsets) && LineIndex(Content(), Shifted(lineOffsets, from, delta))
      requires delta != 0
      modifies this`lineOffsets, this`wrapDirty
      ensures CachesOk()
    {
      hide LineIndex, Increasing;
      if linesDirty || delta == 0 {
        return;
      }
      lineOffsets := ShiftLines(lineOffsets, from, delta);
      wrapDirty := true;
    }

    // ---- rows ----

    method VlineOf(offset: int) returns (v: int)
      requires Valid()
      modifies this`lineOffsets, this`linesDirty, this`wrapOffsets, this`wrapDirty, this`wrapBuiltForW
      ensures Ready() && 0 <= v < |Rows()| && (0 <= offset <= len ==> RowHolds(Content(), Rows(), offset, v))
    {
      hide LineIndex, RowsTo;
      EnsureRows();
      if wordWrap {
        v := RowOf(buf[..len], wrapOffsets, Columns(w), offset);
      } else {
        v := LineOf(buf[..len], lineOffsets, offset);
        LineHolds(Content(), lineOffsets, offset, v);
      }
    }

    /** Start and visible length of a row. */
    method VlineSpan(v: int) returns (start: int, visible: int)
      requires Ready() && 0 <= v < |Rows()|
      ensures start == Rows()[v] && 0 <= start && 0 <= visible && start + visible <= len
      ensures start + visible == RowEnd(Content(), Rows(), len + 1, v)
    {
      hide LineIndex;
      RowSpan(Content(), Rows(), RowWidth(), v);
      var rows := if wordWrap then wrapOffsets else lineOffsets;
      start := rows[v];
      var e := if v + 1 < |rows| then rows[v + 1] else len;
      if e > start && buf[e - 1] == NL {
        e := e - 1;
      }
      visible := e - start;
    }

    /** Rows that fit the widget. */
    function VisibleLines(): (n: nat)
      reads this
      ensures n >= 1
    {
      Max(1, h / LINE_H)
    }

    /** Scroll the cursor's row into view. */
    method ShowCursor()
      requires Valid()
      modifies this`lineOffsets, this`linesDirty, this`wrapOffsets, this`wrapDirty, this`wrapBuiltForW, this`scroll
      ensures Ready()
      ensures 0 <= scroll <= Max(0, |Rows()| - VisibleLines())
      ensures exists v :: RowHolds(Content(), Rows(), cursor, v) && scroll <= v < scroll + VisibleLines()
    {
      hide LineIndex, RowsTo;
      var cv := VlineOf(cursor);
      var total := if wordWrap then |wrapOffsets| else |lineOffsets|;
      scroll := EnsureVisible(cv, VisibleLines(), total, scroll);
      assert RowHolds(Content(), Rows(), cursor, cv);
    }

    // ---- edits ----

    predicate HasSelection()
      reads this
    {
      selAnchor >= 0 && selAnchor != cursor
    }

    /** Make room for `needed` characters, moving the text to a bigger buffer. */
    method Reserve(needed: nat)
      requires Valid() && needed > len
      modifies this`buf
      ensures Valid() && Content() == old(Content()) && buf.Length >= needed && buf.Length > len
      ensures buf == old(buf) || fresh(buf)
    {
      hide LineIndex, RowsOk;
      if buf.Length >= needed {
        return;
      }
      var newCap := if buf.Length > 0 then buf.Length else INITIAL_CAP;
      while newCap < needed
        invariant newCap >= 1 && buf == old(buf)
        decreases needed - newCap
      {
        newCap := newCap * 2;
      }
      var nb := new nat[newCap];
      for i := 0 to len
        invariant buf == old(buf) && fresh(nb) && forall j :: 0 <= j < i ==> nb[j] == buf[j]
      {
        nb[i] := buf[i];
      }
      nb[len] := 0;
      assert nb[..len] == buf[..len];
      buf := nb;
    }

    /** Take the text between `a` and `b` out. Without a newline in it the line index is shifted,
      * otherwise both caches are forgotten.
      */
    method Excise(a: nat, b: nat)
      requires Valid() && a < b <= len && selAnchor == -1
      modifies this`len, this`cursor, this`lineOffsets, this`linesDirty, this`wrapDirty, this`modified, buf
      ensures Valid() && Content() == Removed(old(Content()), a, b) && cursor == a && modified
    {
      hide LineIndex, RowsOk, Increasing;
      var hasNl := false;
      for i := a to b
        invariant hasNl <==> exists j :: a <= j < i && buf[j] == NL
      {
        if buf[i] == NL {
          hasNl := true;
          break;
        }
      }
      ghost var t := Content();
      if !hasNl && !linesDirty {
        CutShifts(t, lineOffsets, a, b);
      }
      len := RemoveRange(buf, len, a, b);
      cursor := a;
      modified := true;
      if hasNl {
        MarkStructural();
      } else {
        LinesShift(a, a - b);
      }
    }

    /** Put text in at the cursor and move the cursor past it. */
    method Insert(ins: Text)
      requires Valid() && selAnchor == -1 && ins != [] && buf.Length > len + |ins|
      modifies this`len, this`cursor, this`lineOffsets, this`linesDirty, this`wrapDirty, this`modified, buf
      ensures Valid() && Content() == Inserted(old(Content()), old(cursor), ins) && cursor == old(cursor) + |ins| && modified
    {
      hide LineIndex, RowsOk, Increasing;
      var hasNl := false;
      for i := 0 to |ins|
        invariant hasNl <==> exists j :: 0 <= j < i && ins[j] == NL
      {
        if ins[i] == NL {
          hasNl := true;
          break;
        }
      }
      ghost var t := Content();
      if !hasNl && !linesDirty {
        PutShifts(t, lineOffsets, cursor, ins);
      }
      var at := cursor;
      var put := InsertRange(buf, len, at, ins);
      assert ins[..put] == ins;
      len := len + put;
      cursor := cursor + put;
      modified := true;
      if hasNl {
        MarkStructural();
      } else {
        LinesShift(at, put);
      }
    }

    /** Remove the selection; false without one. */
    method DeleteSelection() returns (deleted: bool)
      requires Valid()
      modifies this`len, this`cursor, this`selAnchor, this`scroll, this`modified, buf
      modifies this`lineOffsets, this`linesDirty, this`wrapOffsets, this`wrapDirty, this`wrapBuiltForW
      ensures Valid() && deleted == old(HasSelection()) && selAnchor == -1
      ensures Edit(Content(), cursor) == Deleted(old(Content()), old(cursor), old(selAnchor))
    {
      hide LineIndex, RowsOk;
      if !HasSelection() {
        return false;
      }
      var a, b := Min(selAnchor, cursor), Max(selAnchor, cursor);
      selAnchor := -1;
      Excise(a, b);
      ShowCursor();
      deleted := true;
    }

    method Backspace()
      requires Valid()
      modifies this`len, this`cursor, this`selAnchor, this`scroll, this`modified, buf
      modifies this`lineOffsets, this`linesDirty, this`wrapOffsets, this`wrapDirty, this`wrapBuiltForW
      ensures Valid() && Seen() == After(Erased(old(Content()), old(cursor), old(selAnchor)))
    {
      hide LineIndex, RowsOk;
      var deleted := DeleteSelection();
      if !deleted && cursor > 0 {
        Excise(cursor - 1, cursor);
        ShowCursor();
      }
    }

    method DeleteKey()
      requires Valid()
      modifies this`len, this`cursor, this`selAnchor, this`scroll, this`modified, buf
      modifies this`lineOffsets, this`linesDirty, this`wrapOffsets, this`wrapDirty, this`wrapBuiltForW
      ensures Valid() && Seen() == After(ErasedAfter(old(Content()), old(cursor), old(selAnchor)))
    {
      hide LineIndex, RowsOk;
      var deleted := DeleteSelection();
      if !deleted && cursor < len {
        Excise(cursor, cursor + 1);
      }
    }

    /** Type or paste text over the selection. */
    method TypeText(ins: Text)
      requires Valid() && ins != []
      modifies this`len, this`cursor, this`selAnchor, this`scroll, this`modified, this`buf, buf
      modifies this`lineOffsets, this`linesDirty, this`wrapOffsets, this`wrapDirty, this`wrapBuiltForW
      ensures Valid() && Seen() == After(Typed(old(Content()), old(cursor), old(selAnchor), ins))
      ensures buf == old(buf) || fresh(buf)
    {
      hide LineIndex, RowsOk;
      var _ := DeleteSelection();
      Reserve(len + |ins| + 1);
      Insert(ins);
      ShowCursor();
    }

    // ---- keys ----

    /** Move the cursor to row `v`, as far along it as `col` and its length allow. */
    method MoveToRow(v: int, col: int)
      requires Ready() && 0 <= v < |Rows()| && col >= 0
      modifies this`cursor, this`selAnchor, this`scroll
      modifies this`lineOffsets, this`linesDirty, this`wrapOffsets, this`wrapDirty, this`wrapBuiltForW
      ensures Valid() && selAnchor == -1
      ensures cursor == old(Rows()[v]) + Min(col, old(RowEnd(Content(), Rows(), len + 1, v) - Rows()[v]))
    {
      hide LineIndex, RowsOk;
      var start, visible := VlineSpan(v);
      cursor := start + Min(col, visible);
      selAnchor := -1;
      ShowCursor();
    }

    /** Up or down a row, keeping the column; nothing at the first or last row. */
    method KeyVertical(down: bool)
      requires Valid()
      modifies this`cursor, this`selAnchor, this`scroll
      modifies this`lineOffsets, this`linesDirty, this`wrapOffsets, this`wrapDirty, this`wrapBuiltForW
      ensures Valid()
      ensures Vertically(old(Seen()), Seen(), WrapAt(), down)
    {
      hide LineIndex, RowsOk, RowEnd;
      var cv := VlineOf(cursor);
      ghost var rows := Rows();
      var total := if wordWrap then |wrapOffsets| else |lineOffsets|;
      var target := if down then cv + 1 else cv - 1;
      if 0 <= target < total {
        var start, _ := VlineSpan(cv);
        MoveToRow(target, cursor - start);
      }
      assert RowMoved(old(Seen()), Seen(), down, rows, cv);
    }

    /** To the start or the end of the row. */
    method KeyRowEdge(end: bool)
      requires Valid()
      modifies this`cursor, this`selAnchor, this`scroll
      modifies this`lineOffsets, this`linesDirty, this`wrapOffsets, this`wrapDirty, this`wrapBuiltForW
      ensures Valid() && selAnchor == -1
      ensures ToEdge(old(Seen()), Seen(), WrapAt(), end)
    {
      hide LineIndex, RowsOk, RowEnd;
      var cv := VlineOf(cursor);
      ghost var rows := Rows();
      var start, visible := VlineSpan(cv);
      cursor := if end then start + visible else start;
      selAnchor := -1;
      ShowCursor();
      assert RowEdge(old(Seen()), Seen(), end, rows, cv);
    }

    /** One character left or right, or to the edge of the selection. */
    method KeyHorizontal(right: bool)
      requires Valid()
      modifies this`cursor, this`selAnchor, this`scroll
      modifies this`lineOffsets, this`linesDirty, this`wrapOffsets, this`wrapDirty, this`wrapBuiltForW
      ensures Valid() && Seen() == Sideways(old(Seen()), right)
    {
      hide LineIndex, RowsOk;
      if HasSelection() {
        cursor := if right then Max(selAnchor, cursor) else Min(selAnchor, cursor);
        selAnchor := -1;
      } else if right && cursor < len {
        cursor := cursor + 1;
      } else if !right && cursor > 0 {
        cursor := cursor - 1;
      }
      ShowCursor();
    }

    method SelectAll() returns (done: bool)
      requires Valid()
      modifies this`cursor, this`selAnchor, this`linesDirty, this`wrapDirty
      ensures Valid() && done == (len > 0)
      ensures if done then selAnchor == 0 && cursor == len else cursor == old(cursor) && selAnchor == old(selAnchor)
    {
      hide LineIndex, RowsOk;
      if len == 0 {
        return false;
      }
      selAnchor := 0;
      cursor := len;
      MarkStructural();
      done := true;
    }

    /** A key press: exactly its effect on the text, the cursor and the selection. */
    method OnKey(key: nat) returns (handled: bool)
      requires Valid()
      modifies this`len, this`cursor, this`selAnchor, this`scroll, this`modified, this`buf, buf
      modifies this`lineOffsets, this`linesDirty, this`wrapOffsets, this`wrapDirty, this`wrapBuiltForW
      ensures Valid() && (buf == old(buf) || fresh(buf))
      ensures Pressed(old(Seen()), Seen(), WrapAt(), key)
    {
      hide LineIndex, RowsOk, Vertically, ToEdge;
      handled := true;
      if key == KEY_ALL {
        handled := SelectAll();
      } else if key == KEY_LEFT || key == KEY_RIGHT {
        KeyHorizontal(key == KEY_RIGHT);
      } else if key == KEY_UP || key == KEY_DOWN {
        KeyVertical(key == KEY_DOWN);
      } else if key == KEY_HOME || key == KEY_END {
        KeyRowEdge(key == KEY_END);
      } else if key == KEY_BACKSPACE {
        Backspace();
      } else if key == KEY_DELETE {
        DeleteKey();
      } else if key == KEY_TAB {
        TypeText([SPACE, SPACE, SPACE, SPACE]);
      } else if key == NL || IsTextChar(key) {
        TypeText([key]);
      } else {
        handled := false;
      }
    }

    // ---- clipboard and whole text ----

    /** Cut the selection to the clipboard. */
    method Cut() returns (cut: bool, clip: Text)
      requires Valid()
      modifies this`len, this`cursor, this`selAnchor, this`scroll, this`modified, buf
      modifies this`lineOffsets, this`linesDirty, this`wrapOffsets, this`wrapDirty, this`wrapBuiltForW
      ensures Valid() && cut == old(HasSelection())
      ensures cut ==> clip == old(Content()[Min(selAnchor, cursor)..Max(selAnchor, cursor)])
      ensures Seen() == After(Deleted(old(Content()), old(cursor), old(selAnchor)))
    {
      hide LineIndex, RowsOk;
      clip := [];
      if !HasSelection() {
        return false, clip;
      }
      var a, b := Min(selAnchor, cursor), Max(selAnchor, cursor);
      clip := buf[a..b];
      assert clip == Content()[a..b];
      var _ := DeleteSelection();
      cut := true;
    }

    /** Paste the clipboard over the selection. */
    method Paste(clip: Text) returns (pasted: bool)
      requires Valid()
      modifies this`len, this`cursor, this`selAnchor, this`scroll, this`modified, this`buf, buf
      modifies this`lineOffsets, this`linesDirty, this`wrapOffsets, this`wrapDirty, this`wrapBuiltForW
      ensures Valid() && pasted == (clip != []) && (buf == old(buf) || fresh(buf))
      ensures Seen() == if pasted then After(Typed(old(Content()), old(cursor), old(selAnchor), clip)) else old(Seen())
    {
      hide LineIndex, RowsOk;
      if clip == [] {
        return false;
      }
      TypeText(clip);
      pasted := true;
    }

    method SetText(text: Text)
      requires Valid()
      modifies this`len, this`cursor, this`selAnchor, this`scroll, this`modified, this`buf, this`linesDirty, this`wrapDirty, buf
      ensures Valid() && Content() == text && cursor == 0 && selAnchor == -1 && (buf == old(buf) || fresh(buf))
    {
      hide LineIndex, RowsOk;
      if buf.Length > 0 {
        buf[0] := 0;
      }
      len, cursor, scroll, selAnchor, modified := 0, 0, 0, -1, false;
      MarkStructural();
      if |text| > 0 {
        Reserve(|text| + 1);
        ghost var b := buf;
        for i := 0 to |text|
          invariant buf == b && forall j :: 0 <= j < i ==> buf[j] == text[j]
          invariant len == cursor == scroll == 0 && selAnchor == -1 && linesDirty && wrapDirty
        {
          buf[i] := text[i];
        }
        buf[|text|] := 0;
        len := |text|;
        assert buf[..len] == text;
      }
    }

    method Clear() returns (done: bool)
      requires Valid()
      modifies this`len, this`cursor, this`selAnchor, this`scroll, this`modified, this`linesDirty, this`wrapDirty, buf
      ensures Valid() && Seen() == View([], 0, -1) && (done <==> old(len) > 0)
    {
      hide LineIndex, RowsOk;
      if len == 0 && !HasSelection() {
        return false;
      }
      if buf.Length > 0 {
        buf[0] := 0;
      }
      len, cursor, scroll, selAnchor, modified := 0, 0, 0, -1, true;
      MarkStructural();
      done := true;
    }

    /** Turn word wrap on or off; the cursor's row is brought back on screen. */
    method SetWordWrap(on: bool)
      requires Valid()
      modifies this`wordWrap, this`wrapDirty, this`scroll, this`lineOffsets, this`linesDirty, this`wrapOffsets, this`wrapBuiltForW
      ensures Valid() && wordWrap == on && Seen() == old(Seen())
      ensures on == old(wordWrap) ==> scroll == old(scroll)
      ensures on != old(wordWrap) ==> Ready() && exists v :: RowHolds(Content(), Rows(), cursor, v) && scroll <= v < scroll + VisibleLines()
    {
      hide LineIndex, RowsOk;
      if wordWrap == on {
        return;
      }
      wordWrap, wrapDirty, scroll := on, true, 0;
      ShowCursor();
    }

    /** Fit a box that fills its window to the window's size. */
    method SetSize(winW: int, winH: int)
      requires Valid()
      modifies this`w, this`h, this`linesDirty, this`wrapDirty
      ensures Valid() && Seen() == old(Seen())
      ensures ShapeOf() == Shaped(old(ShapeOf()), x, y, fillMode, SizeEvent(winW, winH))
      ensures ShapeOf() != old(ShapeOf()) ==> linesDirty && wrapDirty
    {
      hide LineIndex, RowsOk;
      if !fillMode {
        return;
      }
      var nw, nh := Max(winW - x, MIN_W), Max(winH - y, LINE_H);
      if nw != w || nh != h {
        w, h := nw, nh;
        MarkStructural();
      }
    }

    ghost function ShapeOf(): Shape
      reads this
    {
      Shape(wordWrap, w, h)
    }
  }

  /** Lines are rows wide enough for all of the text. */
  lemma LinesAreRows(t: Text, s: seq<int>)
    requires LineIndex(t, s)
    ensures RowsOk(t, s, |t|)
  {
    StartsAndLines(t, s);
    forall v | 0 <= v < |s|
      ensures RowOk(t, s, |t|, |t| + 1, v) && 0 <= s[v] <= |t|
    {
      LineIsRow(t, s, v);
    }
  }

  lemma LineIsRow(t: Text, s: seq<int>, v: nat)
    requires LineIndex(t, s) && v < |s|
    ensures RowOk(t, s, |t|, |t| + 1, v) && 0 <= s[v] <= |t|
  {
    hide LineIndex;
    LineAtIndex(t, s, v);
    if v + 1 < |s| {
      LineAtIndex(t, s, v + 1);
    }
  }

  /** The line found for an offset is the row that holds it. */
  lemma LineHolds(t: Text, s: seq<int>, offset: int, v: int)
    requires LineIndex(t, s) && v == LineAt(t, offset)
    ensures 0 <= v < |s| && (0 <= offset <= |t| ==> RowHolds(t, s, offset, v))
  {
    StartsAndLines(t, s);
    CountsGrow(t, if offset <= 0 then 0 else Min(offset, |t|));
    StartCounts(t, s, v);
    if 0 <= offset <= |t| {
      if offset < s[v] {
        assert IsStart(t, s[v]);
        CountsApart(t, offset, s[v]);
      }
      if v + 1 < |s| {
        StartCounts(t, s, v + 1);
        if s[v + 1] <= offset {
          CountsMonotone(t, s[v + 1], offset);
        }
      }
    }
  }

  /** The span of a row in the text. */
  lemma RowSpan(t: Text, rows: seq<int>, cols: nat, v: int)
    requires RowsOk(t, rows, cols) && 0 <= v < |rows|
    ensures 0 <= rows[v] <= |t| && (v + 1 < |rows| ==> rows[v] < rows[v + 1] <= |t|)
    ensures var n := if v + 1 < |rows| then rows[v + 1] else |t|;
            var e := if n > rows[v] && t[n - 1] == NL then n - 1 else n;
            e == RowEnd(t, rows, |t| + 1, v) && rows[v] <= e <= |t|
  {
    assert RowOk(t, rows, cols, |t| + 1, v);
  }

  /** Taking out text without a newline shifts the index. */
  lemma CutShifts(t: Text, s: seq<int>, a: nat, b: nat)
    requires LineIndex(t, s) && a < b <= |t| && forall j :: a <= j < b ==> t[j] != NL
    ensures Increasing(s) && LineIndex(Removed(t, a, b), Shifted(s, a, a - b))
  {
    RemoveShifts(t, s, a, b);
  }

  /** Putting in text without a newline shifts the index. */
  lemma PutShifts(t: Text, s: seq<int>, p: nat, ins: Text)
    requires LineIndex(t, s) && p <= |t| && forall j :: 0 <= j < |ins| ==> ins[j] != NL
    ensures Increasing(s) && LineIndex(Inserted(t, p, ins), Shifted(s, p, |ins|))
  {
    InsertShifts(t, s, p, ins);
  }

  // ---- whole runs ----

  datatype Event = Press(key: nat) | CutEvent | PasteEvent(clip: Text) | SetEvent(text: Text) | ClearEvent
                 | WrapEvent(on: bool) | SizeEvent(winW: int, winH: int)

  /** How a box folds its text: whether it does, and the size it has. */
  datatype Shape = Shape(wrap: bool, w: int, h: int)

  /** What an event does to the shape of a box at `x`, `y`. */
  function Shaped(s: Shape, x: int, y: int, fillMode: bool, e: Event): Shape {
    match e
    case WrapEvent(on) => s.(wrap := on)
    case SizeEvent(winW, winH) => if fillMode then Shape(s.wrap, Max(winW - x, MIN_W), Max(winH - y, LINE_H)) else s
    case _ => s
  }

  /** Columns rows are wrapped at, -1 if they are not. */
  function Folding(s: Shape, showLineNumbers: bool): int {
    if s.wrap then ColumnsFor(s.w, showLineNumbers) else -1
  }

  /** What an event does to the view. */
  ghost predicate Handled(s: View, s': View, cols: int, e: Event) {
    match e
    case Press(key) => Pressed(s, s', cols, key)
    case CutEvent => s' == After(Deleted(s.text, s.cursor, s.anchor))
    case PasteEvent(clip) => s' == if clip == [] then s else After(Typed(s.text, s.cursor, s.anchor, clip))
    case SetEvent(text) => s' == View(text, 0, -1)
    case ClearEvent => s' == View([], 0, -1)
    case WrapEvent(on) => s' == s
    case SizeEvent(winW, winH) => s' == s
  }

  method Handle(mt: MultiText, e: Event)
    requires mt.Valid()
    modifies mt, mt.buf
    ensures mt.Valid() && (mt.buf == old(mt.buf) || fresh(mt.buf))
    ensures mt.ShapeOf() == Shaped(old(mt.ShapeOf()), mt.x, mt.y, mt.fillMode, e)
    ensures Handled(old(mt.Seen()), mt.Seen(), Folding(old(mt.ShapeOf()), mt.showLineNumbers), e)
  {
    hide LineIndex, RowsOk, Pressed, Deleted, Typed;
    match e {
      case Press(key) => var _ := mt.OnKey(key);
      case CutEvent => var _, _ := mt.Cut();
      case PasteEvent(clip) => var _ := mt.Paste(clip);
      case SetEvent(text) => mt.SetText(text);
      case ClearEvent => var _ := mt.Clear();
      case WrapEvent(on) => mt.SetWordWrap(on);
      case SizeEvent(winW, winH) => mt.SetSize(winW, winH);
    }
  }

  /** What stays the same of a box. */
  datatype Frame = Frame(x: int, y: int, fillMode: bool, showLineNumbers: bool)

  /** One event of a run: what it does to the view, folded as the shape then says, and to the shape. */
  ghost predicate Told(views: seq<View>, shapes: seq<Shape>, f: Frame, i: nat, e: Event)
    requires i + 1 < |views| && i + 1 < |shapes|
  {
    && Handled(views[i], views[i + 1], Folding(shapes[i], f.showLineNumbers), e)
    && shapes[i + 1] == Shaped(shapes[i], f.x, f.y, f.fillMode, e)
  }

  /** The cursor is in the text, and so is the anchor of a selection. */
  predicate Inside(s: View) {
    0 <= s.cursor <= |s.text| && (s.anchor == -1 || (0 <= s.anchor <= |s.text| && s.anchor != s.cursor))
  }

  /** The views and shapes a run of events goes through, from an empty box of shape `first` on. */
  ghost predicate Story(views: seq<View>, shapes: seq<Shape>, events: seq<Event>, f: Frame, first: Shape) {
    && |views| == |shapes| == |events| + 1 && views[0] == View([], 0, -1) && shapes[0] == first
    && (forall i :: 0 <= i < |views| ==> Inside(views[i]))
    && forall i :: 0 <= i < |events| ==> Told(views, shapes, f, i, events[i])
  }

  lemma StoryMore(views: seq<View>, shapes: seq<Shape>, events: seq<Event>, f: Frame, first: Shape, i: nat, s: View, h: Shape)
    requires i < |events| && Story(views, shapes, events[..i], f, first)
    requires Told(views + [s], shapes + [h], f, i, events[i]) && Inside(s)
    ensures Story(views + [s], shapes + [h], events[..i + 1], f, first)
  {
    hide Handled;
    var more, hs, es := views + [s], shapes + [h], events[..i + 1];
    forall j | 0 <= j < |es|
      ensures Told(more, hs, f, j, es[j])
    {
      if j < i {
        assert events[..i][j] == events[j] && Told(views, shapes, f, j, events[..i][j]);
      }
    }
  }

  /** After any run of keys, cuts, pastes, clears, new texts, new window sizes and switches of word
    * wrap the text, the cursor and the selection are what the events say, one after the other, up
    * and down through rows folded as the box is at that moment; a clean line index is exactly 0 and
    * the positions after the newlines, a clean wrap index folds the text as it is, and the cursor
    * and any selection are inside it.
    */
  method RunEvents(f: Frame, w: int, h: int, events: seq<Event>) returns (mt: MultiText, ghost views: seq<View>, ghost shapes: seq<Shape>)
    ensures mt.Valid() && Story(views, shapes, events, f, Shape(true, w, h))
    ensures views[|events|] == mt.Seen() && shapes[|events|] == mt.ShapeOf()
    ensures !mt.linesDirty ==> LineIndex(mt.Content(), mt.lineOffsets)
    ensures !mt.wrapDirty ==> RowsOk(mt.Content(), mt.wrapOffsets, ColumnsFor(mt.wrapBuiltForW, f.showLineNumbers))
  {
    hide LineIndex, RowsOk, Handled;
    mt := new MultiText(f.x, f.y, w, h, f.fillMode, f.showLineNumbers);
    views, shapes := [mt.Seen()], [mt.ShapeOf()];
    for i := 0 to |events|
      invariant fresh(mt) && fresh(mt.buf) && mt.Valid() && Frame(mt.x, mt.y, mt.fillMode, mt.showLineNumbers) == f
      invariant Story(views, shapes, events[..i], f, Shape(true, w, h)) && views[i] == mt.Seen() && shapes[i] == mt.ShapeOf()
    {
      Handle(mt, events[i]);
      StoryMore(views, shapes, events, f, Shape(true, w, h), i, mt.Seen(), mt.ShapeOf());
      views, shapes := views + [mt.Seen()], shapes + [mt.ShapeOf()];
    }
    assert events[..|events|] == events;
  }
}
