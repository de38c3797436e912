/** Line starts of a text: the index of them, rebuilt or shifted, and lookups in it. */
module TextLines {
  import opened Arith

  type Text = seq<nat>

  const NL: nat := 10

  /** A line starts at 0 and after each newline. */
  predicate IsStart(t: Text, x: int) {
    x == 0 || (0 < x <= |t| && t[x - 1] == NL)
  }

  predicate Increasing(s: seq<int>) {
    forall i, j :: 0 <= i < j < |s| ==> s[i] < s[j]
  }

  /** `s` is exactly the line starts of `t`, in order. */
  ghost predicate LineIndex(t: Text, s: seq<int>) {
    && Increasing(s)
    && (forall i :: 0 <= i < |s| ==> IsStart(t, s[i]))
    && forall x :: IsStart(t, x) ==> x in s
  }

  /** There is only one index of a text. */
  lemma {:induction false} IndexUnique(t: Text, s: seq<int>, r: seq<int>)
    requires LineIndex(t, s) && LineIndex(t, r)
    ensures s == r
  {
    SameIncreasing(s, r);
  }

  lemma {:induction false} SameIncreasing(s: seq<int>, r: seq<int>)
    requires Increasing(s) && Increasing(r) && forall x :: x in s <==> x in r
    ensures s == r
  {
    assert |r| > 0 ==> r[0] in r && r[0] in s;
    if s != [] {
      var a := s[|s| - 1];
      assert a in s && a in r;
      var b := r[|r| - 1];
      assert b in r && b in s;
      assert a == b;
      var s', r' := s[..|s| - 1], r[..|r| - 1];
      forall x
        ensures x in s' <==> x in r'
      {
        if x in s' {
          assert x in s && x < a;
        }
        if x in r' {
          assert x in r && x < b;
        }
      }
      SameIncreasing(s', r');
    }
  }

  // ---- rebuilding ----

  /** Newlines before position `n`. */
  function CountNl(t: Text, n: nat): (c: nat)
    requires n <= |t|
  {
    if n == 0 then 0 else CountNl(t, n - 1) + if t[n - 1] == NL then 1 else 0
  }

  /** The index restricted to starts up to `n`. */
  ghost predicate IndexUpTo(t: Text, s: seq<int>, n: nat)
    requires n <= |t|
  {
    && Increasing(s)
    && (forall i :: 0 <= i < |s| ==> IsStart(t, s[i]) && s[i] <= n)
    && forall x :: IsStart(t, x) && x <= n ==> x in s
  }

  /** Count the lines, then note where each starts. */
  method RebuildLines(t: Text) returns (offsets: seq<int>)
    ensures LineIndex(t, offsets) && |offsets| == CountNl(t, |t|) + 1
  {
    var n := 1;
    for i := 0 to |t|
      invariant n == CountNl(t, i) + 1
    {
      if t[i] == NL {
        n := n + 1;
      }
    }
    offsets := [0];
    var i := 0;
    while i < |t| && |offsets| < n
      invariant i <= |t| && IndexUpTo(t, offsets, i) && |offsets| == CountNl(t, i) + 1 <= n
    {
      IndexStep(t, offsets, i);
      if t[i] == NL {
        offsets := offsets + [i + 1];
      }
      i := i + 1;
    }
    NoMoreNl(t, i);
  }

  /** One more character of the text is indexed. */
  lemma IndexStep(t: Text, s: seq<int>, n: nat)
    requires n < |t| && IndexUpTo(t, s, n)
    ensures IndexUpTo(t, if t[n] == NL then s + [n + 1] else s, n + 1)
  {
  }

  /** When all newlines are counted there are no more starts. */
  lemma {:induction false} NoMoreNl(t: Text, i: nat)
    requires i <= |t|
    ensures CountNl(t, i) <= CountNl(t, |t|)
    ensures CountNl(t, i) == CountNl(t, |t|) ==> forall x :: i < x <= |t| ==> !IsStart(t, x)
    decreases |t| - i
  {
    if i < |t| {
      NoMoreNl(t, i + 1);
    }
  }

  // ---- shifting ----

  /** The starts after `from` moved by `delta`. */
  function Shifted(s: seq<int>, from: int, delta: int): (r: seq<int>)
    ensures |r| == |s| && forall i :: 0 <= i < |s| ==> r[i] == if s[i] > from then s[i] + delta else s[i]
  {
    seq(|s|, i requires 0 <= i < |s| => if s[i] > from then s[i] + delta else s[i])
  }

  /** Shift the tail of the index: find the first start past `from`, then move the rest. */
  method ShiftLines(s: seq<int>, from: int, delta: int) returns (r: seq<int>)
    requires Increasing(s)
    ensures r == Shifted(s, from, delta)
  {
    var lo, hi := 0, |s|;
    while lo < hi
      invariant 0 <= lo <= hi <= |s|
      invariant forall i :: 0 <= i < lo ==> s[i] <= from
      invariant forall i :: hi <= i < |s| ==> s[i] > from
    {
      var mid := (lo + hi) / 2;
      if s[mid] <= from {
        lo := mid + 1;
      } else {
        hi := mid;
      }
    }
    r := s;
    for i := lo to |s|
      invariant |r| == |s| && forall j :: 0 <= j < |s| ==> r[j] == if lo <= j < i then s[j] + delta else s[j]
    {
      r := r[i := r[i] + delta];
    }
  }

  predicate NoNl(t: Text) {
    forall i :: 0 <= i < |t| ==> t[i] != NL
  }

  /** Text without newlines inserted at `p` moves exactly the starts after `p`. */
  lemma InsertShifts(t: Text, s: seq<int>, p: nat, ins: Text)
    requires LineIndex(t, s) && p <= |t| && NoNl(ins)
    ensures LineIndex(t[..p] + ins + t[p..], Shifted(s, p, |ins|))
  {
    var t', r := t[..p] + ins + t[p..], Shifted(s, p, |ins|);
    forall x | IsStart(t', x)
      ensures x in r
    {
      var y := if x <= p then x else x - |ins|;
      assert IsStart(t, y);
      var i :| 0 <= i < |s| && s[i] == y;
      assert r[i] == x;
    }
    forall i | 0 <= i < |r|
      ensures IsStart(t', r[i])
    {
      assert IsStart(t, s[i]);
    }
  }

  /** A start outside the text removed moves with what follows it; there is none inside. */
  lemma StartMoves(t: Text, a: nat, b: nat, y: int)
    requires a <= b <= |t| && NoNl(t[a..b])
    ensures IsStart(t, y) ==> y <= a || y > b
    ensures y <= a || y > b ==> (IsStart(t, y) <==> IsStart(t[..a] + t[b..], if y <= a then y else y + (a - b)))
  {
    if a < y <= b {
      assert t[a..b][y - 1 - a] == t[y - 1];
    }
  }

  /** Text without newlines removed from `a` to `b` moves exactly the starts after `a`. */
  lemma RemoveShifts(t: Text, s: seq<int>, a: nat, b: nat)
    requires LineIndex(t, s) && a <= b <= |t| && NoNl(t[a..b])
    ensures LineIndex(t[..a] + t[b..], Shifted(s, a, a - b))
  {
    hide IsStart, NoNl, LineIndex;
    var t' := t[..a] + t[b..];
    forall y
      ensures MovesTo(t, t', a, b, y)
    {
      StartMoves(t, a, b, y);
    }
    MovedIndex(t, t', s, a, b);
  }

  /** A start `y` of `t` outside `a` to `b` is one of `t'`, moved if it is past them. */
  ghost predicate MovesTo(t: Text, t': Text, a: nat, b: nat, y: int) {
    && (IsStart(t, y) ==> y <= a || y > b)
    && (y <= a || y > b ==> (IsStart(t, y) <==> IsStart(t', if y <= a then y else y + (a - b))))
  }

  lemma MovedIndex(t: Text, t': Text, s: seq<int>, a: nat, b: nat)
    requires LineIndex(t, s) && a <= b && forall y :: MovesTo(t, t', a, b, y)
    ensures LineIndex(t', Shifted(s, a, a - b))
  {
    hide IsStart;
    var r := Shifted(s, a, a - b);
    forall i | 0 <= i < |s|
      ensures (s[i] <= a || s[i] > b) && IsStart(t', r[i])
    {
      assert MovesTo(t, t', a, b, s[i]);
    }
    ShiftedIncreasing(s, a, b);
    forall x | IsStart(t', x)
      ensures x in r
    {
      var y := if x <= a then x else x + (b - a);
      assert MovesTo(t, t', a, b, y);
      var i :| 0 <= i < |s| && s[i] == y;
      assert r[i] == x;
    }
  }

  lemma ShiftedIncreasing(s: seq<int>, a: nat, b: nat)
    requires Increasing(s) && a <= b && forall i :: 0 <= i < |s| ==> s[i] <= a || s[i] > b
    ensures Increasing(Shifted(s, a, a - b))
  {
  }

  // ---- lookups ----

  /** The line an offset is on: the newlines before it. */
  function LineAt(t: Text, offset: int): (line: nat) {
    if offset <= 0 then 0 else CountNl(t, Min(offset, |t|))
  }

  /** Where a line starts; the end of the text for a line past the last. */
  ghost predicate StartsAt(t: Text, line: int, start: int) {
    if 0 <= line <= CountNl(t, |t|) then IsStart(t, start) && 0 <= start <= |t| && CountNl(t, start) == line
    else start == |t|
  }

  /** The `i`-th start has `i` newlines before it. */
  lemma {:induction false} StartCounts(t: Text, s: seq<int>, i: nat)
    requires LineIndex(t, s) && i < |s|
    ensures 0 <= s[i] <= |t| && CountNl(t, s[i]) == i
  {
    assert IsStart(t, s[i]);
    if i == 0 {
      assert IsStart(t, 0);
      var k :| 0 <= k < |s| && s[k] == 0;
      assert s[0] == 0;
    } else {
      StartCounts(t, s, i - 1);
      assert IsStart(t, s[i - 1]);
      assert s[i - 1] < s[i];
      assert s[i] >= 1;
      Between(t, s, i - 1, s[i] - 1);
    }
  }

  /** Up to the next start no newline is passed. */
  lemma {:induction false} Between(t: Text, s: seq<int>, i: nat, n: nat)
    requires LineIndex(t, s) && i < |s| && 0 <= s[i] <= n <= |t| && (i + 1 < |s| ==> n < s[i + 1])
    ensures CountNl(t, n) == CountNl(t, s[i])
    decreases n
  {
    if n > s[i] {
      Between(t, s, i, n - 1);
      assert forall k :: 0 <= k < |s| ==> s[k] != n;
      assert !IsStart(t, n);
    }
  }

  lemma StartsAndLines(t: Text, s: seq<int>)
    requires LineIndex(t, s)
    ensures |s| == CountNl(t, |t|) + 1 && s[0] == 0
  {
    assert IsStart(t, 0);
    var k :| 0 <= k < |s| && s[k] == 0;
    StartCounts(t, s, 0);
    assert IsStart(t, s[0]);
    StartCounts(t, s, |s| - 1);
    Between(t, s, |s| - 1, |t|);
  }

  /** The line of an offset, by binary search in the index. */
  method LineOf(t: Text, s: seq<int>, offset: int) returns (line: int)
    requires LineIndex(t, s)
    ensures line == LineAt(t, offset)
  {
    StartsAndLines(t, s);
    if offset <= 0 {
      return 0;
    }
    var lo, hi := 0, |s| - 1;
    line := 0;
    while lo <= hi
      invariant 0 <= lo <= hi + 1 <= |s|
      invariant forall i :: 0 <= i < lo ==> s[i] <= offset
      invariant forall i :: hi < i < |s| ==> s[i] > offset
      invariant line == if lo == 0 then 0 else lo - 1
      decreases hi - lo
    {
      var mid := (lo + hi) / 2;
      if s[mid] <= offset {
        line := mid;
        lo := mid + 1;
      } else {
        hi := mid - 1;
      }
    }
    StartCounts(t, s, line);
    Between(t, s, line, Min(offset, |t|));
  }

  /** The line of an offset, counting newlines. */
  method LineOfLinear(t: Text, offset: int) returns (line: int)
    ensures line == LineAt(t, offset)
  {
    if offset <= 0 {
      return 0;
    }
    line := 0;
    var i := 0;
    while i < offset && i < |t|
      invariant 0 <= i <= Min(offset, |t|) && line == CountNl(t, i)
    {
      if t[i] == NL {
        line := line + 1;
      }
      i := i + 1;
    }
  }

  /** The start of a line, from the index. */
  method LineStart(t: Text, s: seq<int>, line: int) returns (start: int)
    requires LineIndex(t, s)
    ensures line < 0 ==> start == 0
    ensures line >= 0 ==> StartsAt(t, line, start)
  {
    StartsAndLines(t, s);
    if line < 0 {
      return 0;
    }
    if line >= |s| {
      return |t|;
    }
    StartCounts(t, s, line);
    start := s[line];
  }

  /** The start of a line, by scanning. For lines that are not negative it agrees with the index. */
  method LineStartLinear(t: Text, line: int) returns (start: int)
    ensures line >= 0 ==> StartsAt(t, line, start)
    ensures line < 0 ==> start == |t|
  {
    var cur := 0;
    var i := 0;
    while i < |t|
      invariant 0 <= i <= |t| && cur == CountNl(t, i) && (line >= 0 ==> cur <= line) && (cur == line ==> IsStart(t, i))
    {
      if cur == line {
        CountsGrow(t, i);
        return i;
      }
      if t[i] == NL {
        cur := cur + 1;
      }
      i := i + 1;
    }
    start := |t|;
  }

  lemma {:induction false} CountsGrow(t: Text, i: nat)
    requires i <= |t|
    ensures CountNl(t, i) <= CountNl(t, |t|)
  {
    NoMoreNl(t, i);
  }

  /** A line has one start. */
  lemma StartUnique(t: Text, line: int, a: int, b: int)
    requires StartsAt(t, line, a) && StartsAt(t, line, b) && line >= 0
    ensures a == b
  {
    if line <= CountNl(t, |t|) {
      if a < b {
        CountsApart(t, a, b);
      } else if b < a {
        CountsApart(t, b, a);
      }
    }
  }

  lemma {:induction false} CountsApart(t: Text, a: nat, b: nat)
    requires a < b <= |t| && t[b - 1] == NL
    ensures CountNl(t, a) < CountNl(t, b)
  {
    CountsMonotone(t, a, b - 1);
  }

  lemma {:induction false} CountsMonotone(t: Text, a: nat, b: nat)
    requires a <= b <= |t|
    ensures CountNl(t, a) <= CountNl(t, b)
    decreases b
  {
    if a < b {
      CountsMonotone(t, a, b - 1);
    }
  }
}
