/** The slots of one FAT32 directory cluster: what a scan lists, and how adding and removing an
  * entry changes the listing.
  */
module FatSlots {
  import opened Arith
  import opened Bytes
  import opened ExfatNames
  import opened ExfatEntrySet
  import opened FatNames
  import D = ExfatDirectory

  const DELETED: byte := 0xE5

  /** A listed entry: the name shown, the 8.3 entry and its slot. */
  datatype Item = Item(name: seq<byte>, entry: Entry, at: nat)

  predicate IsEnd(e: Entry) { e[0] == 0 }
  predicate IsGone(e: Entry) { e[0] == DELETED }
  predicate FreeSlot(e: Entry) { IsEnd(e) || IsGone(e) }
  predicate IsVolume(e: Entry) { !IsLfn(e) && e[ATTR_AT] as nat / ATTR_VOLUME % 2 == 1 }

  /** An 8.3 entry of a file or directory. */
  predicate Regular(e: Entry) {
    !FreeSlot(e) && !IsLfn(e) && !IsVolume(e)
  }

  function ShortName(e: Entry): seq<byte> {
    CString(Decode83(e[..11]))
  }

  /** Slots one step of a scan passes. */
  function Stride(e: Entry): (n: nat)
    ensures n >= 1
  {
    if !FreeSlot(e) && IsLfn(e) then Seq(e) + 1 else 1
  }

  /** What the slots from `i` on list. */
  function List(es: seq<Entry>, i: nat): seq<Item>
    decreases |es| - i
  {
    if i >= |es| || IsEnd(es[i]) || i + Stride(es[i]) > |es| then []
    else if IsGone(es[i]) || IsVolume(es[i]) then List(es, i + 1)
    else [ItemAt(es, i)] + List(es, i + Stride(es[i]))
  }

  /** The entry whose slots start at `i`. */
  function ItemAt(es: seq<Entry>, i: nat): Item
    requires i < |es| && i + Stride(es[i]) <= |es|
  {
    var n := Stride(es[i]) - 1;
    Item(if n > 0 then LongName(es[i..i + n]) else ShortName(es[i]), es[i + n], i + n)
  }

  /** The slots at `i` are one complete step of a scan. */
  ghost predicate StepOk(es: seq<Entry>, i: nat)
    requires i < |es|
  {
    var n := Stride(es[i]) - 1;
    && i + n < |es|
    && (!FreeSlot(es[i]) && IsLfn(es[i]) ==> n >= 1 && LfnRun(es[i..i + n]) && Regular(es[i + n]))
  }

  /** From slot `i` on there are free slots, volume labels and complete entries. End markers are
    * only in the last cluster of a directory, and after the first there is nothing else.
    */
  ghost predicate Tidy(es: seq<Entry>, i: nat, last: bool)
    decreases |es| - i
  {
    if i >= |es| then true
    else if IsEnd(es[i]) then last && forall j :: i <= j < |es| ==> IsEnd(es[j])
    else StepOk(es, i) && Tidy(es, i + Stride(es[i]), last)
  }

  /** One step of a scan over tidy slots. */
  lemma ListStep(es: seq<Entry>, i: nat, last: bool)
    requires Tidy(es, i, last) && i < |es| && !IsEnd(es[i])
    ensures StepOk(es, i) && i + Stride(es[i]) <= |es| && Tidy(es, i + Stride(es[i]), last)
    ensures List(es, i) == (if IsGone(es[i]) || IsVolume(es[i]) then [] else [ItemAt(es, i)]) + List(es, i + Stride(es[i]))
  {
    hide ItemAt, LfnRun, Regular, IsLfn, Seq;
  }

  lemma TidyStep(es: seq<Entry>, i: nat, last: bool)
    requires i < |es| && !IsEnd(es[i]) && StepOk(es, i) && Tidy(es, i + Stride(es[i]), last)
    ensures Tidy(es, i, last)
  {
  }

  lemma TidyEnd(es: seq<Entry>, i: nat, last: bool)
    requires i >= |es| || IsEnd(es[i])
    ensures List(es, i) == []
    ensures Tidy(es, i, last) <==> i >= |es| || (last && forall j :: i <= j < |es| ==> IsEnd(es[j]))
  {
  }

  /** Slots that are the same give the same step. */
  lemma SameStep(es: seq<Entry>, es': seq<Entry>, i: nat)
    requires |es| == |es'| && i < |es| && es[i] == es'[i] && i + Stride(es[i]) <= |es|
    requires forall j :: i <= j < i + Stride(es[i]) ==> es'[j] == es[j]
    ensures StepOk(es, i) <==> StepOk(es', i)
    ensures ItemAt(es', i) == ItemAt(es, i)
  {
    var n := Stride(es[i]) - 1;
    assert es[i..i + n] == es'[i..i + n];
  }

  lemma ItemPlace(es: seq<Entry>, i: nat)
    requires i < |es| && i + Stride(es[i]) <= |es|
    ensures ItemAt(es, i).at == i + Stride(es[i]) - 1
  {
  }

  /** A scan only sees the slots from its start on. */
  lemma {:induction false} ScanSeesSuffix(es: seq<Entry>, es': seq<Entry>, i: nat, last: bool)
    requires |es| == |es'| && i <= |es| && Tidy(es, i, last) && forall j :: i <= j < |es| ==> es'[j] == es[j]
    ensures Tidy(es', i, last) && List(es', i) == List(es, i)
    decreases |es| - i
  {
    hide Tidy, List, StepOk, ItemAt;
    if i == |es| || IsEnd(es[i]) {
      TidyEnd(es, i, last);
      TidyEnd(es', i, last);
    } else {
      ListStep(es, i, last);
      SameStep(es, es', i);
      ScanSeesSuffix(es, es', i + Stride(es[i]), last);
      TidyStep(es', i, last);
      ListStep(es', i, last);
    }
  }

  /** Free slots list nothing. */
  lemma {:induction false} FreeSkipped(es: seq<Entry>, a: nat, n: nat, last: bool)
    requires Tidy(es, a, last) && a + n <= |es| && forall j :: a <= j < a + n ==> FreeSlot(es[j])
    ensures Tidy(es, a + n, last) && List(es, a) == List(es, a + n)
    decreases n
  {
    hide List, StepOk;
    if n > 0 {
      if IsEnd(es[a]) {
        TidyEnd(es, a, last);
        TidyEnd(es, a + n, last);
      } else {
        ListStep(es, a, last);
        FreeSkipped(es, a + 1, n - 1, last);
      }
    }
  }

  /** Deleted slots before a tidy rest. */
  lemma {:induction false} GoneRun(es: seq<Entry>, a: nat, n: nat, last: bool)
    requires a + n <= |es| && Tidy(es, a + n, last) && forall j :: a <= j < a + n ==> IsGone(es[j])
    ensures Tidy(es, a, last) && List(es, a) == List(es, a + n)
    decreases n
  {
    hide Tidy, List;
    if n > 0 {
      GoneRun(es, a + 1, n - 1, last);
      TidyStep(es, a, last);
      ListStep(es, a, last);
    }
  }

  /** A scan from `i` arrives at slot `a` without meeting an end marker. */
  ghost predicate Reaches(es: seq<Entry>, i: nat, a: nat)
    decreases a - i
  {
    i == a || (i < a <= |es| && !IsEnd(es[i]) && i + Stride(es[i]) <= a && Reaches(es, i + Stride(es[i]), a))
  }

  /** Slots that agree up to a place a scan reaches list the same before it. */
  lemma {:induction false} CommonPrefix(es: seq<Entry>, es': seq<Entry>, i: nat, a: nat, last: bool, last': bool) returns (l: seq<Item>)
    requires |es| == |es'| && a <= |es| && Reaches(es, i, a) && forall j :: 0 <= j < a ==> es'[j] == es[j]
    requires Tidy(es, i, last) && Tidy(es', a, last')
    ensures Tidy(es', i, last') && Tidy(es, a, last)
    ensures List(es, i) == l + List(es, a) && List(es', i) == l + List(es', a)
    ensures forall x :: x in l ==> i <= x.at < a
    decreases a - i
  {
    hide Tidy, List, StepOk, ItemAt, Stride;
    if i == a {
      l := [];
    } else {
      ListStep(es, i, last);
      SameStep(es, es', i);
      var rest := CommonPrefix(es, es', i + Stride(es[i]), a, last, last');
      TidyStep(es', i, last');
      ListStep(es', i, last');
      ItemPlace(es, i);
      l := (if IsGone(es[i]) || IsVolume(es[i]) then [] else [ItemAt(es, i)]) + rest;
    }
  }

  /** A complete entry's slots are all in use. */
  lemma InsideStep(es: seq<Entry>, i: nat)
    requires i < |es| && StepOk(es, i) && !FreeSlot(es[i])
    ensures forall k :: i <= k < i + Stride(es[i]) ==> !FreeSlot(es[k])
  {
    var n := Stride(es[i]) - 1;
    var run := es[i..i + n];
    forall k | i <= k < i + n
      ensures !FreeSlot(es[k])
    {
      assert run[k - i] == es[k];
    }
  }

  /** A free slot with no end marker before it is reached. */
  lemma {:induction false} FreeReached(es: seq<Entry>, i: nat, a: nat, last: bool)
    requires Tidy(es, i, last) && i <= a < |es| && FreeSlot(es[a]) && forall j :: i <= j < a ==> !IsEnd(es[j])
    ensures Reaches(es, i, a) && Tidy(es, a, last)
    decreases a - i
  {
    hide Tidy, List;
    if i < a {
      ListStep(es, i, last);
      if !FreeSlot(es[i]) {
        InsideStep(es, i);
      }
      FreeReached(es, i + Stride(es[i]), a, last);
    }
  }

  /** A listed entry is reached, and its slots are complete. */
  lemma {:induction false} ItemReached(es: seq<Entry>, i: nat, x: Item, last: bool) returns (a: nat)
    requires Tidy(es, i, last) && x in List(es, i)
    ensures i <= a <= x.at < |es| && Reaches(es, i, a) && Tidy(es, a, last)
    ensures StepOk(es, a) && !FreeSlot(es[a]) && !IsVolume(es[a]) && a + Stride(es[a]) == x.at + 1 && ItemAt(es, a) == x
    ensures List(es, a) == [x] + List(es, x.at + 1) && Tidy(es, x.at + 1, last)
    decreases |es| - i
  {
    hide Tidy, List, StepOk, Seq, IsLfn, LongName, ShortName;
    if i >= |es| || IsEnd(es[i]) {
      TidyEnd(es, i, last);
      assert false;
    }
    ListStep(es, i, last);
    if !IsGone(es[i]) && !IsVolume(es[i]) && x == ItemAt(es, i) {
      a := i;
    } else {
      a := ItemReached(es, i + Stride(es[i]), x, last);
    }
  }

  // ---- adding ----

  /** The slots of a new entry: a complete step that lists one item. */
  ghost predicate NewSlots(s: seq<Entry>) {
    && s != [] && !FreeSlot(s[0]) && !IsVolume(s[0]) && Stride(s[0]) == |s| && StepOk(s, 0)
  }

  /** The item new slots list when they are written from slot `a` on. */
  function NewItem(s: seq<Entry>, a: nat): Item
    requires s != []
  {
    Item(if |s| > 1 then LongName(s[..|s| - 1]) else ShortName(s[0]), s[|s| - 1], a + |s| - 1)
  }

  lemma SlotsWritten(es: seq<Entry>, a: nat, s: seq<Entry>, last: bool)
    requires NewSlots(s) && a + |s| <= |es| && es[a..a + |s|] == s && Tidy(es, a + |s|, last)
    ensures Tidy(es, a, last) && List(es, a) == [NewItem(s, a)] + List(es, a + |s|)
  {
    hide Tidy, List;
    forall k | 0 <= k < |s|
      ensures es[a + k] == s[k]
    {
      assert es[a..a + |s|][k] == es[a + k];
    }
    assert es[a..a + (|s| - 1)] == s[0..|s| - 1];
    TidyStep(es, a, last);
    ListStep(es, a, last);
  }

  /** Slots of a new entry written into free slots add exactly that entry. */
  lemma SlotsInserted(es: seq<Entry>, a: nat, s: seq<Entry>, last: bool) returns (before: seq<Item>, after: seq<Item>)
    requires Tidy(es, 0, last) && NewSlots(s) && a + |s| <= |es|
    requires (forall j :: a <= j < a + |s| ==> FreeSlot(es[j])) && forall j :: 0 <= j < a ==> !IsEnd(es[j])
    ensures Tidy(D.Overwrite(es, a, s), 0, last)
    ensures List(es, 0) == before + after && List(D.Overwrite(es, a, s), 0) == before + [NewItem(s, a)] + after
  {
    hide Tidy, List, Stride, StepOk;
    var es' := D.Overwrite(es, a, s);
    FreeReached(es, 0, a, last);
    FreeSkipped(es, a, |s|, last);
    after := List(es, a + |s|);
    ScanSeesSuffix(es, es', a + |s|, last);
    SlotsWritten(es', a, s, last);
    before := CommonPrefix(es, es', 0, a, last, last);
    assert before + ([NewItem(s, a)] + after) == before + [NewItem(s, a)] + after;
  }

  /** Everything after the first end marker is free. */
  lemma {:induction false} EndsStay(es: seq<Entry>, i: nat, j: nat, m: nat, last: bool)
    requires Tidy(es, i, last) && i <= j <= m < |es| && IsEnd(es[j])
    ensures IsEnd(es[m])
    decreases |es| - i
  {
    hide List;
    if !IsEnd(es[i]) {
      ListStep(es, i, last);
      if !FreeSlot(es[i]) {
        InsideStep(es, i);
      }
      EndsStay(es, i + Stride(es[i]), j, m, last);
    }
  }

  // ---- removing ----

  function Gone(e: Entry): (r: Entry)
    ensures IsGone(r) && r[1..] == e[1..]
  {
    PutEntry(e, 0, [DELETED])
  }

  /** `es` with the slots from `a` to `b` marked deleted. */
  function MarkedGone(es: seq<Entry>, a: nat, b: nat): (r: seq<Entry>)
    requires a <= b <= |es|
    ensures |r| == |es| && forall j :: 0 <= j < |es| ==> r[j] == if a <= j < b then Gone(es[j]) else es[j]
  {
    if a == b then es
    else
      var rest := MarkedGone(es, a, b - 1);
      rest[..b - 1] + [Gone(es[b - 1])] + rest[b..]
  }

  /** Marking a listed entry's slots deleted removes exactly that entry. */
  lemma SlotsRemoved(es: seq<Entry>, x: Item, a: nat, last: bool) returns (before: seq<Item>, after: seq<Item>)
    requires Tidy(es, 0, last) && x in List(es, 0) && a <= x.at < |es|
    requires Reaches(es, 0, a) && Tidy(es, a, last) && List(es, a) == [x] + List(es, x.at + 1) && Tidy(es, x.at + 1, last)
    ensures Tidy(MarkedGone(es, a, x.at + 1), 0, last)
    ensures List(es, 0) == before + [x] + after && List(MarkedGone(es, a, x.at + 1), 0) == before + after
  {
    hide Tidy, List, Stride, StepOk;
    var es' := MarkedGone(es, a, x.at + 1);
    after := List(es, x.at + 1);
    ScanSeesSuffix(es, es', x.at + 1, last);
    GoneRun(es', a, x.at + 1 - a, last);
    before := CommonPrefix(es, es', 0, a, last, last);
    assert before + ([x] + after) == before + [x] + after;
  }

  /** Long-name slots right before an entry's own are left over from deleted entries: a live run
    * is always followed by its 8.3 entry.
    */
  lemma {:induction false} StrayRunIsGone(es: seq<Entry>, i: nat, a: nat, low: nat, last: bool)
    requires Tidy(es, i, last) && Reaches(es, i, a) && a <= |es| && forall j :: low <= j < a ==> IsLfn(es[j])
    ensures forall j :: i <= j < a && low <= j ==> IsGone(es[j])
    decreases a - i
  {
    hide Tidy, List, LfnRun;
    if i < a {
      ListStep(es, i, last);
      StrayRunIsGone(es, i + Stride(es[i]), a, low, last);
    }
  }

  /** The slot an entry's own slots start at: its long-name slots in use come right before it. */
  function OwnStart(es: seq<Entry>, at: nat): (a: nat)
    requires at < |es|
    ensures a <= at
  {
    if at > 0 && IsLfn(es[at - 1]) && !FreeSlot(es[at - 1]) then OwnStart(es, at - 1) else at
  }

  lemma {:induction false} OwnStartDown(es: seq<Entry>, a: nat, at: nat)
    requires a <= at < |es| && forall j :: a <= j < at ==> IsLfn(es[j]) && !FreeSlot(es[j])
    ensures OwnStart(es, at) == OwnStart(es, a)
  {
    if a < at {
      OwnStartDown(es, a, at - 1);
    }
  }

  /** A listed entry's slots start where a scan meets them. */
  lemma OwnStartIs(es: seq<Entry>, a: nat, at: nat, last: bool)
    requires Tidy(es, 0, last) && Reaches(es, 0, a) && a <= at < |es|
    requires forall j :: a <= j < at ==> IsLfn(es[j]) && !FreeSlot(es[j])
    ensures OwnStart(es, at) == a
  {
    hide Tidy, Reaches;
    OwnStartDown(es, a, at);
    if a > 0 && IsLfn(es[a - 1]) {
      StrayRunIsGone(es, 0, a, a - 1, last);
    }
  }

  /** The slots without the entry at `at`: its own are marked deleted. */
  function Unlisted(es: seq<Entry>, at: nat): (r: seq<Entry>)
    requires at < |es|
    ensures |r| == |es|
  {
    MarkedGone(es, OwnStart(es, at), at + 1)
  }

  lemma GoneTwice(e: Entry)
    requires IsGone(e)
    ensures Gone(e) == e
  {
    assert Gone(e) == [Gone(e)[0]] + Gone(e)[1..] && e == [e[0]] + e[1..];
  }

  // ---- changing an entry in place ----

  /** Another 8.3 entry with the same name and attributes in the place of a listed one changes
    * exactly that item's entry.
    */
  lemma SlotUpdated(es: seq<Entry>, x: Item, e: Entry, last: bool) returns (before: seq<Item>, after: seq<Item>)
    requires Tidy(es, 0, last) && x in List(es, 0) && x.at < |es|
    requires e[..ATTR_AT + 1] == x.entry[..ATTR_AT + 1]
    ensures es[x.at] == x.entry && Tidy(es[x.at := e], 0, last)
    ensures List(es, 0) == before + [x] + after && List(es[x.at := e], 0) == before + [Item(x.name, e, x.at)] + after
  {
    hide Tidy, List, LfnRun, LongName, Decode83, CString;
    var es' := es[x.at := e];
    var a := ItemReached(es, 0, x, last);
    after := List(es, x.at + 1);
    ScanSeesSuffix(es, es', x.at + 1, last);
    assert e[0] == e[..ATTR_AT + 1][0] && e[ATTR_AT] == e[..ATTR_AT + 1][ATTR_AT];
    assert x.entry[0] == x.entry[..ATTR_AT + 1][0] && x.entry[ATTR_AT] == x.entry[..ATTR_AT + 1][ATTR_AT];
    assert e[..ATTR_AT] == e[..ATTR_AT + 1][..ATTR_AT] == x.entry[..ATTR_AT];
    assert es[a..x.at] == es'[a..x.at];
    TidyStep(es', a, last);
    ListStep(es', a, last);
    before := CommonPrefix(es, es', 0, a, last, last);
    assert before + ([x] + after) == before + [x] + after;
    assert before + ([Item(x.name, e, x.at)] + after) == before + [Item(x.name, e, x.at)] + after;
  }

  /** A single slot written over a free one is listed exactly when its first byte is not the mark
    * of a deleted slot.
    */
  lemma SingleSlotListed(es: seq<Entry>, a: nat, e: Entry, last: bool)
    requires Tidy(es, 0, last) && a < |es| && FreeSlot(es[a]) && forall j :: 0 <= j < a ==> !IsEnd(es[j])
    requires !IsLfn(e) && !IsVolume(e) && !IsEnd(e)
    ensures Tidy(es[a := e], 0, last)
    ensures (exists x :: x in List(es[a := e], 0) && x.entry == e && x.at == a) <==> e[0] != DELETED
    ensures e[0] == DELETED ==> List(es[a := e], 0) == List(es, 0)
  {
    hide Tidy, List, StepOk, ItemAt;
    var es' := es[a := e];
    if e[0] == DELETED {
      FreeReached(es, 0, a, last);
      FreeSkipped(es, a, 1, last);
      ScanSeesSuffix(es, es', a + 1, last);
      GoneRun(es', a, 1, last);
      var before := CommonPrefix(es, es', 0, a, last, last);
      if x :| x in List(es', 0) && x.entry == e && x.at == a {
        var b := ItemReached(es', 0, x, last);
        ItemEntryLive(es', b, x);
        assert false;
      }
    } else {
      SingleIsNew(e);
      assert es' == D.Overwrite(es, a, [e]);
      var before, after := SlotsInserted(es, a, [e], last);
      assert NewItem([e], a) in List(es', 0);
    }
  }

  /** A slot that looks deleted. */
  ghost predicate HiddenSlot(s: seq<Entry>) {
    |s| == 1 && IsGone(s[0]) && !IsLfn(s[0]) && !IsVolume(s[0])
  }

  /** Long-name slots before a slot that looks deleted. */
  ghost predicate TornSlots(s: seq<Entry>) {
    |s| > 1 && !FreeSlot(s[0]) && IsLfn(s[0]) && Stride(s[0]) == |s| && IsGone(s[|s| - 1])
  }

  lemma {:induction false} ReachesSame(es: seq<Entry>, es': seq<Entry>, i: nat, a: nat)
    requires |es| == |es'| && Reaches(es, i, a) && a <= |es| && forall j :: 0 <= j < a ==> es'[j] == es[j]
    ensures Reaches(es', i, a)
    decreases a - i
  {
    hide Stride;
    if i < a {
      ReachesSame(es, es', i + Stride(es[i]), a);
    }
  }

  lemma {:induction false} ReachedTidy(es: seq<Entry>, i: nat, a: nat, last: bool)
    requires Tidy(es, i, last) && Reaches(es, i, a)
    ensures Tidy(es, a, last)
    decreases a - i
  {
    hide List, StepOk;
    if i < a {
      ListStep(es, i, last);
      ReachedTidy(es, i + Stride(es[i]), a, last);
    }
  }

  /** Long-name slots whose own entry looks deleted leave the cluster untidy. */
  lemma SlotsTear(es: seq<Entry>, a: nat, s: seq<Entry>, last: bool)
    requires Tidy(es, 0, last) && TornSlots(s) && a + |s| <= |es|
    requires (forall j :: a <= j < a + |s| ==> FreeSlot(es[j])) && forall j :: 0 <= j < a ==> !IsEnd(es[j])
    ensures !Tidy(D.Overwrite(es, a, s), 0, last)
  {
    hide List, Tidy, IsLfn, Stride;
    var es' := D.Overwrite(es, a, s);
    FreeReached(es, 0, a, last);
    ReachesSame(es, es', 0, a);
    assert es'[a] == s[0] && es'[a + |s| - 1] == s[|s| - 1];
    if Tidy(es', 0, last) {
      ReachedTidy(es', 0, a, last);
      OwnSlotLive(es', a, last);
    }
  }

  /** Long-name slots are followed by a slot in use. */
  lemma OwnSlotLive(es: seq<Entry>, a: nat, last: bool)
    requires Tidy(es, a, last) && a < |es| && !FreeSlot(es[a]) && IsLfn(es[a])
    ensures a + Stride(es[a]) <= |es| && !IsGone(es[a + Stride(es[a]) - 1])
  {
    hide List;
    ListStep(es, a, last);
  }

  /** The first of some long-name slots, the rest of them and their own slot cut off. */
  ghost predicate CutSlots(s: seq<Entry>) {
    s != [] && !FreeSlot(s[0]) && IsLfn(s[0]) && Stride(s[0]) > |s|
  }

  /** A cluster filled with them is untidy and lists nothing. */
  lemma SlotsCut(s: seq<Entry>, last: bool)
    requires CutSlots(s)
    ensures !Tidy(s, 0, last) && List(s, 0) == []
  {
  }

  lemma SingleIsNew(e: Entry)
    requires Regular(e)
    ensures NewSlots([e])
  {
  }

  lemma ItemSlot(es: seq<Entry>, a: nat, x: Item)
    requires a < |es| && a + Stride(es[a]) == x.at + 1 <= |es| && ItemAt(es, a) == x
    ensures es[x.at] == x.entry
  {
  }

  lemma ItemEntryLive(es: seq<Entry>, a: nat, x: Item)
    requires a < |es| && a + Stride(es[a]) <= |es| && StepOk(es, a) && !FreeSlot(es[a]) && ItemAt(es, a) == x
    ensures x.entry[0] != DELETED
  {
  }

  // ---- a cluster that stops being the last ----

  /** End markers turned into deleted slots. */
  function EndsPatched(es: seq<Entry>): (r: seq<Entry>)
    ensures |r| == |es| && forall j :: 0 <= j < |es| ==> r[j] == if IsEnd(es[j]) then Gone(es[j]) else es[j]
  {
    if es == [] then [] else EndsPatched(es[..|es| - 1]) + [if IsEnd(es[|es| - 1]) then Gone(es[|es| - 1]) else es[|es| - 1]]
  }

  /** Turning end markers into deleted slots changes no listing, and more slots may follow. */
  lemma {:induction false} PatchedSame(es: seq<Entry>, i: nat)
    requires Tidy(es, i, true)
    ensures Tidy(EndsPatched(es), i, false) && List(EndsPatched(es), i) == List(es, i)
    decreases |es| - i
  {
    hide Tidy, List, StepOk, ItemAt;
    var es' := EndsPatched(es);
    if i >= |es| {
      TidyEnd(es, i, true);
      TidyEnd(es', i, false);
    } else if IsEnd(es[i]) {
      TidyEnd(es, i, true);
      TidyEnd(es', |es|, false);
      GoneRun(es', i, |es| - i, false);
    } else {
      ListStep(es, i, true);
      StepHasNoEnd(es, i);
      SameStep(es, es', i);
      PatchedSame(es, i + Stride(es[i]));
      TidyStep(es', i, false);
      ListStep(es', i, false);
    }
  }

  lemma StepHasNoEnd(es: seq<Entry>, i: nat)
    requires i < |es| && StepOk(es, i) && !IsEnd(es[i])
    ensures forall k :: i <= k < i + Stride(es[i]) ==> !IsEnd(es[k])
  {
    if !FreeSlot(es[i]) {
      InsideStep(es, i);
    }
  }
}
