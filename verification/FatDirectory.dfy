/** Looking a name up in one cluster of a FAT32 directory. */
module FatDirectory {
  import opened Arith
  import opened Bytes
  import opened ExfatNames
  import opened ExfatEntrySet
  import opened FatTable
  import opened FatClusters
  import opened FatChains
  import opened FatNames
  import opened FatSlots
  import F = FatFiles
  import D = ExfatDirectory
  import V = ExfatDirVolume

  // ---- looking a name up in one cluster ----

  /** Case-insensitive equality of two names. */
  predicate SameLower(a: seq<byte>, b: seq<byte>) {
    LowerAll(a) == LowerAll(b)
  }

  method NamesMatch(a: seq<byte>, b: seq<byte>) returns (eq: bool)
    ensures eq == SameLower(a, b)
  {
    var i := 0;
    while i < |a| && i < |b|
      invariant i <= |a| && i <= |b| && forall j :: 0 <= j < i ==> Lower(a[j]) == Lower(b[j])
    {
      if Lower(a[i]) != Lower(b[i]) {
        assert LowerAll(a)[i] != LowerAll(b)[i];
        return false;
      }
      i := i + 1;
    }
    eq := i == |a| && i == |b|;
  }

  /** The first listed item with a name. */
  function FirstOf(l: seq<Item>, name: seq<byte>): (r: Option<Item>)
    ensures r.Some? ==> r.value in l && SameLower(name, r.value.name)
    ensures r.None? ==> forall x :: x in l ==> !SameLower(name, x.name)
  {
    if l == [] then None
    else if SameLower(name, l[0].name) then Some(l[0])
    else FirstOf(l[1..], name)
  }

  lemma FirstOfCons(x: Item, l: seq<Item>, name: seq<byte>)
    ensures FirstOf([x] + l, name) == if SameLower(name, x.name) then Some(x) else FirstOf(l, name)
  {
    assert ([x] + l)[1..] == l;
  }

  /** The long-name buffer after `m` entries of a run: the characters of those that are read, zeros
    * elsewhere.
    */
  ghost predicate Gathered(buf: seq<byte>, run: seq<Entry>, m: nat)
    requires m <= |run| <= LFN_TOP
  {
    && |buf| == 280
    && forall p :: 0 <= p < 280 ==>
         buf[p] == if LFN_CHARS * (|run| - m) <= p < LFN_CHARS * Min(|run|, LFN_MAX) then Assembled(run)[p] else 0
  }

  /** `r` is `buf` with the characters of an LFN entry in their place, if the entry is read. */
  ghost predicate Extracted(buf: seq<byte>, r: seq<byte>, e: Entry, seqNo: nat)
    requires seqNo >= 1
  {
    var offset := LFN_CHARS * (seqNo - 1);
    && |r| == |buf|
    && forall p :: 0 <= p < |buf| ==>
         r[p] == if seqNo <= LFN_MAX && offset <= p < offset + LFN_CHARS then e[CharAt(p - offset)] else buf[p]
  }

  /** Copy the characters of an LFN entry into the buffer at `offset`. */
  method ExtractChars(e: Entry, buf: seq<byte>, offset: nat) returns (r: seq<byte>)
    requires offset + LFN_CHARS <= |buf|
    ensures |r| == |buf|
    ensures forall p :: 0 <= p < |buf| ==> r[p] == if offset <= p < offset + LFN_CHARS then e[CharAt(p - offset)] else buf[p]
  {
    r := buf;
    for j := 0 to LFN_CHARS
      invariant |r| == |buf|
      invariant forall p :: 0 <= p < |buf| ==> r[p] == if offset <= p < offset + j then e[CharAt(p - offset)] else buf[p]
    {
      r := r[offset + j := e[CharAt(j)]];
    }
  }

  /** One more entry of a run gathered. */
  lemma GatheredMore(buf: seq<byte>, run: seq<Entry>, m: nat, r: seq<byte>)
    requires m < |run| <= LFN_TOP && Gathered(buf, run, m) && Extracted(buf, r, run[m], |run| - m)
    ensures Gathered(r, run, m + 1)
  {
    var offset := LFN_CHARS * (|run| - m - 1);
    forall p | offset <= p < offset + LFN_CHARS
      ensures Assembled(run)[p] == run[m][CharAt(p - offset)]
    {
      assert p / LFN_CHARS == |run| - m - 1 && p % LFN_CHARS == p - offset;
    }
  }

  /** A gathered run reads as its long name. */
  lemma GatheredName(buf: seq<byte>, run: seq<Entry>)
    requires 1 <= |run| <= LFN_TOP && Gathered(buf, run, |run|)
    ensures CString(buf) == LongName(run)
  {
    var n := LFN_CHARS * Min(|run|, LFN_MAX);
    assert n == Min(|Assembled(run)|, SHOWN_MAX);
    var b, z := Assembled(run)[..n], buf[n..];
    assert buf == b + z;
    ZeroTail(b, z);
  }

  lemma {:induction false} ZeroTail(b: seq<byte>, z: seq<byte>)
    requires forall i :: 0 <= i < |z| ==> z[i] == 0
    ensures CString(b + z) == CString(b)
    decreases |b|
  {
    if b == [] {
      assert b + z == z;
    } else if b[0] != 0 {
      assert (b + z)[1..] == b[1..] + z;
      ZeroTail(b[1..], z);
    }
  }

  function EmptyBuf(): (b: seq<byte>)
    ensures |b| == 280 && forall p :: 0 <= p < 280 ==> b[p] == 0
  {
    seq(280, _ => 0)
  }

  /** The scan stands at slot `i`, `m` entries into the run that starts at `s`. */
  ghost predicate Midway(es: seq<Entry>, last: bool, i: nat, s: nat, m: nat, hasLfn: bool, buf: seq<byte>) {
    && i <= |es| && |buf| == 280 && Tidy(es, s, last)
    && if hasLfn then
         && s < i && m == i - s && s < |es| && !FreeSlot(es[s]) && IsLfn(es[s]) && StepOk(es, s) && m <= Seq(es[s])
         && Gathered(buf, es[s..s + Seq(es[s])], m)
       else s == i && m == 0
  }

  lemma AtStep(es: seq<Entry>, last: bool, i: nat, buf: seq<byte>)
    requires i <= |es| && |buf| == 280 && Tidy(es, i, last)
    ensures Midway(es, last, i, i, 0, false, buf)
  {
  }

  /** What the slot at `i` can be. */
  lemma MidwayFacts(es: seq<Entry>, last: bool, i: nat, s: nat, m: nat, hasLfn: bool, buf: seq<byte>)
    requires Midway(es, last, i, s, m, hasLfn, buf) && i < |es|
    ensures Tidy(es, s, last) && (!hasLfn ==> s == i && m == 0)
    ensures hasLfn ==> s < |es| && Seq(es[s]) <= LFN_TOP && StepOk(es, s) && s + Stride(es[s]) <= |es|
    ensures !hasLfn && !IsEnd(es[i]) ==> StepOk(es, i) && i + Stride(es[i]) <= |es| && Tidy(es, i + Stride(es[i]), last)
    ensures !hasLfn && IsEnd(es[i]) ==> last
    ensures hasLfn ==> s < |es| && !FreeSlot(es[s]) && IsLfn(es[s]) && Stride(es[s]) == Seq(es[s]) + 1 && m <= Seq(es[s])
    ensures hasLfn && m < Seq(es[s]) ==> !FreeSlot(es[i]) && IsLfn(es[i]) && Seq(es[i]) == Seq(es[s]) - m <= LFN_TOP && !IsFirst(es[i])
    ensures hasLfn && m == Seq(es[s]) ==>
              && Regular(es[i]) && i + 1 == s + Stride(es[s]) <= |es| && Tidy(es, i + 1, last)
              && ItemAt(es, s) == Item(CString(buf), es[i], i)
  {
    hide Gathered, LongName, ShortName;
    if hasLfn {
      var n := Seq(es[s]);
      var run := es[s..s + n];
      assert LfnRun(run);
      if m < n {
        assert run[m] == es[i];
      } else {
        GatheredName(buf, run);
      }
    }
  }

  /** The first entry of a run. */
  lemma RunStarts(es: seq<Entry>, last: bool, i: nat, buf: seq<byte>, r: seq<byte>)
    requires i < |es| && Tidy(es, i, last) && !FreeSlot(es[i]) && IsLfn(es[i]) && StepOk(es, i) && buf == EmptyBuf()
    requires 1 <= Seq(es[i]) <= LFN_TOP && Extracted(buf, r, es[i], Seq(es[i]))
    ensures Midway(es, last, i + 1, i, 1, true, r)
  {
    var run := es[i..i + Seq(es[i])];
    assert run[0] == es[i];
    assert Gathered(buf, run, 0);
    GatheredMore(buf, run, 0, r);
  }

  lemma RunSize(es: seq<Entry>, i: nat)
    requires i < |es| && StepOk(es, i) && !FreeSlot(es[i]) && IsLfn(es[i])
    ensures 1 <= Seq(es[i]) <= LFN_TOP && IsFirst(es[i])
  {
    assert es[i..i + Seq(es[i])][0] == es[i];
  }

  /** A further entry of a run. */
  lemma RunGoesOn(es: seq<Entry>, last: bool, i: nat, s: nat, m: nat, buf: seq<byte>, r: seq<byte>)
    requires Midway(es, last, i, s, m, true, buf) && i < |es| && m < Seq(es[s]) <= LFN_TOP && Extracted(buf, r, es[i], Seq(es[s]) - m)
    ensures Midway(es, last, i + 1, s, m + 1, true, r)
  {
    var run := es[s..s + Seq(es[s])];
    assert run[m] == es[i];
    GatheredMore(buf, run, m, r);
  }

  /** One LFN entry goes into the buffer. */
  method TakeLfn(es: seq<Entry>, last: bool, i: nat, hasLfn: bool, buf: seq<byte>, ghost s: nat, ghost m: nat)
    returns (hasLfn': bool, buf': seq<byte>)
    requires i < |es| && Midway(es, last, i, s, m, hasLfn, buf) && !FreeSlot(es[i]) && IsLfn(es[i]) && |buf| == 280
    ensures |buf'| == 280 && hasLfn'
    ensures if hasLfn then Midway(es, last, i + 1, s, m + 1, true, buf') else Midway(es, last, i + 1, i, 1, true, buf')
  {
    hide Tidy, StepOk, Gathered, Midway, LfnRun, CharAt;
    MidwayFacts(es, last, i, s, m, hasLfn, buf);
    if !hasLfn {
      RunSize(es, i);
    }
    var seqNo := es[i][0] as nat % 0x40;
    hasLfn', buf' := hasLfn, buf;
    if es[i][0] as nat / 0x40 % 2 == 1 {
      buf' := EmptyBuf();
      hasLfn' := true;
    }
    if hasLfn' && seqNo > 0 && seqNo <= LFN_MAX {
      buf' := ExtractChars(es[i], buf', (seqNo - 1) * LFN_CHARS);
    }
    if hasLfn {
      RunGoesOn(es, last, i, s, m, buf, buf');
    } else {
      RunStarts(es, last, i, EmptyBuf(), buf');
    }
  }

  /** Scan one cluster for a name, with the long-name state the scan carries. */
  method ScanCluster(es: seq<Entry>, last: bool, name: seq<byte>) returns (found: Option<Item>, ended: bool)
    requires Tidy(es, 0, last)
    ensures found == FirstOf(List(es, 0), name)
    ensures ended ==> found.None? && last
  {
    hide Tidy, List, StepOk, Gathered, Midway, LongName, ShortName, Decode83, LfnRun, SameLower;
    var hasLfn, buf := false, EmptyBuf();
    ghost var s, m: nat := 0, 0;
    var i: nat := 0;
    AtStep(es, last, 0, buf);
    while i < |es|
      invariant i <= |es| && Midway(es, last, i, s, m, hasLfn, buf) && |buf| == 280
      invariant FirstOf(List(es, 0), name) == FirstOf(List(es, s), name)
    {
      var e := es[i];
      MidwayFacts(es, last, i, s, m, hasLfn, buf);
      if e[0] == 0 {
        if last {
          TidyEnd(es, i, last);
          return None, true;
        }
        assert false;
      } else if e[0] == DELETED {
        ListStep(es, i, last);
        assert List(es, i) == List(es, i + Stride(es[i]));
        hasLfn := false;
        s, m := i + 1, 0;
        AtStep(es, last, i + 1, buf);
      } else if IsLfn(e) {
        s, m := if hasLfn then s else i, if hasLfn then m + 1 else 1;
        hasLfn, buf := TakeLfn(es, last, i, hasLfn, buf, s, if hasLfn then (m - 1) as nat else 0);
      } else if IsVolume(e) {
        ListStep(es, i, last);
        assert List(es, i) == List(es, i + Stride(es[i]));
        hasLfn := false;
        s, m := i + 1, 0;
        AtStep(es, last, i + 1, buf);
      } else {
        var shown := if hasLfn then CString(buf) else ShortName(e);
        ListStep(es, s, last);
        assert !IsGone(es[s]) && !IsVolume(es[s]);
        assert ItemAt(es, s) == Item(shown, e, i);
        FirstOfCons(ItemAt(es, s), List(es, i + 1), name);
        var eq := NamesMatch(name, shown);
        if eq {
          return Some(Item(shown, e, i)), false;
        }
        hasLfn := false;
        s, m := i + 1, 0;
        AtStep(es, last, i + 1, buf);
      }
      i := i + 1;
    }
    MidwayAtEnd(es, last, i, s, m, hasLfn, buf);
    TidyEnd(es, s, last);
    found, ended := None, false;
  }

  /** A run does not reach the end of the slots. */
  lemma MidwayAtEnd(es: seq<Entry>, last: bool, i: nat, s: nat, m: nat, hasLfn: bool, buf: seq<byte>)
    requires Midway(es, last, i, s, m, hasLfn, buf) && i == |es|
    ensures s == |es|
  {
  }
}
