/** A directory as the sequence of its 32-byte entries: what a scan lists, and how adding,
  * deleting and rewriting an entry set changes the listing.
  */
module ExfatDirectory {
  import opened Arith
  import opened Bytes
  import opened ExfatEntrySet
  import opened ExfatNames

  /** A set found by a scan, with its first entry and entry count. */
  datatype Listed = Listed(info: Info, at: nat, count: nat)

  /** End-of-directory marker or unused entry. */
  predicate Free(e: Entry) {
    e[0] < 0x80
  }

  predicate IsSetStart(e: Entry) {
    e[0] == TYPE_FILE && 2 <= e[1] <= MAX_SECONDARY
  }

  /** The next set from entry `i` on, as `dir_next_file` finds it: other entries are passed
    * over, a set that does not parse is passed over whole.
    */
  function NextSet(es: seq<Entry>, i: nat): (r: Option<Listed>)
    ensures r.Some? ==> i <= r.value.at && r.value.count >= 3 && r.value.at + r.value.count <= |es|
    decreases |es| - i
  {
    if i >= |es| || es[i][0] == TYPE_EOD then None
    else if !IsSetStart(es[i]) then NextSet(es, i + 1)
    else if i + 1 + es[i][1] as nat > |es| then None
    else
      match Parse(es[i..i + 1 + es[i][1] as nat])
      case None => NextSet(es, i + 1 + es[i][1] as nat)
      case Some(info) => Some(Listed(info, i, 1 + es[i][1] as nat))
  }

  /** Everything a scan from entry `i` lists. */
  function List(es: seq<Entry>, i: nat): seq<Listed>
    decreases |es| - i
  {
    match NextSet(es, i)
    case None => []
    case Some(x) => [x] + List(es, x.at + x.count)
  }

  /** A complete set that parses. */
  predicate ValidSet(s: seq<Entry>) {
    && 3 <= |s| <= 1 + MAX_SECONDARY
    && s[0][0] == TYPE_FILE && s[0][1] as int == |s| - 1
    && (forall k :: 1 <= k < |s| ==> s[k][0] >= 0xC0)
    && Parse(s).Some?
  }

  /** From entry `i` on there are only unused entries, other in-use entries and valid
    * sets, up to the first end marker; after it there are only end markers.
    */
  ghost predicate Tidy(es: seq<Entry>, i: nat)
    decreases |es| - i
  {
    if i >= |es| then true
    else if es[i][0] == TYPE_EOD then forall j :: i <= j < |es| ==> es[j][0] == TYPE_EOD
    else if es[i][0] != TYPE_FILE then Tidy(es, i + 1)
    else
      && i + 1 + es[i][1] as nat <= |es|
      && ValidSet(es[i..i + 1 + es[i][1] as nat])
      && Tidy(es, i + 1 + es[i][1] as nat)
  }

  /** `es` with the entries `s` in place of those from `a` on. */
  function Overwrite(es: seq<Entry>, a: nat, s: seq<Entry>): (r: seq<Entry>)
    requires a + |s| <= |es|
    ensures |r| == |es|
    ensures r[..a] == es[..a] && r[a..a + |s|] == s && r[a + |s|..] == es[a + |s|..]
    ensures forall j :: 0 <= j < |es| ==> r[j] == if a <= j < a + |s| then s[j - a] else es[j]
  {
    es[..a] + s + es[a + |s|..]
  }

  /** One step of a scan over a tidy directory. */
  lemma ListStep(es: seq<Entry>, i: nat)
    requires Tidy(es, i) && i < |es| && es[i][0] != TYPE_EOD
    ensures es[i][0] != TYPE_FILE ==> List(es, i) == List(es, i + 1) && Tidy(es, i + 1)
    ensures es[i][0] == TYPE_FILE ==>
              var c := 1 + es[i][1] as nat;
              && i + c <= |es| && ValidSet(es[i..i + c]) && Tidy(es, i + c)
              && List(es, i) == [Listed(Parse(es[i..i + c]).value, i, c)] + List(es, i + c)
  {
    hide Parse;
    if es[i][0] == TYPE_FILE {
      var c := 1 + es[i][1] as nat;
      assert es[i..i + c][0] == es[i];
    }
  }

  /** The converse: what makes a directory tidy from `i` on. */
  lemma TidyStep(es: seq<Entry>, i: nat)
    requires i < |es| && es[i][0] != TYPE_EOD
    requires es[i][0] != TYPE_FILE ==> Tidy(es, i + 1)
    requires es[i][0] == TYPE_FILE ==>
               var c := 1 + es[i][1] as nat;
               i + c <= |es| && ValidSet(es[i..i + c]) && Tidy(es, i + c)
    ensures Tidy(es, i)
  {
  }

  lemma TidyEnd(es: seq<Entry>, i: nat)
    requires i < |es| ==> es[i][0] == TYPE_EOD
    ensures Tidy(es, i) <==> forall j :: i <= j < |es| ==> es[j][0] == TYPE_EOD
    ensures List(es, i) == []
  {
  }

  /** A scan only sees the entries from its start on. */
  lemma {:induction false} ScanSeesSuffix(es: seq<Entry>, es': seq<Entry>, i: nat)
    requires |es| == |es'| && i <= |es| && es[i..] == es'[i..] && Tidy(es, i)
    ensures Tidy(es', i) && List(es', i) == List(es, i)
    decreases |es| - i
  {
    hide Tidy, List, ValidSet;
    forall j | i <= j < |es|
      ensures es[j] == es'[j]
    {
      assert es[j] == es[i..][j - i];
      assert es'[j] == es'[i..][j - i];
    }
    if i == |es| || es[i][0] == TYPE_EOD {
      TidyEnd(es, i);
      TidyEnd(es', i);
    } else {
      ListStep(es, i);
      var n := if es[i][0] == TYPE_FILE then 1 + es[i][1] as nat else 1;
      assert es[i + n..] == es'[i + n..];
      assert es[i..i + n] == es'[i..i + n];
      ScanSeesSuffix(es, es', i + n);
      TidyStep(es', i);
      ListStep(es', i);
    }
  }

  /** Free entries are invisible to a scan. */
  lemma {:induction false} FreeRunSkipped(es: seq<Entry>, a: nat, n: nat)
    requires Tidy(es, a) && a + n <= |es| && forall j :: a <= j < a + n ==> Free(es[j])
    ensures Tidy(es, a + n) && List(es, a) == List(es, a + n)
    decreases n
  {
    if n > 0 {
      if es[a][0] == TYPE_EOD {
        assert List(es, a) == [];
        assert a + n < |es| ==> es[a + n][0] == TYPE_EOD;
      } else {
        ListStep(es, a);
        FreeRunSkipped(es, a + 1, n - 1);
      }
    }
  }

  /** Entries one step of a scan passes over. */
  function Stride(e: Entry): (n: nat)
    ensures n >= 1
  {
    if e[0] == TYPE_FILE then 1 + e[1] as nat else 1
  }

  /** A scan from `i` arrives at entry `a` without meeting an end marker. */
  ghost predicate Reaches(es: seq<Entry>, i: nat, a: nat)
    decreases a - i
  {
    i == a || (i < a <= |es| && es[i][0] != TYPE_EOD && i + Stride(es[i]) <= a && Reaches(es, i + Stride(es[i]), a))
  }

  /** Directories that agree up to a place both scans reach list the same sets before it. */
  lemma {:induction false} CommonPrefix(es: seq<Entry>, es': seq<Entry>, i: nat, a: nat) returns (l: seq<Listed>)
    requires |es| == |es'| && a <= |es| && Reaches(es, i, a) && es[..a] == es'[..a]
    requires Tidy(es, i) && Tidy(es', a)
    ensures Tidy(es', i) && Tidy(es, a)
    ensures List(es, i) == l + List(es, a) && List(es', i) == l + List(es', a)
    ensures forall x :: x in l ==> i <= x.at && x.at + x.count <= a
    decreases a - i
  {
    hide Tidy, List, Parse;
    if i == a {
      l := [];
    } else {
      var n := Stride(es[i]);
      ListStep(es, i);
      forall j | 0 <= j < a
        ensures es[j] == es'[j]
      {
        assert es[j] == es[..a][j] == es'[..a][j];
      }
      var rest := CommonPrefix(es, es', i + n, a);
      assert es[i..i + n] == es'[i..i + n];
      TidyStep(es', i);
      ListStep(es', i);
      l := if es[i][0] == TYPE_FILE then [Listed(Parse(es[i..i + n]).value, i, n)] + rest else rest;
    }
  }

  lemma SetInUse(s: seq<Entry>)
    requires ValidSet(s)
    ensures forall k :: 0 <= k < |s| ==> !Free(s[k])
  {
  }

  /** The entries of a set are all in use. */
  lemma InsideSet(es: seq<Entry>, i: nat)
    requires Tidy(es, i) && i < |es|
    ensures i + Stride(es[i]) <= |es|
    ensures es[i][0] == TYPE_FILE ==> forall k :: i <= k < i + Stride(es[i]) ==> !Free(es[k])
  {
    hide Tidy, Parse;
    if es[i][0] != TYPE_EOD {
      ListStep(es, i);
    }
    if es[i][0] == TYPE_FILE {
      var n := Stride(es[i]);
      var s := es[i..i + n];
      SetInUse(s);
      forall k | i <= k < i + n
        ensures !Free(es[k])
      {
        assert s[k - i] == es[k];
      }
    }
  }

  /** A free entry with no end marker before it is reached by the scan. */
  lemma {:induction false} FreeReached(es: seq<Entry>, i: nat, a: nat)
    requires Tidy(es, i) && i <= a < |es| && Free(es[a])
    requires forall j :: i <= j < a ==> es[j][0] != TYPE_EOD
    ensures Reaches(es, i, a)
    decreases a - i
  {
    hide Tidy, List;
    if i < a {
      var n := Stride(es[i]);
      ListStep(es, i);
      InsideSet(es, i);
      FreeReached(es, i + n, a);
    }
  }

  /** A listed set is reached, complete and valid. */
  lemma {:induction false} ListedReached(es: seq<Entry>, i: nat, x: Listed)
    requires Tidy(es, i) && x in List(es, i)
    ensures i <= x.at < x.at + x.count <= |es| && Reaches(es, i, x.at) && Tidy(es, x.at)
    ensures es[x.at][0] == TYPE_FILE && x.count == Stride(es[x.at])
    ensures ValidSet(es[x.at..x.at + x.count]) && Parse(es[x.at..x.at + x.count]) == Some(x.info)
    decreases |es| - i
  {
    hide Tidy, List, Parse;
    if i >= |es| || es[i][0] == TYPE_EOD {
      TidyEnd(es, i);
      assert false;
    }
    var n := Stride(es[i]);
    ListStep(es, i);
    if !(es[i][0] == TYPE_FILE && x == Listed(Parse(es[i..i + n]).value, i, n)) {
      ListedReached(es, i + n, x);
    }
  }

  /** A valid set at `a` before a tidy rest. */
  lemma SetAt(es: seq<Entry>, a: nat, s: seq<Entry>)
    requires ValidSet(s) && a + |s| <= |es| && es[a..a + |s|] == s && Tidy(es, a + |s|)
    ensures Tidy(es, a) && List(es, a) == [Listed(Parse(s).value, a, |s|)] + List(es, a + |s|)
  {
    hide Parse, Tidy, List;
    assert es[a] == s[0];
    TidyStep(es, a);
    ListStep(es, a);
  }

  /** Writing a set into free entries adds exactly that set to the listing. */
  lemma SetInserted(es: seq<Entry>, a: nat, s: seq<Entry>) returns (before: seq<Listed>, after: seq<Listed>)
    requires Tidy(es, 0) && ValidSet(s) && a + |s| <= |es|
    requires forall j :: a <= j < a + |s| ==> Free(es[j])
    requires forall j :: 0 <= j < a ==> es[j][0] != TYPE_EOD
    ensures Tidy(Overwrite(es, a, s), 0)
    ensures List(es, 0) == before + after
    ensures List(Overwrite(es, a, s), 0) == before + [Listed(Parse(s).value, a, |s|)] + after
    ensures forall x :: x in before ==> x.at + x.count <= a
  {
    hide Parse, Tidy, List, Stride;
    var es' := Overwrite(es, a, s);
    assert Free(es[a]);
    FreeReached(es, 0, a);
    ReachedTidy(es, 0, a);
    FreeRunSkipped(es, a, |s|);
    after := List(es, a + |s|);
    ScanSeesSuffix(es, es', a + |s|);
    SetAt(es', a, s);
    before := CommonPrefix(es, es', 0, a);
    assert before + ([Listed(Parse(s).value, a, |s|)] + after) == before + [Listed(Parse(s).value, a, |s|)] + after;
  }

  lemma {:induction false} ReachedTidy(es: seq<Entry>, i: nat, a: nat)
    requires Tidy(es, i) && Reaches(es, i, a)
    ensures Tidy(es, a)
    decreases a - i
  {
    hide Tidy, List;
    if i < a {
      ListStep(es, i);
      ReachedTidy(es, i + Stride(es[i]), a);
    }
  }

  /** An entry with its in-use bit cleared. */
  function Unused(e: Entry): (r: Entry)
    ensures r[0] == e[0] % 0x80
  {
    PutEntry(e, 0, [e[0] % 0x80])
  }

  function AllUnused(s: seq<Entry>): (r: seq<Entry>)
    ensures |r| == |s| && forall k :: 0 <= k < |s| ==> r[k] == Unused(s[k])
  {
    seq(|s|, k requires 0 <= k < |s| => Unused(s[k]))
  }

  /** `es` with the in-use bits of `count` entries cleared. */
  function Deleted(es: seq<Entry>, a: nat, count: nat): (r: seq<Entry>)
    requires a + count <= |es|
    ensures |r| == |es| && r[..a] == es[..a] && r[a + count..] == es[a + count..]
    ensures forall j :: a <= j < a + count ==> r[j] == Unused(es[j])
  {
    Overwrite(es, a, AllUnused(es[a..a + count]))
  }

  /** A listed set and what the scan lists after it. */
  lemma ListAtSet(es: seq<Entry>, x: Listed)
    requires Tidy(es, 0) && x in List(es, 0)
    ensures x.at < x.at + x.count <= |es| && Reaches(es, 0, x.at)
    ensures Tidy(es, x.at + x.count) && List(es, x.at) == [x] + List(es, x.at + x.count)
    ensures ValidSet(es[x.at..x.at + x.count]) && Parse(es[x.at..x.at + x.count]) == Some(x.info)
  {
    hide Parse, Tidy, List, Reaches;
    ListedReached(es, 0, x);
    ListStep(es, x.at);
  }

  /** Replacing a listed set by entries that list as `mid` replaces it by `mid`. */
  lemma SetReplaced(es: seq<Entry>, es': seq<Entry>, x: Listed, mid: seq<Listed>)
    returns (before: seq<Listed>, after: seq<Listed>)
    requires Tidy(es, 0) && x in List(es, 0) && |es'| == |es| && x.at + x.count <= |es|
    requires es'[..x.at] == es[..x.at] && es'[x.at + x.count..] == es[x.at + x.count..]
    requires Tidy(es', x.at + x.count) ==> Tidy(es', x.at) && List(es', x.at) == mid + List(es', x.at + x.count)
    ensures Tidy(es', 0)
    ensures List(es, 0) == before + [x] + after && List(es', 0) == before + mid + after
    ensures (forall y :: y in before ==> y.at + y.count <= x.at)
  {
    hide Parse, Tidy, List, Stride, ValidSet;
    ListAtSet(es, x);
    after := List(es, x.at + x.count);
    ScanSeesSuffix(es, es', x.at + x.count);
    before := CommonPrefix(es, es', 0, x.at);
    assert before + ([x] + after) == before + [x] + after;
    assert before + (mid + after) == before + mid + after;
  }

  /** Clearing the in-use bits of a listed set removes exactly that set from the listing. */
  lemma SetDeleted(es: seq<Entry>, x: Listed) returns (before: seq<Listed>, after: seq<Listed>)
    requires Tidy(es, 0) && x in List(es, 0)
    ensures x.at + x.count <= |es|
    ensures Tidy(Deleted(es, x.at, x.count), 0)
    ensures List(es, 0) == before + [x] + after
    ensures List(Deleted(es, x.at, x.count), 0) == before + after
  {
    hide Parse, Tidy, List, Reaches, Deleted;
    ListAtSet(es, x);
    var a, n := x.at, x.count;
    var es' := Deleted(es, a, n);
    forall j | a <= j < a + n
      ensures es'[j][0] != TYPE_EOD && Free(es'[j])
    {
      assert es[j] == es[a..a + n][j - a];
    }
    if Tidy(es', a + n) {
      UnusedRun(es', a, n);
      assert List(es', a) == [] + List(es', a + n);
    }
    before, after := SetReplaced(es, es', x, []);
    assert before + [] + after == before + after;
  }

  /** Unused entries before a tidy rest. */
  lemma {:induction false} UnusedRun(es: seq<Entry>, a: nat, n: nat)
    requires a + n <= |es| && Tidy(es, a + n)
    requires forall j :: a <= j < a + n ==> es[j][0] != TYPE_EOD && Free(es[j])
    ensures Tidy(es, a) && List(es, a) == List(es, a + n)
    decreases n
  {
    hide Tidy, List;
    if n > 0 {
      UnusedRun(es, a + 1, n - 1);
      TidyStep(es, a);
      ListStep(es, a);
    }
  }

  /** Rewriting a listed set in place replaces exactly that set in the listing. */
  lemma SetRewritten(es: seq<Entry>, x: Listed, s: seq<Entry>) returns (before: seq<Listed>, after: seq<Listed>)
    requires Tidy(es, 0) && x in List(es, 0) && ValidSet(s) && |s| == x.count
    ensures x.at + x.count <= |es|
    ensures Tidy(Overwrite(es, x.at, s), 0)
    ensures List(es, 0) == before + [x] + after
    ensures List(Overwrite(es, x.at, s), 0) == before + [Listed(Parse(s).value, x.at, |s|)] + after
  {
    hide Parse, Tidy, List, Reaches;
    ListAtSet(es, x);
    var es' := Overwrite(es, x.at, s);
    if Tidy(es', x.at + x.count) {
      SetAt(es', x.at, s);
    }
    before, after := SetReplaced(es, es', x, [Listed(Parse(s).value, x.at, |s|)]);
  }

  // ---- looking for room ----

  /** Everything after the first end marker is an end marker. */
  lemma {:induction false} EndMarkersStay(es: seq<Entry>, i: nat, j: nat, m: nat)
    requires Tidy(es, i) && i <= j <= m < |es| && es[j][0] == TYPE_EOD
    ensures es[m][0] == TYPE_EOD
    decreases |es| - i
  {
    if es[i][0] != TYPE_EOD {
      ListStep(es, i);
      var n := Stride(es[i]);
      InsideSet(es, i);
      EndMarkersStay(es, i + n, j, m);
    }
  }

  /** Length of the run of free entries that ends before entry `i`. */
  function RunLength(es: seq<Entry>, i: nat): (n: nat)
    requires i <= |es|
    ensures n <= i
    ensures forall j :: i - n <= j < i ==> Free(es[j])
  {
    if i == 0 || !Free(es[i - 1]) then 0 else RunLength(es, i - 1) + 1
  }

  /** No run of `count` free entries ends at or before entry `n`. */
  ghost predicate NoRun(es: seq<Entry>, n: nat, count: nat) {
    n <= |es| && forall i :: 0 <= i <= n ==> RunLength(es, i) < count
  }

  lemma {:induction false} RunAtLeast(es: seq<Entry>, j: nat, i: nat)
    requires j <= i <= |es| && forall m :: j <= m < i ==> Free(es[m])
    ensures RunLength(es, i) >= i - j
    decreases i
  {
    if j < i {
      RunAtLeast(es, j, i - 1);
    }
  }

  /** The first run of `n` free entries starts before any end marker it does not hold. */
  lemma FirstRunBeforeEnd(es: seq<Entry>, a: nat, n: nat, j: nat)
    requires Tidy(es, 0) && a + n <= |es| && j < a
    requires n >= 1 && NoRun(es, a + n - 1, n)
    ensures es[j][0] != TYPE_EOD
  {
    if es[j][0] == TYPE_EOD {
      FreeFromEnd(es, j);
      RunAtLeast(es, j, j + n);
    }
  }

  /** The run of free entries at the end starts before any end marker it does not hold. */
  lemma LastRunBeforeEnd(es: seq<Entry>, j: nat)
    requires Tidy(es, 0) && j < |es| - RunLength(es, |es|)
    ensures es[j][0] != TYPE_EOD
  {
    if es[j][0] == TYPE_EOD {
      FreeFromEnd(es, j);
      RunAtLeast(es, j, |es|);
    }
  }

  lemma FreeFromEnd(es: seq<Entry>, j: nat)
    requires Tidy(es, 0) && j < |es| && es[j][0] == TYPE_EOD
    ensures forall m :: j <= m < |es| ==> Free(es[m])
  {
    forall m | j <= m < |es|
      ensures Free(es[m])
    {
      EndMarkersStay(es, 0, j, m);
    }
  }

  /** End markers appended to a tidy directory keep it tidy and list nothing. */
  lemma {:induction false} EndMarkersAppended(es: seq<Entry>, z: seq<Entry>, i: nat)
    requires Tidy(es, i) && i <= |es| && forall j :: 0 <= j < |z| ==> z[j][0] == TYPE_EOD
    ensures Tidy(es + z, i) && List(es + z, i) == List(es, i)
    decreases |es| - i
  {
    hide Tidy, List, Parse;
    if i == |es| || es[i][0] == TYPE_EOD {
      TidyEnd(es, i);
      TidyEnd(es + z, i);
    } else {
      ListStep(es, i);
      var n := Stride(es[i]);
      EndMarkersAppended(es, z, i + n);
      assert (es + z)[i..i + n] == es[i..i + n];
      TidyStep(es + z, i);
      ListStep(es + z, i);
    }
  }

  // ---- in-place changes ----

  lemma ValidSetShape(s: seq<Entry>)
    requires ValidSet(s)
    ensures 3 <= |s| <= 19 && s[0][0] == TYPE_FILE && s[1][0] == TYPE_STREAM && s[0][1] as int == |s| - 1
    ensures Parse(s).Some?
  {
  }

  /** Rewriting the first two entries of a set is rewriting the set. */
  lemma HeadRewritten(es: seq<Entry>, a: nat, s: seq<Entry>, t: seq<Entry>)
    requires |s| == |t| >= 2 && a + |s| <= |es| && es[a..a + |s|] == s && t[2..] == s[2..]
    ensures Overwrite(Overwrite(es, a + 1, [t[1]]), a, [t[0]]) == Overwrite(es, a, t)
  {
    forall i | 2 <= i < |s|
      ensures t[i] == es[a + i]
    {
      assert t[i] == t[2..][i - 2] == s[2..][i - 2] == s[i];
    }
  }

  /** A patched valid set is valid. */
  lemma PatchedValid(s: seq<Entry>, first: nat, size: nat, valid: nat, contiguous: bool)
    requires ValidSet(s)
    requires first < 0x1_0000_0000 && size < 0x1_0000_0000_0000_0000 && valid < 0x1_0000_0000_0000_0000
    ensures ValidSet(Patched(s, first, size, valid, contiguous))
  {
    hide Parse, Patched;
    PatchedParses(s, first, size, valid, contiguous);
    var t := Patched(s, first, size, valid, contiguous);
    forall k | 1 <= k < |t|
      ensures t[k][0] >= 0xC0
    {
      if k >= 2 {
        assert t[k] == t[2..][k - 2] == s[2..][k - 2];
      }
    }
  }

  // ---- names in a listing ----

  /** The first listed set with the given name. */
  function FirstNamed(l: seq<Listed>, name: seq<byte>): (r: Option<Listed>)
    ensures r.Some? ==> r.value in l && SameName(name, r.value.info.name)
    ensures r.None? ==> forall x :: x in l ==> !SameName(name, x.info.name)
  {
    if l == [] then None
    else if SameName(name, l[0].info.name) then Some(l[0])
    else FirstNamed(l[1..], name)
  }
}
