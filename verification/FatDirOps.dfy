/** FAT32 directories on the volume: the listing over all clusters, and the operations on it. */
module FatDirOps {
  import opened Arith
  import opened Bytes
  import opened ExfatNames
  import opened ExfatEntrySet
  import opened FatTable
  import opened FatClusters
  import opened FatChains
  import opened FatNames
  import opened FatSlots
  import opened FatDirectory
  import F = FatFiles
  import D = ExfatDirectory
  import V = ExfatDirVolume

  // ---- the listing of a directory ----

  /** A listed item and the cluster its slots are in. */
  datatype Placed = Placed(item: Item, cluster: nat)

  function Place(l: seq<Item>, c: nat): (r: seq<Placed>)
    ensures |r| == |l| && forall i :: 0 <= i < |l| ==> r[i] == Placed(l[i], c)
  {
    seq(|l|, i requires 0 <= i < |l| => Placed(l[i], c))
  }

  lemma PlaceConcat(a: seq<Item>, b: seq<Item>, c: nat)
    ensures Place(a + b, c) == Place(a, c) + Place(b, c)
  {
  }

  ghost predicate InData(data: seq<seq<byte>>, cl: seq<nat>) {
    forall i :: 0 <= i < |cl| ==> cl[i] < |data|
  }

  /** What cluster `c` lists. */
  ghost function ClusterList(data: seq<seq<byte>>, c: nat): seq<Placed>
    requires c < |data|
  {
    Place(List(V.EntriesOf(data[c]), 0), c)
  }

  ghost function DirList(data: seq<seq<byte>>, cl: seq<nat>): seq<Placed>
    requires InData(data, cl)
  {
    if cl == [] then [] else DirList(data, cl[..|cl| - 1]) + ClusterList(data, cl[|cl| - 1])
  }

  /** The clusters' slots are tidy; end markers are only in the last one. */
  ghost predicate DirTidy(data: seq<seq<byte>>, cl: seq<nat>) {
    && InData(data, cl)
    && forall k :: 0 <= k < |cl| ==> Tidy(V.EntriesOf(data[cl[k]]), 0, k == |cl| - 1)
  }

  /** Clusters are made of whole slots. */
  predicate Slotted(bpc: nat) {
    bpc % 32 == 0 && bpc >= 32
  }

  /** A directory whose chain starts at `first`. */
  ghost predicate DirOk(v: Fat32, first: nat, cl: seq<nat>)
    reads v, v.fat, v.store
  {
    && v.Valid() && Slotted(v.store.bpc) && cl != []
    && Chain(v.Links(), v.total + 2, first, cl) && DirTidy(v.store.data, cl)
  }

  lemma {:induction false} DirConcat(data: seq<seq<byte>>, a: seq<nat>, b: seq<nat>)
    requires InData(data, a) && InData(data, b)
    ensures InData(data, a + b) && DirList(data, a + b) == DirList(data, a) + DirList(data, b)
  {
    hide ClusterList;
    if b == [] {
      assert a + b == a;
    } else {
      var front := b[..|b| - 1];
      assert (a + b)[..|a + b| - 1] == a + front;
      DirConcat(data, a, front);
      var last := ClusterList(data, b[|b| - 1]);
      assert DirList(data, a) + DirList(data, front) + last == DirList(data, a) + (DirList(data, front) + last);
    }
  }

  /** The listing around cluster `k`. */
  lemma DirSplit(data: seq<seq<byte>>, cl: seq<nat>, k: nat)
    requires InData(data, cl) && k < |cl|
    ensures InData(data, cl[..k]) && InData(data, cl[k + 1..])
    ensures DirList(data, cl) == DirList(data, cl[..k]) + ClusterList(data, cl[k]) + DirList(data, cl[k + 1..])
  {
    assert cl == cl[..k] + [cl[k]] + cl[k + 1..];
    DirConcat(data, cl[..k], [cl[k]]);
    assert [cl[k]][..0] == [];
    DirConcat(data, cl[..k] + [cl[k]], cl[k + 1..]);
  }

  lemma {:induction false} DirSame(data: seq<seq<byte>>, data': seq<seq<byte>>, cl: seq<nat>)
    requires InData(data, cl) && |data'| == |data| && forall i :: 0 <= i < |cl| ==> data'[cl[i]] == data[cl[i]]
    ensures InData(data', cl) && DirList(data', cl) == DirList(data, cl)
  {
    if cl != [] {
      DirSame(data, data', cl[..|cl| - 1]);
    }
  }

  /** One cluster rewritten: the listing changes only there. */
  lemma DirRewritten(data: seq<seq<byte>>, cl: seq<nat>, k: nat, b: seq<byte>)
    requires DirTidy(data, cl) && k < |cl| && FatChains.Distinct(cl) && Tidy(V.EntriesOf(b), 0, k == |cl| - 1)
    ensures var data' := data[cl[k] := b];
            && DirTidy(data', cl) && InData(data, cl[..k]) && InData(data, cl[k + 1..])
            && DirList(data, cl) == DirList(data, cl[..k]) + ClusterList(data, cl[k]) + DirList(data, cl[k + 1..])
            && DirList(data', cl) == DirList(data, cl[..k]) + Place(List(V.EntriesOf(b), 0), cl[k]) + DirList(data, cl[k + 1..])
  {
    hide Tidy, List;
    var data' := data[cl[k] := b];
    DirSplit(data, cl, k);
    DirSplit(data', cl, k);
    DirSame(data, data', cl[..k]);
    DirSame(data, data', cl[k + 1..]);
    forall j | 0 <= j < |cl|
      ensures Tidy(V.EntriesOf(data'[cl[j]]), 0, j == |cl| - 1)
    {
    }
  }

  // ---- looking a name up ----

  function FirstPlaced(l: seq<Placed>, name: seq<byte>): (r: Option<Placed>)
    ensures r.Some? ==> r.value in l && SameLower(name, r.value.item.name)
    ensures r.None? ==> forall x :: x in l ==> !SameLower(name, x.item.name)
  {
    if l == [] then None
    else if SameLower(name, l[0].item.name) then Some(l[0])
    else FirstPlaced(l[1..], name)
  }

  lemma {:induction false} FirstPlacedConcat(a: seq<Placed>, b: seq<Placed>, name: seq<byte>)
    ensures FirstPlaced(a + b, name) == if FirstPlaced(a, name).Some? then FirstPlaced(a, name) else FirstPlaced(b, name)
  {
    if a == [] {
      assert a + b == b;
    } else {
      assert (a + b)[1..] == a[1..] + b;
      FirstPlacedConcat(a[1..], b, name);
    }
  }

  lemma {:induction false} FirstOfPlace(l: seq<Item>, c: nat, name: seq<byte>)
    ensures FirstPlaced(Place(l, c), name) ==
            match FirstOf(l, name)
            case None => None
            case Some(x) => Some(Placed(x, c))
  {
    if l != [] {
      assert Place(l, c)[1..] == Place(l[1..], c);
      FirstOfPlace(l[1..], c, name);
    }
  }

  lemma DirCluster(v: Fat32, first: nat, cl: seq<nat>, k: nat)
    requires DirOk(v, first, cl) && k < |cl|
    ensures 2 <= cl[k] < v.total + 2 && cl[k] < |v.store.data| && !IsEoc(cl[k]) && FatChains.Distinct(cl)
    ensures Tidy(V.EntriesOf(v.store.data[cl[k]]), 0, k == |cl| - 1)
    ensures |v.store.data[cl[k]]| == v.store.bpc
    ensures cl[0] == first && InData(v.store.data, cl)
  {
  }

  /** Find a name in a directory: the first listed item with it. */
  method FindEntry(v: Fat32, dirCluster: nat, name: seq<byte>, ghost cl: seq<nat>) returns (found: Option<Placed>)
    requires DirOk(v, dirCluster, cl)
    modifies v.fat, v.store
    ensures DirOk(v, dirCluster, cl) && v.Links() == old(v.Links()) && v.store.data == old(v.store.data)
    ensures found == FirstPlaced(DirList(v.store.data, cl), name)
  {
    hide LinksOf, Chain, DirTidy, DirList, Tidy, List, SameLower, FirstPlaced, ClusterList;
    var cluster := dirCluster;
    ghost var k := 0;
    ghost var data := v.store.data;
    DirCluster(v, dirCluster, cl, 0);
    assert InData(data, cl[..0]) && FirstPlaced(DirList(data, cl[..0]), name) == None by { NothingYet(data, cl, name); }
    while cluster >= 2 && !IsEoc(cluster)
      invariant DirOk(v, dirCluster, cl) && v.Links() == old(v.Links()) && v.store.data == data
      invariant k <= |cl| && InData(data, cl[..k]) && FirstPlaced(DirList(data, cl[..k]), name) == None
      invariant if k < |cl| then 2 <= cluster == cl[k] && !IsEoc(cluster) else cluster < 2 || IsEoc(cluster)
      decreases |cl| - k
    {
      DirCluster(v, dirCluster, cl, k);
      var ok, buf := v.store.ReadCluster(cluster);
      var next := F.NeighbourAt(v, cluster, dirCluster, cl, k);
      NextIsLast(v, dirCluster, cl, k);
      var x, ended := ScanCluster(V.EntriesOf(buf), IsEoc(next), name);
      MoreLooked(data, cl, k, name, x);
      if x.Some? {
        return Some(Placed(x.value, cluster));
      }
      if ended {
        assert cl[..k + 1] == cl;
        return None;
      }
      k := k + 1;
      cluster := next;
    }
    assert cl[..k] == cl;
    found := None;
  }

  lemma NothingYet(data: seq<seq<byte>>, cl: seq<nat>, name: seq<byte>)
    ensures InData(data, cl[..0]) && FirstPlaced(DirList(data, cl[..0]), name) == None
  {
  }

  /** A further cluster of the chain is no end marker. */
  lemma NextIsLast(v: Fat32, first: nat, cl: seq<nat>, k: nat)
    requires DirOk(v, first, cl) && k < |cl|
    ensures k + 1 < |cl| ==> !IsEoc(cl[k + 1])
  {
  }

  /** One more cluster looked through. */
  lemma MoreLooked(data: seq<seq<byte>>, cl: seq<nat>, k: nat, name: seq<byte>, x: Option<Item>)
    requires InData(data, cl) && k < |cl| && InData(data, cl[..k]) && FirstPlaced(DirList(data, cl[..k]), name) == None
    requires x == FirstOf(List(V.EntriesOf(data[cl[k]]), 0), name)
    ensures InData(data, cl[..k + 1])
    ensures x.None? ==> FirstPlaced(DirList(data, cl[..k + 1]), name) == None
    ensures x.Some? ==> FirstPlaced(DirList(data, cl), name) == Some(Placed(x.value, cl[k]))
  {
    hide List, FirstPlaced, SameLower;
    assert cl[..k + 1][..k] == cl[..k];
    FirstPlacedConcat(DirList(data, cl[..k]), ClusterList(data, cl[k]), name);
    FirstOfPlace(List(V.EntriesOf(data[cl[k]]), 0), cl[k], name);
    DirSplit(data, cl, k);
    FirstPlacedConcat(DirList(data, cl[..k]) + ClusterList(data, cl[k]), DirList(data, cl[k + 1..]), name);
  }

  // ---- the slots of a new entry ----

  /** The 8.3 entry of a file or directory. */
  function ShortEntry(n83: seq<byte>, first: nat, size: nat, attr: byte): (e: Entry)
    requires |n83| == 11
    ensures e[..11] == n83 && e[ATTR_AT] == attr && e[0] == n83[0]
  {
    PutEntry(PutEntry(PutEntry(PutEntry(PutEntry(ZeroEntry(), 0, n83), ATTR_AT, [attr]), 20, Le16(first / 0x1_0000)),
                      26, Le16(first % 0x1_0000)), 28, Le32(size))
  }

  function FirstCluster(e: Entry): nat {
    Rd16(e, 20) * 0x1_0000 + Rd16(e, 26)
  }

  function FileSize(e: Entry): nat {
    Rd32(e, 28)
  }

  lemma ShortEntryFields(n83: seq<byte>, first: nat, size: nat, attr: byte)
    requires |n83| == 11 && first < 0x1_0000_0000 && size < 0x1_0000_0000
    ensures FirstCluster(ShortEntry(n83, first, size, attr)) == first && FileSize(ShortEntry(n83, first, size, attr)) == size
  {
    hide Rd32, Le32;
    var a := PutEntry(PutEntry(ZeroEntry(), 0, n83), ATTR_AT, [attr]);
    var b := PutEntry(a, 20, Le16(first / 0x1_0000));
    var c := PutEntry(b, 26, Le16(first % 0x1_0000));
    var e := PutEntry(c, 28, Le32(size));
    Rd16Put(a, 20, first / 0x1_0000);
    Rd16Put(b, 26, first % 0x1_0000);
    Rd32Put(c, 28, size);
    assert Rd16(e, 20) == Rd16(b, 20) && Rd16(e, 26) == Rd16(c, 26);
  }

  /** The long-name entries of a name, the last part first, then its 8.3 entry. They make a new entry
    * unless the 8.3 entry looks deleted.
    */
  method BuildSlots(name: seq<byte>, lfnCount: nat, n83: seq<byte>, first: nat, size: nat, attr: byte) returns (s: seq<Entry>)
    requires |n83| == 11 && lfnCount <= LFN_TOP && attr as nat / ATTR_VOLUME % 2 == 0 && n83[0] != 0
    requires lfnCount == 0 || (lfnCount == LfnCount(|name|) && 1 <= |name| <= NAME_LIMIT && forall i :: 0 <= i < |name| ==> name[i] != 0)
    ensures |s| == lfnCount + 1 && s[lfnCount] == ShortEntry(n83, first, size, attr)
    ensures forall k :: 0 <= k < lfnCount ==> s[k][13] == ShortChecksum(n83)
    ensures if n83[0] != DELETED then NewSlots(s) else if lfnCount == 0 then HiddenSlot(s) else TornSlots(s)
    ensures forall a: nat :: NewItem(s, a) == Item(if lfnCount > 0 then ShownPart(name) else CString(Decode83(n83)), s[lfnCount], a + lfnCount)
  {
    hide LongName, Decode83, CString, CharAt, Padded;
    var chk := ShortChecksum(n83);
    s := [];
    ghost var n := lfnCount;
    for i := 0 to lfnCount
      invariant |s| == i && forall j :: 0 <= j < i ==> s[j][13] == chk
      invariant forall j :: 0 <= j < i ==> IsLfn(s[j]) && Seq(s[j]) == n - j && (IsFirst(s[j]) <==> j == 0) && s[j][0] != 0 && s[j][0] != DELETED
      invariant forall k, j :: 0 <= k < i && 0 <= j < LFN_CHARS ==> s[k][CharAt(j)] == Padded(name, (n - 1 - k) * LFN_CHARS + j)[0]
    {
      var e := BuildLfn(lfnCount - i, i == 0, name, chk);
      assert e[13] == chk;
      s := s + [e];
    }
    SlotsBuilt(s, name, ShortEntry(n83, first, size, attr));
    s := s + [ShortEntry(n83, first, size, attr)];
  }

  lemma SlotsBuilt(run: seq<Entry>, name: seq<byte>, e: Entry)
    requires |run| <= LFN_TOP && !IsEnd(e) && !IsLfn(e) && !IsVolume(e)
    requires forall j :: 0 <= j < |run| ==> IsLfn(run[j]) && Seq(run[j]) == |run| - j && (IsFirst(run[j]) <==> j == 0) && run[j][0] != 0 && run[j][0] != DELETED
    requires forall k, j :: 0 <= k < |run| && 0 <= j < LFN_CHARS ==> run[k][CharAt(j)] == Padded(name, (|run| - 1 - k) * LFN_CHARS + j)[0]
    requires |run| == 0 || (|run| == LfnCount(|name|) && 1 <= |name| <= NAME_LIMIT && forall i :: 0 <= i < |name| ==> name[i] != 0)
    ensures if !IsGone(e) then NewSlots(run + [e]) else if run == [] then HiddenSlot(run + [e]) else TornSlots(run + [e])
    ensures forall a: nat :: NewItem(run + [e], a) == Item(if |run| > 0 then ShownPart(name) else ShortName(e), e, a + |run|)
  {
    hide LongName, ShortName, Padded;
    var s := run + [e];
    assert s[..|run|] == run && s[0..|run|] == run;
    if |run| > 0 {
      LongNameComesBack(run, name);
    }
  }

  // ---- short names for long ones ----

  /** The first character kept of a base name, upper-cased; a tilde if none is. */
  function Lead(s: seq<byte>): byte {
    if s == [] then TILDE
    else if s[0] == BLANK || s[0] == DOT then Lead(s[1..])
    else Upper(s[0])
  }

  /** The kept characters of a base name. */
  method BasisOf(name: seq<byte>, end: nat) returns (basis: seq<byte>)
    requires end <= |name|
    ensures |basis| <= 63 && (if basis == [] then Lead(name[..end]) == TILDE else basis[0] == Lead(name[..end]))
    ensures (forall i :: 0 <= i < |name| ==> name[i] != 0) ==> forall i :: 0 <= i < |basis| ==> basis[i] != 0
  {
    basis := [];
    var i := 0;
    assert name[..end][0..] == name[..end];
    while i < end && |basis| < 63
      invariant i <= end && |basis| <= 63
      invariant if basis == [] then Lead(name[..end]) == Lead(name[..end][i..]) else basis[0] == Lead(name[..end])
      invariant (forall i :: 0 <= i < |name| ==> name[i] != 0) ==> forall i :: 0 <= i < |basis| ==> basis[i] != 0
    {
      var c := name[i];
      assert name[..end][i..][1..] == name[..end][i + 1..];
      i := i + 1;
      if c == BLANK || c == DOT {
        continue;
      }
      basis := basis + [Upper(c)];
    }
  }

  /** The extension of a generated short name. */
  method ExtensionOf(name: seq<byte>, dot: nat) returns (ext: seq<byte>)
    requires dot <= |name|
    ensures |ext| == 3
  {
    ext := [];
    if dot < |name| {
      var e := name[dot + 1..];
      for i := 0 to Min(|e|, 3)
        invariant |ext| <= i
      {
        if e[i] != BLANK {
          ext := ext + [Upper(e[i])];
        }
      }
    }
    while |ext| < 3
      invariant |ext| <= 3
    {
      ext := ext + [BLANK];
    }
  }

  /** The name with the suffix for attempt `n`. */
  function Numbered(basis: seq<byte>, n: nat): (r: seq<byte>)
    requires 1 <= n <= 99
    ensures |r| == 8 && r[0] == if basis == [] then TILDE else basis[0]
  {
    var suffix: seq<byte> := [TILDE] + (if n >= 10 then [0x30 + n / 10] else []) + [0x30 + n % 10];
    var base := basis[..Min(8 - |suffix|, |basis|)];
    base + suffix + seq(8 - |base| - |suffix|, _ => BLANK)
  }

  /** Make a short name for a long one, trying numbers until no listed name is the same. */
  method GenerateShortName(v: Fat32, dirCluster: nat, name: seq<byte>, ghost cl: seq<nat>) returns (n83: seq<byte>)
    requires DirOk(v, dirCluster, cl)
    modifies v.fat, v.store
    ensures DirOk(v, dirCluster, cl) && v.Links() == old(v.Links()) && v.store.data == old(v.store.data)
    ensures |n83| == 11 && n83[0] == Lead(name[..LastDot(name)])
  {
    hide LinksOf, DirOk, FirstPlaced, DirList, Lead, Trimmed;
    DirValid(v, dirCluster, cl);
    var dot := LastDot(name);
    var ext := ExtensionOf(name, dot);
    var basis := BasisOf(name, dot);
    n83 := Numbered(basis, 1) + ext;
    for n := 1 to 100
      invariant DirOk(v, dirCluster, cl) && v.Valid() && v.Links() == old(v.Links()) && v.store.data == old(v.store.data)
      invariant |n83| == 11 && n83[0] == Lead(name[..dot])
    {
      n83 := Numbered(basis, n) + ext;
      var check := Trimmed(n83[..8]) + if n83[8] != BLANK then [DOT] + Trimmed(n83[8..11]) else [];
      var found := FindEntry(v, dirCluster, check, cl);
      DirValid(v, dirCluster, cl);
      if found.None? {
        return;
      }
    }
  }

  lemma DirChain(v: Fat32, first: nat, cl: seq<nat>)
    requires DirOk(v, first, cl)
    ensures v.Valid() && cl != [] && Chain(v.Links(), v.total + 2, first, cl) && cl[|cl| - 1] < |v.Links()|
    ensures Slotted(v.store.bpc) && DirTidy(v.store.data, cl)
  {
  }

  lemma DirValid(v: Fat32, first: nat, cl: seq<nat>)
    requires DirOk(v, first, cl)
    ensures v.Valid() && InData(v.store.data, cl)
  {
  }

  // ---- adding an entry ----

  /** `n` free slots in a row from slot `i` on. */
  ghost predicate Window(es: seq<Entry>, i: nat, n: nat) {
    i + n <= |es| && forall j :: i <= j < i + n ==> FreeSlot(es[j])
  }

  ghost predicate NoEndBefore(es: seq<Entry>, at: nat) {
    forall j :: 0 <= j < at ==> j < |es| && !IsEnd(es[j])
  }

  ghost predicate NoWindow(es: seq<Entry>, n: nat) {
    forall i: nat :: !Window(es, i, n)
  }

  /** No cluster of the directory has `n` free slots in a row. */
  ghost predicate NoRoom(data: seq<seq<byte>>, cl: seq<nat>, n: nat) {
    InData(data, cl) && forall k :: 0 <= k < |cl| ==> NoWindow(V.EntriesOf(data[cl[k]]), n)
  }

  /** The first run of `total` free slots. */
  method FindRun(es: seq<Entry>, total: nat, ghost last: bool) returns (found: bool, start: nat)
    requires Tidy(es, 0, last) && total >= 1
    ensures found ==> start + total <= |es| && (forall j :: start <= j < start + total ==> FreeSlot(es[j])) && forall j :: 0 <= j < start ==> !IsEnd(es[j])
    ensures if found then Window(es, start, total) else NoWindow(es, total)
  {
    hide Tidy;
    var runLen := 0;
    start := 0;
    for i := 0 to |es|
      invariant runLen < total && (runLen > 0 ==> start + runLen == i && (start == 0 || !FreeSlot(es[start - 1])))
      invariant runLen > 0 ==> forall j :: start <= j < i ==> FreeSlot(es[j])
      invariant runLen == 0 ==> i == 0 || !FreeSlot(es[i - 1])
      invariant forall b: nat :: b + total <= i ==> !Window(es, b, total)
    {
      if FreeSlot(es[i]) {
        if runLen == 0 {
          start := i;
        }
        runLen := runLen + 1;
        if runLen >= total {
          forall j | 0 <= j < start
            ensures !IsEnd(es[j])
          {
            if IsEnd(es[j]) {
              EndsStay(es, 0, j, start - 1, last);
            }
          }
          return true, start;
        }
      } else {
        runLen := 0;
      }
    }
    found := false;
  }

  lemma SlotWritten(es: seq<Entry>, r: seq<byte>, slot: nat, s: seq<Entry>, i: nat)
    requires i < |s| && slot + |s| <= |es| == |r| / 32 && V.EntriesOf(r) == D.Overwrite(es, slot, s[..i])
    ensures V.EntriesOf(Put(r, (slot + i) * 32, s[i])) == D.Overwrite(es, slot, s[..i + 1])
  {
    hide V.EntriesOf, D.Overwrite, Put;
    V.EntryPut(r, slot + i, s[i]);
    V.OverwriteMore(es, slot, s[..i], s[i]);
    assert s[..i] + [s[i]] == s[..i + 1];
  }

  /** Write slots into a cluster's buffer. */
  method WriteSlots(buf: seq<byte>, slot: nat, s: seq<Entry>) returns (r: seq<byte>)
    requires slot + |s| <= |buf| / 32
    ensures |r| == |buf| && V.EntriesOf(r) == D.Overwrite(V.EntriesOf(buf), slot, s)
  {
    hide V.EntriesOf, D.Overwrite, Put;
    r := buf;
    EntriesCounted(buf);
    V.OverwriteNothing(V.EntriesOf(buf), slot);
    for i := 0 to |s|
      invariant |r| == |buf| && V.EntriesOf(r) == D.Overwrite(V.EntriesOf(buf), slot, s[..i])
    {
      SlotWritten(V.EntriesOf(buf), r, slot, s, i);
      r := Put(r, (slot + i) * 32, s[i]);
    }
    assert s[..|s|] == s;
  }

  /** The listing `l'` is `l` with `x` added somewhere. */
  ghost predicate AddedTo(l: seq<Placed>, l': seq<Placed>, x: Placed) {
    exists before, after :: l == before + after && l' == before + [x] + after
  }

  /** The listing `l'` is `l` with `x` replaced by `mid`. */
  ghost predicate ReplacedBy(l: seq<Placed>, l': seq<Placed>, x: Placed, mid: seq<Placed>) {
    exists before, after :: l == before + [x] + after && l' == before + mid + after
  }

  /** An item added to one cluster is added to the directory. */
  lemma AddedInCluster(data: seq<seq<byte>>, cl: seq<nat>, k: nat, b: seq<byte>, l: seq<Item>, r: seq<Item>, x: Item)
    requires DirTidy(data, cl) && k < |cl| && FatChains.Distinct(cl) && Tidy(V.EntriesOf(b), 0, k == |cl| - 1)
    requires List(V.EntriesOf(data[cl[k]]), 0) == l + r && List(V.EntriesOf(b), 0) == l + [x] + r
    ensures DirTidy(data[cl[k] := b], cl) && AddedTo(DirList(data, cl), DirList(data[cl[k] := b], cl), Placed(x, cl[k]))
  {
    hide Tidy, List, DirList;
    DirRewritten(data, cl, k, b);
    PlaceConcat(l, r, cl[k]);
    PlaceConcat(l, [x], cl[k]);
    PlaceConcat(l + [x], r, cl[k]);
    var a, z := DirList(data, cl[..k]) + Place(l, cl[k]), Place(r, cl[k]) + DirList(data, cl[k + 1..]);
    assert DirList(data, cl) == a + z;
    assert Place([x], cl[k]) == [Placed(x, cl[k])];
    assert DirList(data[cl[k] := b], cl) == a + [Placed(x, cl[k])] + z;
  }

  /** In cluster `k` of a tidy directory there are `n` free slots from slot `at` on, and no end marker
    * before them.
    */
  ghost predicate PlaceFor(data: seq<seq<byte>>, cl: seq<nat>, k: nat, at: nat, n: nat) {
    && DirTidy(data, cl) && FatChains.Distinct(cl) && k < |cl|
    && Window(V.EntriesOf(data[cl[k]]), at, n) && NoEndBefore(V.EntriesOf(data[cl[k]]), at)
  }

  /** Slots `s` were written to cluster `c`, from slot `at` on. */
  ghost predicate StoredAt(data: seq<seq<byte>>, data': seq<seq<byte>>, c: nat, at: nat, s: seq<Entry>) {
    && c < |data| == |data'| && (forall d :: 0 <= d < |data| && d != c ==> data'[d] == data[d])
    && at + |s| <= |V.EntriesOf(data[c])| && V.EntriesOf(data'[c]) == D.Overwrite(V.EntriesOf(data[c]), at, s)
  }

  /** Slots of a new entry add it to the listing. */
  lemma EntryStored(data: seq<seq<byte>>, data': seq<seq<byte>>, cl: seq<nat>, k: nat, at: nat, s: seq<Entry>)
    requires PlaceFor(data, cl, k, at, |s|) && StoredAt(data, data', cl[k], at, s) && NewSlots(s)
    ensures DirTidy(data', cl) && AddedTo(DirList(data, cl), DirList(data', cl), Placed(NewItem(s, at), cl[k]))
  {
    hide Tidy, List, DirList, AddedTo, NewItem, V.EntriesOf, D.Overwrite, StepOk;
    var before, after := SlotsInserted(V.EntriesOf(data[cl[k]]), at, s, k == |cl| - 1);
    AddedInCluster(data, cl, k, data'[cl[k]], before, after, NewItem(s, at));
    assert data' == data[cl[k] := data'[cl[k]]];
  }

  /** A slot that looks deleted changes no listing. */
  lemma EntryHidden(data: seq<seq<byte>>, data': seq<seq<byte>>, cl: seq<nat>, k: nat, at: nat, s: seq<Entry>)
    requires PlaceFor(data, cl, k, at, |s|) && StoredAt(data, data', cl[k], at, s) && HiddenSlot(s)
    ensures DirTidy(data', cl) && DirList(data', cl) == DirList(data, cl)
  {
    hide Tidy, List, DirList, V.EntriesOf;
    var es := V.EntriesOf(data[cl[k]]);
    SingleSlotListed(es, at, s[0], k == |cl| - 1);
    assert D.Overwrite(es, at, s) == es[at := s[0]];
    DirRewritten(data, cl, k, data'[cl[k]]);
    assert data' == data[cl[k] := data'[cl[k]]];
  }

  /** Long-name slots before a slot that looks deleted leave the directory untidy. */
  lemma EntryTorn(data: seq<seq<byte>>, data': seq<seq<byte>>, cl: seq<nat>, k: nat, at: nat, s: seq<Entry>)
    requires PlaceFor(data, cl, k, at, |s|) && StoredAt(data, data', cl[k], at, s) && TornSlots(s)
    ensures !DirTidy(data', cl)
  {
    hide Tidy, V.EntriesOf, D.Overwrite;
    SlotsTear(V.EntriesOf(data[cl[k]]), at, s, k == |cl| - 1);
  }

  /** Where slots went: `data1` is the data before they were written to cluster `k`, with a patched and
    * a zeroed cluster if the directory had to grow.
    */
  ghost predicate Went(data0: seq<seq<byte>>, data: seq<seq<byte>>, cl: seq<nat>, cl': seq<nat>, s: seq<Entry>, data1: seq<seq<byte>>, k: nat, at: nat) {
    && PlaceFor(data1, cl', k, at, |s|) && StoredAt(data1, data, cl'[k], at, s)
    && InData(data0, cl) && DirList(data1, cl') == DirList(data0, cl)
  }

  /** Write slots into a run of free ones in one cluster. */
  method AddInCluster(v: Fat32, dirCluster: nat, c: nat, buf: seq<byte>, start: nat, s: seq<Entry>, ghost cl: seq<nat>, ghost k: nat)
    requires DirOk(v, dirCluster, cl) && InData(v.store.data, cl) && k < |cl| && c == cl[k] && c < |v.store.data| && buf == v.store.data[c]
    requires Window(V.EntriesOf(buf), start, |s|) && NoEndBefore(V.EntriesOf(buf), start)
    modifies v.store
    ensures v.Valid() && v.Links() == old(v.Links()) && DataKept(old(v.store.data), v.store.data, cl)
    ensures Went(old(v.store.data), v.store.data, cl, cl, s, old(v.store.data), k, start)
  {
    hide LinksOf, Chain, DirTidy, DirList, D.Overwrite, V.EntriesOf, FreeSlot, NoEndBefore;
    DirCluster(v, dirCluster, cl, k);
    DirChain(v, dirCluster, cl);
    EntriesCounted(buf);
    var out := WriteSlots(buf, start, s);
    var _ := v.store.WriteCluster(c, out);
  }

  /** Clusters outside `cl` hold what they did. */
  ghost predicate DataKept(data: seq<seq<byte>>, data': seq<seq<byte>>, cl: seq<nat>) {
    |data'| == |data| && forall c :: 0 <= c < |data| && c !in cl ==> data'[c] == data[c]
  }

  /** Turn the end markers of a cluster's buffer into deleted slots. */
  method PatchEnds(buf: seq<byte>) returns (out: seq<byte>, patched: bool)
    ensures |out| == |buf| && V.EntriesOf(out) == EndsPatched(V.EntriesOf(buf)) && (!patched ==> out == buf)
  {
    hide Gone;
    out, patched := buf, false;
    var n := |buf| / 32;
    ghost var es := V.EntriesOf(buf);
    hide V.EntriesOf;
    for i := 0 to n
      invariant |out| == |buf| && (!patched ==> out == buf) && |V.EntriesOf(out)| == n == |es|
      invariant forall j :: 0 <= j < n ==> V.EntriesOf(out)[j] == if j < i && IsEnd(es[j]) then Gone(es[j]) else es[j]
    {
      SlotByte(out, i);
      if out[i * 32] == 0 {
        V.EntryPut(out, i, Gone(V.EntriesOf(out)[i]));
        FirstByte(out, i);
        out := out[i * 32 := DELETED];
        patched := true;
      }
    }
    assert V.EntriesOf(out) == EndsPatched(es);
  }

  lemma SlotByte(b: seq<byte>, i: nat)
    requires i < |b| / 32
    ensures i < |V.EntriesOf(b)| && b[i * 32] == V.EntriesOf(b)[i][0]
  {
  }

  /** Marking a slot deleted changes one byte. */
  lemma FirstByte(b: seq<byte>, i: nat)
    requires i < |b| / 32
    ensures b[i * 32 := DELETED] == Put(b, i * 32, Gone(V.EntriesOf(b)[i]))
  {
    var e := V.EntriesOf(b)[i];
    var l: seq<byte>, r := b[i * 32 := DELETED], Put(b, i * 32, Gone(e));
    forall j | 0 <= j < |b|
      ensures l[j] == r[j]
    {
      if i * 32 < j < i * 32 + 32 {
        assert Gone(e)[j - i * 32] == Gone(e)[1..][j - i * 32 - 1] == e[1..][j - i * 32 - 1];
      }
    }
  }

  /** Patching the last cluster changes no listing, and lets another cluster follow. */
  lemma PatchedLast(data: seq<seq<byte>>, cl: seq<nat>, b: seq<byte>)
    requires DirTidy(data, cl) && cl != [] && FatChains.Distinct(cl)
    requires V.EntriesOf(b) == EndsPatched(V.EntriesOf(data[cl[|cl| - 1]]))
    ensures var data' := data[cl[|cl| - 1] := b];
            && DirTidy(data', cl) && DirList(data', cl) == DirList(data, cl)
            && Tidy(V.EntriesOf(b), 0, false)
  {
    hide Tidy, List, DirList;
    var k := |cl| - 1;
    PatchedSame(V.EntriesOf(data[cl[k]]), 0);
    MoreTidy(V.EntriesOf(b), 0);
    DirRewritten(data, cl, k, b);
  }

  lemma {:induction false} MoreTidy(es: seq<Entry>, i: nat)
    requires Tidy(es, i, false)
    ensures Tidy(es, i, true)
    decreases |es| - i
  {
    if i < |es| {
      MoreTidy(es, i + Stride(es[i]));
    }
  }

  /** A cluster appended to a directory whose last cluster has no end marker. */
  lemma DirExtended(data: seq<seq<byte>>, cl: seq<nat>, c: nat)
    requires DirTidy(data, cl) && cl != [] && c < |data| && c !in cl
    requires Tidy(V.EntriesOf(data[cl[|cl| - 1]]), 0, false) && Tidy(V.EntriesOf(data[c]), 0, true)
    ensures DirTidy(data, cl + [c]) && DirList(data, cl + [c]) == DirList(data, cl) + ClusterList(data, c)
  {
    hide Tidy, List;
    var cl' := cl + [c];
    assert cl'[..|cl|] == cl;
    forall k | 0 <= k < |cl'|
      ensures cl'[k] < |data| && Tidy(V.EntriesOf(data[cl'[k]]), 0, k == |cl'| - 1)
    {
      if k < |cl| {
        assert cl'[k] == cl[k];
      }
    }
  }

  /** A zeroed cluster is tidy, lists nothing and has all its slots free. */
  lemma FreshCluster(bpc: nat, n: nat)
    requires 1 <= n <= bpc / 32
    ensures Tidy(V.EntriesOf(ZeroBytes(bpc)), 0, true) && List(V.EntriesOf(ZeroBytes(bpc)), 0) == []
    ensures Window(V.EntriesOf(ZeroBytes(bpc)), 0, n)
  {
    hide Tidy, List;
    var es := V.EntriesOf(ZeroBytes(bpc));
    assert forall i :: 0 <= i < |es| ==> IsEnd(es[i]);
    TidyEnd(es, 0, true);
  }

  /** The first byte of a name's 8.3 entry. */
  function LeadByte(name: seq<byte>): byte
    requires name != []
  {
    if NeedsLfn(name) then Lead(name[..LastDot(name)]) else Upper(name[0])
  }

  /** How a name is listed: as it is, but for its end, when it has long-name entries, else as its 8.3
    * form shows.
    */
  function ListedAs(name: seq<byte>): seq<byte> {
    if NeedsLfn(name) then ShownPart(name) else CString(Decode83(Encode83(name)))
  }

  function SlotsNeeded(name: seq<byte>): nat {
    1 + if NeedsLfn(name) then LfnCount(|name|) else 0
  }

  /** A name as a path can hold it. */
  predicate Storable(name: seq<byte>) {
    1 <= |name| <= NAME_LIMIT && forall i :: 0 <= i < |name| ==> name[i] != 0
  }

  /** A name with more slots than a cluster has. */
  predicate Overlong(name: seq<byte>, bpc: nat) {
    SlotsNeeded(name) > bpc / 32
  }

  /** A name whose only slot looks like a deleted one. */
  predicate Hidden(name: seq<byte>) {
    name != [] && !NeedsLfn(name) && LeadByte(name) == DELETED
  }

  /** A name whose long-name slots are followed by one that looks deleted. */
  predicate Tearing(name: seq<byte>) {
    name != [] && NeedsLfn(name) && LeadByte(name) == DELETED
  }

  lemma ShortLead(name: seq<byte>)
    requires name != [] && !NeedsLfn(name)
    ensures Encode83(name)[0] == Upper(name[0])
  {
    var d := LastDot(name);
    assert name[..Min(d, 8)][0] == name[0];
  }

  lemma LeadNotNul(s: seq<byte>)
    requires forall i :: 0 <= i < |s| ==> s[i] != 0
    ensures Lead(s) != 0
  {
  }

  /** What was added. */
  ghost predicate IsNew(x: Placed, name: seq<byte>, first: nat, size: nat, attr: byte) {
    && x.item.name == ListedAs(name) && x.item.entry[ATTR_AT] == attr
    && FirstCluster(x.item.entry) == first && FileSize(x.item.entry) == size
  }

  /** The slots for a new entry of a directory. */
  method NewEntrySlots(v: Fat32, dirCluster: nat, name: seq<byte>, first: nat, size: nat, attr: byte, ghost cl: seq<nat>)
    returns (s: seq<Entry>)
    requires DirOk(v, dirCluster, cl) && Storable(name) && attr as nat / ATTR_VOLUME % 2 == 0
    requires first < 0x1_0000_0000 && size < 0x1_0000_0000
    modifies v.fat, v.store
    ensures DirOk(v, dirCluster, cl) && v.Links() == old(v.Links()) && v.store.data == old(v.store.data)
    ensures |s| == SlotsNeeded(name) >= 1
    ensures if Hidden(name) then HiddenSlot(s) else if Tearing(name) then TornSlots(s) else NewSlots(s)
    ensures forall a: nat, c: nat :: IsNew(Placed(NewItem(s, a), c), name, first, size, attr)
  {
    hide LinksOf, DirOk, DirList, NeedsLfn, Decode83, Lead, NewSlots, HiddenSlot, TornSlots, NewItem, FirstCluster, FileSize, ShortEntry, Encode83;
    var n83: seq<byte>;
    var useLfn := NeedsLfnScan(name);
    var lfnCount := 0;
    if useLfn {
      n83 := GenerateShortName(v, dirCluster, name, cl);
      LeadNotNul(name[..LastDot(name)]);
      lfnCount := LfnCount(|name|);
    } else {
      DirValid(v, dirCluster, cl);
      n83 := Encode83(name);
      ShortLead(name);
    }
    s := BuildSlots(name, lfnCount, n83, first, size, attr);
    ShortEntryFields(n83, first, size, attr);
    ShortEntryAttr(n83, first, size, attr);
  }

  lemma ShortEntryAttr(n83: seq<byte>, first: nat, size: nat, attr: byte)
    requires |n83| == 11
    ensures ShortEntry(n83, first, size, attr)[ATTR_AT] == attr
  {
  }

  /** As many slots as a cluster has. */
  function FitIn(s: seq<Entry>, bpc: nat): (r: seq<Entry>)
    ensures r <= s && |r| == Min(|s|, bpc / 32)
  {
    s[..Min(|s|, bpc / 32)]
  }

  /** Write slots to the start of a zeroed cluster, in a buffer that is larger than a cluster: those
    * past its end are not stored.
    */
  method FillCluster(v: Fat32, c: nat, s: seq<Entry>)
    requires v.Valid() && 2 <= c < v.total + 2 && v.store.data[c] == ZeroBytes(v.store.bpc) && Slotted(v.store.bpc)
    modifies v.store
    ensures v.Valid() && v.Links() == old(v.Links()) && StoredAt(old(v.store.data), v.store.data, c, 0, FitIn(s, v.store.bpc))
  {
    hide LinksOf, V.EntriesOf, D.Overwrite;
    var read, zero := v.store.ReadCluster(c);
    ghost var bpc := v.store.bpc;
    var work := zero + ZeroBytes(32 * |s|);
    var full := WriteSlots(work, 0, s);
    StoredPart(zero, s, full, bpc);
    var _ := v.store.WriteCluster(c, full[..v.store.bpc]);
  }

  /** The part of the buffer that is stored. */
  lemma StoredPart(zero: seq<byte>, s: seq<Entry>, full: seq<byte>, bpc: nat)
    requires |zero| == bpc && Slotted(bpc) && |full| == bpc + 32 * |s|
    requires |s| <= |V.EntriesOf(zero + ZeroBytes(32 * |s|))| && V.EntriesOf(full) == D.Overwrite(V.EntriesOf(zero + ZeroBytes(32 * |s|)), 0, s)
    ensures |FitIn(s, bpc)| <= |V.EntriesOf(zero)| && V.EntriesOf(full[..bpc]) == D.Overwrite(V.EntriesOf(zero), 0, FitIn(s, bpc))
  {
    hide V.EntriesOf;
    var work := zero + ZeroBytes(32 * |s|);
    EntriesCounted(full[..bpc]);
    EntriesCounted(zero);
    SlotsOfPrefix(full, bpc);
    SlotsOfPrefix(work, bpc);
    assert work[..bpc] == zero;
    var l, r := V.EntriesOf(full[..bpc]), D.Overwrite(V.EntriesOf(zero), 0, FitIn(s, bpc));
    assert |l| == |r| && forall i :: 0 <= i < |l| ==> l[i] == r[i];
  }

  /** The slots of the first bytes of a buffer are its first slots. */
  lemma SlotsOfPrefix(b: seq<byte>, n: nat)
    requires n <= |b| && n % 32 == 0
    ensures n / 32 <= |V.EntriesOf(b)| && V.EntriesOf(b[..n]) == V.EntriesOf(b)[..n / 32]
  {
    forall i | 0 <= i < n / 32
      ensures V.EntriesOf(b[..n])[i] == V.EntriesOf(b)[i]
    {
      assert b[..n][i * 32..i * 32 + 32] == b[i * 32..i * 32 + 32];
    }
  }

  /** The free slots of the directory's clusters are the same. */
  ghost predicate RoomKept(data: seq<seq<byte>>, data': seq<seq<byte>>, cl: seq<nat>) {
    && InData(data, cl) && InData(data', cl)
    && forall n: nat :: NoRoom(data, cl, n) <==> NoRoom(data', cl, n)
  }

  /** Patching end markers keeps every run of free slots. */
  lemma PatchedWindow(es: seq<Entry>, i: nat, n: nat)
    ensures Window(EndsPatched(es), i, n) <==> Window(es, i, n)
  {
    var r := EndsPatched(es);
    assert forall j :: 0 <= j < |es| ==> (FreeSlot(r[j]) <==> FreeSlot(es[j]));
  }

  lemma PatchedRoom(data: seq<seq<byte>>, cl: seq<nat>, b: seq<byte>)
    requires InData(data, cl) && cl != [] && V.EntriesOf(b) == EndsPatched(V.EntriesOf(data[cl[|cl| - 1]]))
    ensures RoomKept(data, data[cl[|cl| - 1] := b], cl)
  {
    hide Window, V.EntriesOf;
    var c := cl[|cl| - 1];
    var data' := data[c := b];
    forall n: nat
      ensures NoRoom(data, cl, n) <==> NoRoom(data', cl, n)
    {
      forall k, i: nat | 0 <= k < |cl|
        ensures Window(V.EntriesOf(data[cl[k]]), i, n) <==> Window(V.EntriesOf(data'[cl[k]]), i, n)
      {
        if cl[k] == c {
          PatchedWindow(V.EntriesOf(data[c]), i, n);
        }
      }
    }
  }

  /** Patch the end markers of a directory's last cluster. */
  method PatchLast(v: Fat32, dirCluster: nat, cluster: nat, buf: seq<byte>, ghost cl: seq<nat>)
    requires DirOk(v, dirCluster, cl) && cluster == cl[|cl| - 1] && cluster < |v.store.data| && buf == v.store.data[cluster]
    modifies v.store
    ensures DirOk(v, dirCluster, cl) && v.Links() == old(v.Links()) && DataKept(old(v.store.data), v.store.data, cl)
    ensures DirList(v.store.data, cl) == old(DirList(v.store.data, cl)) && Tidy(V.EntriesOf(v.store.data[cluster]), 0, false)
    ensures RoomKept(old(v.store.data), v.store.data, cl)
  {
    hide LinksOf, Chain, DirList, Tidy, List, DirTidy, RoomKept, CacheOk, SlotsOk, StampsOk, V.EntriesOf, EndsPatched;
    ghost var data0 := v.store.data;
    DirCluster(v, dirCluster, cl, |cl| - 1);
    var out, patched := PatchEnds(buf);
    PatchedLast(data0, cl, out);
    PatchedRoom(data0, cl, out);
    if patched {
      var _ := v.store.WriteCluster(cluster, out);
    }
    assert v.store.data == data0[cluster := out];
  }

  /** Extend a full directory by a cluster that holds the new slots. The old last cluster's end
    * markers become deleted slots first; that stays so when no cluster is free. `data1` is the data
    * before the slots are written.
    */
  method ExtendAndAdd(v: Fat32, dirCluster: nat, cluster: nat, buf: seq<byte>, s: seq<Entry>, ghost cl: seq<nat>)
    returns (ok: bool, ghost cl': seq<nat>, ghost data1: seq<seq<byte>>)
    requires DirOk(v, dirCluster, cl) && cluster == cl[|cl| - 1] && cluster < |v.store.data| && buf == v.store.data[cluster]
    requires 1 <= |s|
    modifies v`hint, v.fat, v.store
    ensures v.Valid() && Chain(v.Links(), v.total + 2, dirCluster, cl') && cl <= cl' && DataKept(old(v.store.data), v.store.data, cl')
    ensures if ok then Went(old(v.store.data), v.store.data, cl, cl', FitIn(s, v.store.bpc), data1, |cl|, 0)
            else cl' == cl && DirOk(v, dirCluster, cl) && DirList(v.store.data, cl) == old(DirList(v.store.data, cl))
                 && RoomKept(old(v.store.data), v.store.data, cl)
    ensures !ok <==> NoneFree(old(v.Links()), v.total + 2)
    ensures GrownByOne(old(v.Links()), cl, v.Links(), cl')
  {
    hide LinksOf, Chain, DirList, Tidy, List, DirTidy, NoneFree, LinkOne, RoomKept, V.EntriesOf, PlaceFor, D.Overwrite, GrownByOne, CacheOk, SlotsOk, StampsOk;
    ghost var data0, links0, limit := v.store.data, v.Links(), v.total + 2;
    DirCluster(v, dirCluster, cl, |cl| - 1);
    PatchLast(v, dirCluster, cluster, buf, cl);
    data1 := v.store.data;
    ChainNotFree(links0, limit, dirCluster, cl, cluster);
    var newCl := v.AllocCluster(cluster, true);
    cl' := if newCl == 0 then cl else cl + [newCl];
    Grew(links0, cl, newCl, v.Links(), newCl != 0);
    if newCl == 0 {
      return false, cl', data1;
    }
    SomeFree(links0, limit, newCl);
    NewLast(links0, limit, dirCluster, cl, newCl);
    DirAppended(data0, data1, cl, newCl, v.store.bpc, |FitIn(s, v.store.bpc)|);
    data1 := v.store.data;
    FillCluster(v, newCl, s);
    ok := true;
  }

  /** A free cluster linked after a directory's last one. */
  lemma NewLast(links: seq<nat>, limit: nat, first: nat, cl: seq<nat>, c: nat)
    requires Chain(links, limit, first, cl) && cl != [] && 2 <= c < limit && links[c] == FREE
    ensures c !in cl && Chain(LinkOne(links, cl[|cl| - 1], c), limit, first, cl + [c])
  {
    if c in cl {
      ChainNotFree(links, limit, first, cl, c);
    }
    OneMoreLinked(links, limit, first, cl, c);
  }

  /** The directory after its last cluster was patched and a zeroed one linked to it. */
  lemma DirAppended(data0: seq<seq<byte>>, data1: seq<seq<byte>>, cl: seq<nat>, c: nat, bpc: nat, n: nat)
    requires DirTidy(data1, cl) && cl != [] && c < |data1| && c !in cl && FatChains.Distinct(cl) && 1 <= n <= bpc / 32
    requires InData(data0, cl) && DirList(data1, cl) == DirList(data0, cl) && Tidy(V.EntriesOf(data1[cl[|cl| - 1]]), 0, false)
    ensures var data2 := data1[c := ZeroBytes(bpc)];
            PlaceFor(data2, cl + [c], |cl|, 0, n) && DirList(data2, cl + [c]) == DirList(data0, cl)
  {
    hide Tidy, List, DirList, V.EntriesOf;
    var data2 := data1[c := ZeroBytes(bpc)];
    DirSame(data1, data2, cl);
    FreshCluster(bpc, n);
    DirExtended(data2, cl, c);
  }

  /** A cluster has no room for more slots than it has. */
  lemma NoRoomForMore(data: seq<seq<byte>>, cl: seq<nat>, bpc: nat, n: nat)
    requires InData(data, cl) && n > bpc / 32 && forall k :: 0 <= k < |cl| ==> |data[cl[k]]| == bpc
    ensures NoRoom(data, cl, n)
  {
    forall k | 0 <= k < |cl|
      ensures |V.EntriesOf(data[cl[k]])| == bpc / 32
    {
      EntriesCounted(data[cl[k]]);
    }
  }

  /** Long-name slots that fill a cluster without their own slot leave the directory untidy, and list
    * nothing.
    */
  lemma EntryCut(data: seq<seq<byte>>, data': seq<seq<byte>>, cl: seq<nat>, k: nat, at: nat, s: seq<Entry>)
    requires PlaceFor(data, cl, k, at, |s|) && StoredAt(data, data', cl[k], at, s) && CutSlots(s) && |s| == |V.EntriesOf(data'[cl[k]])|
    ensures !DirTidy(data', cl) && InData(data', cl) && DirList(data', cl) == DirList(data, cl)
  {
    hide Tidy, List, DirList, V.EntriesOf, CutSlots;
    var es := V.EntriesOf(data[cl[k]]);
    assert |D.Overwrite(es, at, s)| == |es| && at == 0 && D.Overwrite(es, 0, s) == s;
    SlotsCut(s, k == |cl| - 1);
    FreeSkipped(es, 0, |es|, k == |cl| - 1);
    TidyEnd(es, |es|, true);
    DirSplit(data, cl, k);
    DirSplit(data', cl, k);
    DirSame(data, data', cl[..k]);
    DirSame(data, data', cl[k + 1..]);
  }

  lemma HasRoom(data: seq<seq<byte>>, cl: seq<nat>, k: nat, i: nat, n: nat)
    requires InData(data, cl) && k < |cl| && Window(V.EntriesOf(data[cl[k]]), i, n)
    ensures !NoRoom(data, cl, n)
  {
  }

  lemma SomeFree(links: seq<nat>, limit: nat, c: nat)
    ensures 2 <= c < limit && c < |links| && links[c] == FREE ==> !NoneFree(links, limit)
  {
  }

  /** The link of the `k`-th cluster of a directory. */
  method NextOf(v: Fat32, dirCluster: nat, cluster: nat, ghost cl: seq<nat>, ghost k: nat) returns (next: nat)
    requires DirOk(v, dirCluster, cl) && k < |cl| && cluster == cl[k]
    modifies v.fat
    ensures DirOk(v, dirCluster, cl) && v.Links() == old(v.Links())
    ensures if k + 1 < |cl| then next == cl[k + 1] && !IsEoc(next) else IsEoc(next)
  {
    hide LinksOf, Chain, DirTidy;
    next := F.NeighbourAt(v, cluster, dirCluster, cl, k);
    NextIsLast(v, dirCluster, cl, k);
  }

  /** The first run of `n` free slots inside one cluster of a directory, or its last cluster. */
  method FindPlace(v: Fat32, dirCluster: nat, n: nat, ghost cl: seq<nat>) returns (found: bool, cluster: nat, start: nat, buf: seq<byte>, ghost k: nat)
    requires DirOk(v, dirCluster, cl) && v.Valid() && InData(v.store.data, cl) && n >= 1
    modifies v.fat, v.store
    ensures DirOk(v, dirCluster, cl) && v.Valid() && v.Links() == old(v.Links()) && v.store.data == old(v.store.data)
    ensures InData(v.store.data, cl) && k < |cl| && cluster == cl[k] < |v.store.data| && buf == v.store.data[cluster]
    ensures found ==> Window(V.EntriesOf(buf), start, n) && NoEndBefore(V.EntriesOf(buf), start)
    ensures !found ==> k == |cl| - 1 && NoRoom(v.store.data, cl, n)
  {
    hide LinksOf, Chain, DirTidy, List, DirList, NoWindow, Tidy;
    ghost var data, links := v.store.data, v.Links();
    cluster, k := dirCluster, 0;
    DirCluster(v, dirCluster, cl, 0);
    while true
      invariant DirOk(v, dirCluster, cl) && v.Valid() && v.Links() == links && v.store.data == data && InData(data, cl)
      invariant k < |cl| && cluster == cl[k] && forall i :: 0 <= i < k ==> NoWindow(V.EntriesOf(data[cl[i]]), n)
      decreases |cl| - k
    {
      DirCluster(v, dirCluster, cl, k);
      var read, b := v.store.ReadCluster(cluster);
      buf := b;
      found, start := FindRun(V.EntriesOf(buf), n, k == |cl| - 1);
      if found {
        return;
      }
      var next := NextOf(v, dirCluster, cluster, cl, k);
      if IsEoc(next) {
        return;
      }
      cluster := next;
      k := k + 1;
    }
  }

  /** Write slots into the first run of free slots that is long enough inside one cluster, or into a
    * new cluster at the end.
    */
  method AddSlots(v: Fat32, dirCluster: nat, s: seq<Entry>, ghost cl: seq<nat>)
    returns (ok: bool, ghost cl': seq<nat>, ghost data1: seq<seq<byte>>, ghost k: nat, ghost at: nat)
    requires DirOk(v, dirCluster, cl) && v.Valid() && InData(v.store.data, cl) && 1 <= |s|
    modifies v`hint, v.fat, v.store
    ensures v.Valid() && Chain(v.Links(), v.total + 2, dirCluster, cl') && cl <= cl' && cl != [] && Slotted(v.store.bpc)
    ensures DataKept(old(v.store.data), v.store.data, cl')
    ensures if ok then Went(old(v.store.data), v.store.data, cl, cl', FitIn(s, v.store.bpc), data1, k, at)
            else cl' == cl && DirOk(v, dirCluster, cl) && DirList(v.store.data, cl) == old(DirList(v.store.data, cl))
                 && RoomKept(old(v.store.data), v.store.data, cl)
    ensures !ok <==> NoRoom(old(v.store.data), cl, |s|) && NoneFree(old(v.Links()), v.total + 2)
    ensures GrownByOne(old(v.Links()), cl, v.Links(), cl')
  {
    hide LinksOf, DirOk, DirList, NoneFree, NoRoom, RoomKept, GrownByOne, Went, DirTidy, InData, Slotted, StampsOk, SlotsOk, CacheOk, V.EntriesOf, Chain, DataKept, Window, NoEndBefore;
    ghost var data, links := v.store.data, v.Links();
    var found, cluster, start, buf;
    DirChain(v, dirCluster, cl);
    found, cluster, start, buf, k := FindPlace(v, dirCluster, |s|, cl);
    if found {
      data1, at := data, start;
      HasRoom(data, cl, k, start, |s|);
      WindowFits(v, dirCluster, cl, k, buf, start, s);
      AddInCluster(v, dirCluster, cluster, buf, start, s, cl, k);
      NotGrown(links, cl);
      return true, cl, data1, k, at;
    }
    ok, cl', data1 := ExtendAndAdd(v, dirCluster, cluster, buf, s, cl);
    k, at := |cl|, 0;
  }

  lemma WindowFits(v: Fat32, dirCluster: nat, cl: seq<nat>, k: nat, buf: seq<byte>, start: nat, s: seq<Entry>)
    requires DirOk(v, dirCluster, cl) && k < |cl| && cl[k] < |v.store.data| && buf == v.store.data[cl[k]] && Window(V.EntriesOf(buf), start, |s|)
    ensures FitIn(s, v.store.bpc) == s
  {
    hide V.EntriesOf, DirTidy, Chain, LinksOf;
    DirCluster(v, dirCluster, cl, k);
    EntriesCounted(buf);
  }

  /** The directory has the clusters it had, or one more that was free. */
  ghost predicate GrownByOne(links: seq<nat>, cl: seq<nat>, links': seq<nat>, cl': seq<nat>) {
    if cl' == cl then links' == links
    else exists c: nat :: cl != [] && cl' == cl + [c] && c < |links| && links[c] == FREE && cl[|cl| - 1] < |links| && links' == LinkOne(links, cl[|cl| - 1], c)
  }

  lemma NotGrown(links: seq<nat>, cl: seq<nat>)
    ensures GrownByOne(links, cl, links, cl)
  {
  }

  lemma Grew(links: seq<nat>, cl: seq<nat>, c: nat, links': seq<nat>, ok: bool)
    requires cl != [] && if ok then c < |links| && links[c] == FREE && cl[|cl| - 1] < |links| && links' == LinkOne(links, cl[|cl| - 1], c) else links' == links
    ensures GrownByOne(links, cl, links', if ok then cl + [c] else cl)
  {
    hide LinkOne;
  }

  /** The listing after slots for `name` were written: a new item, or nothing if they look deleted. */
  ghost predicate NowLists(data0: seq<seq<byte>>, cl: seq<nat>, data: seq<seq<byte>>, cl': seq<nat>, x: Placed, name: seq<byte>, first: nat, size: nat, attr: byte) {
    && InData(data0, cl) && InData(data, cl')
    && if Hidden(name) then DirList(data, cl') == DirList(data0, cl)
       else AddedTo(DirList(data0, cl), DirList(data, cl'), x) && IsNew(x, name, first, size, attr)
  }

  /** Add an entry. Afterwards the directory is tidy exactly when the name has no more slots than a
    * cluster and its long-name slots are not followed by one that looks deleted. Success is reported
    * with nothing listed when the slots do not fit, or when the only one looks deleted.
    */
  method AddEntry(v: Fat32, dirCluster: nat, name: seq<byte>, first: nat, size: nat, attr: byte, ghost cl: seq<nat>)
    returns (ok: bool, ghost cl': seq<nat>, ghost x: Placed)
    requires DirOk(v, dirCluster, cl) && Storable(name) && attr as nat / ATTR_VOLUME % 2 == 0
    requires first < 0x1_0000_0000 && size < 0x1_0000_0000
    modifies v`hint, v.fat, v.store
    ensures v.Valid() && Chain(v.Links(), v.total + 2, dirCluster, cl') && cl <= cl' && DataKept(old(v.store.data), v.store.data, cl')
    ensures DirOk(v, dirCluster, cl') <==> !(ok && (Overlong(name, v.store.bpc) || Tearing(name)))
    ensures ok && Overlong(name, v.store.bpc) ==> InData(v.store.data, cl') && DirList(v.store.data, cl') == old(DirList(v.store.data, cl))
    ensures ok && !Overlong(name, v.store.bpc) && !Tearing(name) ==> NowLists(old(v.store.data), cl, v.store.data, cl', x, name, first, size, attr)
    ensures !ok ==> cl' == cl && DirList(v.store.data, cl) == old(DirList(v.store.data, cl)) && RoomKept(old(v.store.data), v.store.data, cl)
    ensures !ok <==> NoRoom(old(v.store.data), cl, SlotsNeeded(name)) && NoneFree(old(v.Links()), v.total + 2)
    ensures Overlong(name, v.store.bpc) ==> (!ok <==> NoneFree(old(v.Links()), v.total + 2))
    ensures GrownByOne(old(v.Links()), cl, v.Links(), cl')
  {
    hide LinksOf, DirList, NewSlots, NoneFree, Storable, AddedTo, IsNew, NewItem, NoRoom, RoomKept, DataKept, GrownByOne, Chain, DirTidy, Hidden, Tearing, HiddenSlot, TornSlots;
    DirValid(v, dirCluster, cl);
    OverlongRoom(v, dirCluster, cl, name);
    var s := NewEntrySlots(v, dirCluster, name, first, size, attr, cl);
    DirValid(v, dirCluster, cl);
    ghost var data1, k, at;
    ghost var data := v.store.data;
    ok, cl', data1, k, at := AddSlots(v, dirCluster, s, cl);
    x := Placed(NewItem(s, at), if ok then cl'[k] else 0);
    if ok {
      FitsWhole(s, v.store.bpc);
      if Overlong(name, v.store.bpc) {
        CutWhenOverlong(name, s, v.store.bpc);
        SlotsOfCluster(v, cl'[k]);
        EntryCut(data1, v.store.data, cl', k, at, FitIn(s, v.store.bpc));
      } else if Hidden(name) {
        HiddenIsNotTearing(name);
        EntryHidden(data1, v.store.data, cl', k, at, s);
        DirValid(v, dirCluster, cl');
      } else if Tearing(name) {
        EntryTorn(data1, v.store.data, cl', k, at, s);
      } else {
        EntryStored(data1, v.store.data, cl', k, at, s);
        DirValid(v, dirCluster, cl');
      }
    }
  }

  lemma OverlongRoom(v: Fat32, dirCluster: nat, cl: seq<nat>, name: seq<byte>)
    requires DirOk(v, dirCluster, cl) && InData(v.store.data, cl)
    ensures Overlong(name, v.store.bpc) ==> NoRoom(v.store.data, cl, SlotsNeeded(name))
  {
    hide LinksOf, Chain, DirTidy, NoRoom, SlotsNeeded;
    if Overlong(name, v.store.bpc) {
      forall k | 0 <= k < |cl|
        ensures |v.store.data[cl[k]]| == v.store.bpc
      {
        DirCluster(v, dirCluster, cl, k);
      }
      NoRoomForMore(v.store.data, cl, v.store.bpc, SlotsNeeded(name));
    }
  }

  lemma SlotsOfCluster(v: Fat32, c: nat)
    requires v.Valid() && c < |v.store.data|
    ensures |V.EntriesOf(v.store.data[c])| == v.store.bpc / 32
  {
    EntriesCounted(v.store.data[c]);
  }

  lemma FitsWhole(s: seq<Entry>, bpc: nat)
    ensures |s| <= bpc / 32 ==> FitIn(s, bpc) == s
  {
  }

  /** The slots of an overlong name that are stored. */
  lemma CutWhenOverlong(name: seq<byte>, s: seq<Entry>, bpc: nat)
    requires Slotted(bpc) && Overlong(name, bpc) && |s| == SlotsNeeded(name) && (NewSlots(s) || TornSlots(s) || HiddenSlot(s))
    ensures CutSlots(FitIn(s, bpc)) && |FitIn(s, bpc)| == bpc / 32
  {
  }

  lemma HiddenIsNotTearing(name: seq<byte>)
    requires Hidden(name)
    ensures !Tearing(name)
  {
  }

  // ---- removing and updating ----

  /** The deletions of a backward walk, from slot `low` up to `at`, are those of the entry's own
    * slots: whatever it passes before them was deleted already.
    */
  lemma WalkedBack(es: seq<Entry>, r: seq<Entry>, x: Item, a: nat, low: nat, last: bool)
    requires Tidy(es, 0, last) && Reaches(es, 0, a) && low <= a <= x.at < |es| && r == MarkedGone(es, low, x.at + 1)
    requires forall j :: low <= j < a ==> IsLfn(es[j])
    ensures r == MarkedGone(es, a, x.at + 1)
  {
    hide Tidy, Gone;
    StrayRunIsGone(es, 0, a, low, last);
    forall j | low <= j < a
      ensures r[j] == es[j]
    {
      GoneTwice(es[j]);
    }
  }

  /** Between the start of an entry and its 8.3 slot there are long-name slots only. */
  lemma OwnSlots(es: seq<Entry>, x: Item, a: nat)
    requires a <= x.at < |es| && StepOk(es, a) && !FreeSlot(es[a]) && a + Stride(es[a]) == x.at + 1
    ensures forall j :: a <= j < x.at ==> IsLfn(es[j]) && !FreeSlot(es[j])
  {
    hide LongName;
    var run := es[a..x.at];
    forall j | a <= j < x.at
      ensures IsLfn(es[j]) && !FreeSlot(es[j])
    {
      assert run[j - a] == es[j];
    }
  }

  /** Mark a slot of a buffer deleted. */
  method MarkSlot(buf: seq<byte>, i: nat) returns (r: seq<byte>)
    requires i < |buf| / 32
    ensures |r| == |buf| && V.EntriesOf(r) == V.EntriesOf(buf)[i := Gone(V.EntriesOf(buf)[i])]
  {
    V.EntryPut(buf, i, Gone(V.EntriesOf(buf)[i]));
    FirstByte(buf, i);
    r := buf[i * 32 := DELETED];
  }

  lemma SlotAttr(b: seq<byte>, i: nat)
    requires i < |b| / 32
    ensures i < |V.EntriesOf(b)| && b[i * 32 + ATTR_AT] == V.EntriesOf(b)[i][ATTR_AT]
  {
  }

  /** Mark slot `at` deleted, then backwards while long-name slots precede. */
  method WalkBack(buf: seq<byte>, at: nat) returns (r: seq<byte>, ghost low: nat)
    requires at < |buf| / 32
    ensures |r| == |buf| && low <= at < |V.EntriesOf(buf)| == |buf| / 32
    ensures V.EntriesOf(r) == MarkedGone(V.EntriesOf(buf), low, at + 1)
    ensures forall j :: low <= j < at ==> IsLfn(V.EntriesOf(buf)[j])
    ensures low > 0 ==> !IsLfn(V.EntriesOf(buf)[low - 1])
  {
    hide V.EntriesOf, MarkedGone, IsLfn, Gone;
    ghost var es := V.EntriesOf(buf);
    EntriesCounted(buf);
    r := MarkSlot(buf, at);
    low := at;
    FirstMarked(es, at);
    if at > 0 {
      var i := at - 1;
      while true
        invariant 0 <= i < low <= at && low == i + 1 && |r| == |buf| && V.EntriesOf(r) == MarkedGone(es, low, at + 1)
        invariant forall j :: low <= j < at ==> IsLfn(es[j])
        decreases i
      {
        SlotAttr(r, i);
        MarkedMore(es, low, at + 1);
        if r[i * 32 + ATTR_AT] != ATTR_LFN {
          NotLfn(es[i]);
          break;
        }
        NotLfn(es[i]);
        r := MarkSlot(r, i);
        low := i;
        if i == 0 {
          break;
        }
        i := i - 1;
      }
    }
  }

  lemma NotLfn(e: Entry)
    ensures IsLfn(e) <==> e[ATTR_AT] == ATTR_LFN
  {
  }

  lemma FirstMarked(es: seq<Entry>, at: nat)
    requires at < |es|
    ensures es[at := Gone(es[at])] == MarkedGone(es, at, at + 1)
  {
    hide Gone;
  }

  /** One slot more marked, before those that are. */
  lemma MarkedMore(es: seq<Entry>, low: nat, b: nat)
    requires 0 < low <= b <= |es|
    ensures MarkedGone(es, low, b)[low - 1] == es[low - 1]
    ensures MarkedGone(es, low, b)[low - 1 := Gone(es[low - 1])] == MarkedGone(es, low - 1, b)
  {
    hide Gone;
  }

  /** What the backward walk from a listed entry's slot leaves. */
  lemma EntryMarked(es: seq<Entry>, r: seq<Entry>, x: Item, low: nat, last: bool) returns (before: seq<Item>, after: seq<Item>)
    requires Tidy(es, 0, last) && x in List(es, 0) && low <= x.at < |es|
    requires forall j :: low <= j < x.at ==> IsLfn(es[j])
    requires low > 0 ==> !IsLfn(es[low - 1])
    requires r == MarkedGone(es, low, x.at + 1)
    ensures Tidy(r, 0, last) && List(es, 0) == before + [x] + after && List(r, 0) == before + [] + after
    ensures r == Unlisted(es, x.at)
  {
    hide Tidy, List, Gone, StepOk, IsLfn, Reaches, Window, ItemAt, OwnStart;
    var a := ItemReached(es, 0, x, last);
    OwnSlots(es, x, a);
    assert low <= a;
    WalkedBack(es, r, x, a, low, last);
    OwnStartIs(es, a, x.at, last);
    before, after := SlotsRemoved(es, x, a, last);
    assert before + after == before + [] + after;
  }

  /** Mark a listed entry's slots deleted. */
  method MarkEntry(buf: seq<byte>, at: nat, ghost x: Item, ghost last: bool)
    returns (r: seq<byte>, ghost before: seq<Item>, ghost after: seq<Item>)
    requires Tidy(V.EntriesOf(buf), 0, last) && x in List(V.EntriesOf(buf), 0) && at == x.at < |buf| / 32
    ensures |r| == |buf| && Tidy(V.EntriesOf(r), 0, last) && at < |V.EntriesOf(buf)| && V.EntriesOf(r) == Unlisted(V.EntriesOf(buf), at)
    ensures List(V.EntriesOf(buf), 0) == before + [x] + after && List(V.EntriesOf(r), 0) == before + [] + after
  {
    hide Tidy, List, V.EntriesOf, Gone, IsLfn, Window;
    ghost var low;
    r, low := WalkBack(buf, at);
    before, after := EntryMarked(V.EntriesOf(buf), V.EntriesOf(r), x, low, last);
  }

  lemma EntriesCounted(b: seq<byte>)
    ensures |V.EntriesOf(b)| == |b| / 32
  {
  }

  /** Items of one cluster replaced are replaced in the directory. */
  lemma ReplacedInCluster(data: seq<seq<byte>>, cl: seq<nat>, k: nat, b: seq<byte>, l: seq<Item>, r: seq<Item>, x: Item, mid: seq<Item>)
    requires DirTidy(data, cl) && k < |cl| && FatChains.Distinct(cl) && Tidy(V.EntriesOf(b), 0, k == |cl| - 1)
    requires List(V.EntriesOf(data[cl[k]]), 0) == l + [x] + r && List(V.EntriesOf(b), 0) == l + mid + r
    ensures DirTidy(data[cl[k] := b], cl)
    ensures ReplacedBy(DirList(data, cl), DirList(data[cl[k] := b], cl), Placed(x, cl[k]), Place(mid, cl[k]))
  {
    hide Tidy, List, DirList;
    DirRewritten(data, cl, k, b);
    PlaceConcat(l, mid, cl[k]);
    PlaceConcat(l, [x], cl[k]);
    PlaceConcat(l + [x], r, cl[k]);
    PlaceConcat(l + mid, r, cl[k]);
    var a, z := DirList(data, cl[..k]) + Place(l, cl[k]), Place(r, cl[k]) + DirList(data, cl[k + 1..]);
    assert Place([x], cl[k]) == [Placed(x, cl[k])];
    assert DirList(data, cl) == a + [Placed(x, cl[k])] + z;
    assert DirList(data[cl[k] := b], cl) == a + Place(mid, cl[k]) + z;
  }

  /** A listed item is in one of the directory's clusters. */
  lemma {:induction false} WhereListed(data: seq<seq<byte>>, cl: seq<nat>, x: Placed) returns (k: nat)
    requires InData(data, cl) && x in DirList(data, cl)
    ensures k < |cl| && cl[k] == x.cluster && x.item in List(V.EntriesOf(data[cl[k]]), 0)
  {
    hide List;
    var front := cl[..|cl| - 1];
    if x in DirList(data, front) {
      k := WhereListed(data, front, x);
    } else {
      k := |cl| - 1;
    }
  }

  /** Read the cluster a listed item is in. */
  method ReadListed(v: Fat32, ghost dirCluster: nat, c: nat, ghost cl: seq<nat>, ghost x: Placed) returns (buf: seq<byte>, ghost k: nat)
    requires DirOk(v, dirCluster, cl) && x in DirList(v.store.data, cl) && x.cluster == c
    modifies v.store
    ensures DirOk(v, dirCluster, cl) && v.Valid() && v.Links() == old(v.Links()) && v.store.data == old(v.store.data)
    ensures k < |cl| && cl[k] == c && 2 <= c < v.total + 2 && c < |v.store.data| && buf == v.store.data[c]
    ensures Tidy(V.EntriesOf(buf), 0, k == |cl| - 1) && x.item in List(V.EntriesOf(buf), 0) && x.item.at < |buf| / 32
  {
    hide LinksOf, Chain, DirTidy, DirList, Tidy, List, StepOk, Reaches;
    DirValid(v, dirCluster, cl);
    k := WhereListed(v.store.data, cl, x);
    DirCluster(v, dirCluster, cl, k);
    var read, b := v.store.ReadCluster(c);
    buf := b;
    ghost var a := ItemReached(V.EntriesOf(buf), 0, x.item, k == |cl| - 1);
  }

  /** Write back a cluster in which one item was replaced. */
  method StoreReplaced(v: Fat32, ghost dirCluster: nat, c: nat, b: seq<byte>, ghost cl: seq<nat>, ghost k: nat, ghost l: seq<Item>, ghost r: seq<Item>,
                       ghost x: Item, ghost mid: seq<Item>)
    requires DirOk(v, dirCluster, cl) && k < |cl| && c == cl[k] && c < |v.store.data| && |b| == |v.store.data[c]|
    requires Tidy(V.EntriesOf(b), 0, k == |cl| - 1)
    requires List(V.EntriesOf(v.store.data[c]), 0) == l + [x] + r && List(V.EntriesOf(b), 0) == l + mid + r
    modifies v.store
    ensures DirOk(v, dirCluster, cl) && v.Links() == old(v.Links()) && DataKept(old(v.store.data), v.store.data, cl)
    ensures v.store.data == old(v.store.data)[c := b]
    ensures ReplacedBy(old(DirList(v.store.data, cl)), DirList(v.store.data, cl), Placed(x, c), Place(mid, c))
  {
    hide LinksOf, Chain, DirTidy, DirList, Tidy, List, ReplacedBy, V.EntriesOf;
    DirCluster(v, dirCluster, cl, k);
    ReplacedInCluster(v.store.data, cl, k, b, l, r, x, mid);
    var _ := v.store.WriteCluster(c, b);
  }

  /** The slots of the entry at slot `at` of cluster `c` are deleted; nothing else differs. */
  ghost predicate EntryGone(data: seq<seq<byte>>, data': seq<seq<byte>>, c: nat, at: nat) {
    && |data'| == |data| && c < |data| && at < |V.EntriesOf(data[c])|
    && data' == data[c := data'[c]] && V.EntriesOf(data'[c]) == Unlisted(V.EntriesOf(data[c]), at)
  }

  /** The slots of cluster `d` once the entry at slot `at` of cluster `c` is deleted. */
  ghost function SlotsWithout(data: seq<seq<byte>>, c: nat, at: nat, d: nat): seq<Entry>
    requires d < |data|
  {
    var es := V.EntriesOf(data[d]);
    if d == c && at < |es| then Unlisted(es, at) else es
  }

  /** No cluster of the directory has `n` free slots in a row, even without that entry. */
  ghost predicate NoRoomWithout(data: seq<seq<byte>>, cl: seq<nat>, c: nat, at: nat, n: nat) {
    InData(data, cl) && forall k :: 0 <= k < |cl| ==> NoWindow(SlotsWithout(data, c, at, cl[k]), n)
  }

  lemma RoomWithout(data: seq<seq<byte>>, data': seq<seq<byte>>, cl: seq<nat>, c: nat, at: nat, n: nat)
    requires EntryGone(data, data', c, at) && InData(data, cl)
    ensures NoRoom(data', cl, n) <==> NoRoomWithout(data, cl, c, at, n)
  {
    hide Unlisted, V.EntriesOf, NoWindow;
    forall k | 0 <= k < |cl|
      ensures V.EntriesOf(data'[cl[k]]) == SlotsWithout(data, c, at, cl[k])
    {
    }
  }

  /** The room an entry leaves. */
  lemma OwnRoom(data: seq<seq<byte>>, cl: seq<nat>, k: nat, at: nat)
    requires InData(data, cl) && k < |cl| && at < |V.EntriesOf(data[cl[k]])|
    ensures forall n: nat :: n <= at + 1 - OwnStart(V.EntriesOf(data[cl[k]]), at) ==> !NoRoomWithout(data, cl, cl[k], at, n)
  {
    hide V.EntriesOf;
    var es := V.EntriesOf(data[cl[k]]);
    var a := OwnStart(es, at);
    forall n: nat | n <= at + 1 - a
      ensures !NoRoomWithout(data, cl, cl[k], at, n)
    {
      assert Window(SlotsWithout(data, cl[k], at, cl[k]), a, n);
    }
  }

  /** Remove an entry, given the cluster and slot it was found at. */
  method RemoveEntry(v: Fat32, dirCluster: nat, entryCluster: nat, entryIndex: nat, ghost cl: seq<nat>, ghost x: Placed)
    requires DirOk(v, dirCluster, cl) && x in DirList(v.store.data, cl) && x.cluster == entryCluster && x.item.at == entryIndex
    modifies v.store
    ensures DirOk(v, dirCluster, cl) && v.Links() == old(v.Links()) && DataKept(old(v.store.data), v.store.data, cl)
    ensures ReplacedBy(old(DirList(v.store.data, cl)), DirList(v.store.data, cl), x, [])
    ensures EntryGone(old(v.store.data), v.store.data, entryCluster, entryIndex)
  {
    hide DirOk, DataKept, DirList, Tidy, List, ReplacedBy, V.EntriesOf, LinksOf, Unlisted;
    var buf, k := ReadListed(v, dirCluster, entryCluster, cl, x);
    var out, before, after := MarkEntry(buf, entryIndex, x.item, k == |cl| - 1);
    StoreReplaced(v, dirCluster, entryCluster, out, cl, k, before, after, x.item, []);
    assert Place([], entryCluster) == [];
  }

  const KEEP_CLUSTER: nat := 0xFFFF_FFFF

  /** An 8.3 entry with a new size, and a new first cluster unless told to keep it. */
  function UpdatedEntry(e: Entry, size: nat, first: nat): Entry {
    var s := PutEntry(e, 28, Le32(size));
    if first == KEEP_CLUSTER then s else PutEntry(PutEntry(s, 20, Le16(first / 0x1_0000)), 26, Le16(first % 0x1_0000))
  }

  lemma UpdatedFields(e: Entry, size: nat, first: nat)
    requires size < 0x1_0000_0000 && first < 0x1_0000_0000
    ensures FileSize(UpdatedEntry(e, size, first)) == size
    ensures FirstCluster(UpdatedEntry(e, size, first)) == if first == KEEP_CLUSTER then FirstCluster(e) else first
    ensures UpdatedEntry(e, size, first)[..ATTR_AT + 1] == e[..ATTR_AT + 1]
  {
    hide Rd32, Le32;
    var s := PutEntry(e, 28, Le32(size));
    Rd32Put(e, 28, size);
    if first != KEEP_CLUSTER {
      var hi := PutEntry(s, 20, Le16(first / 0x1_0000));
      var lo := PutEntry(hi, 26, Le16(first % 0x1_0000));
      Rd16Put(s, 20, first / 0x1_0000);
      Rd16Put(hi, 26, first % 0x1_0000);
      assert Rd16(lo, 20) == Rd16(hi, 20);
      Rd32PutElsewhere(s, 20, Le16(first / 0x1_0000), 28);
      Rd32PutElsewhere(hi, 26, Le16(first % 0x1_0000), 28);
    }
  }

  /** Write an entry's new size and first cluster: only that item changes, and its name and
    * attributes stay.
    */
  method UpdateEntry(v: Fat32, entryCluster: nat, entryIndex: nat, size: nat, first: nat, ghost dirCluster: nat, ghost cl: seq<nat>, ghost x: Placed)
    requires DirOk(v, dirCluster, cl) && x in DirList(v.store.data, cl) && x.cluster == entryCluster && x.item.at == entryIndex
    requires size < 0x1_0000_0000 && first < 0x1_0000_0000
    modifies v.store
    ensures DirOk(v, dirCluster, cl) && v.Links() == old(v.Links()) && DataKept(old(v.store.data), v.store.data, cl)
    ensures exists e: Entry ::
              && ReplacedBy(old(DirList(v.store.data, cl)), DirList(v.store.data, cl), x, [Placed(Item(x.item.name, e, entryIndex), entryCluster)])
              && FileSize(e) == size && (FirstCluster(e) == if first == KEEP_CLUSTER then FirstCluster(x.item.entry) else first)
              && e[..ATTR_AT + 1] == x.item.entry[..ATTR_AT + 1]
  {
    hide DirOk, DataKept, DirList, Tidy, List, ReplacedBy, V.EntriesOf, LinksOf, UpdatedEntry, FileSize, FirstCluster, PutEntry, Reaches, StepOk;
    var buf, k := ReadListed(v, dirCluster, entryCluster, cl, x);
    EntriesCounted(buf);
    ghost var es := V.EntriesOf(buf);
    ghost var a := ItemReached(es, 0, x.item, k == |cl| - 1);
    var e := UpdatedEntry(V.EntriesOf(buf)[entryIndex], size, first);
    UpdatedFields(es[entryIndex], size, first);
    ItemSlot(es, a, x.item);
    ghost var before, after := SlotUpdated(es, x.item, e, k == |cl| - 1);
    V.EntryPut(buf, entryIndex, e);
    assert D.Overwrite(es, entryIndex, [e]) == es[entryIndex := e];
    ghost var x' := Item(x.item.name, e, entryIndex);
    StoreReplaced(v, dirCluster, entryCluster, Put(buf, entryIndex * 32, e), cl, k, before, after, x.item, [x']);
    assert Place([x'], entryCluster) == [Placed(x', entryCluster)];
  }
}
