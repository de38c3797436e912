/** A FAT32 directory as a finite map from names, case apart, to what their entries say; and runs
  * of commands on it.
  */
module FatDirMap {
  import opened Arith
  import opened Bytes
  import opened ExfatNames
  import opened ExfatEntrySet
  import opened FatTable
  import opened FatClusters
  import opened FatChains
  import opened FatNames
  import opened FatSlots
  import opened FatDirectory
  import opened FatDirOps
  import V = ExfatDirVolume

  /** What an entry says. */
  datatype Record = Record(name: seq<byte>, attr: byte, first: nat, size: nat)

  function InfoOf(x: Item): Record {
    Record(x.name, x.entry[ATTR_AT], FirstCluster(x.entry), FileSize(x.entry))
  }

  function KeyOf(x: Placed): seq<byte> {
    LowerAll(x.item.name)
  }

  /** No two listed names are the same, case apart. */
  ghost predicate Unique(l: seq<Placed>) {
    forall i, j :: 0 <= i < j < |l| ==> KeyOf(l[i]) != KeyOf(l[j])
  }

  ghost function MapOf(l: seq<Placed>): (m: map<seq<byte>, Record>)
  {
    if l == [] then map[] else MapOf(l[..|l| - 1])[KeyOf(l[|l| - 1]) := InfoOf(l[|l| - 1].item)]
  }

  /** The map has the listed items and nothing else. */
  ghost predicate Lists(l: seq<Placed>, m: map<seq<byte>, Record>) {
    && (forall i :: 0 <= i < |l| ==> KeyOf(l[i]) in m && m[KeyOf(l[i])] == InfoOf(l[i].item))
    && (forall k :: k in m ==> exists i :: 0 <= i < |l| && KeyOf(l[i]) == k)
  }

  lemma {:induction false} MapLists(l: seq<Placed>)
    requires Unique(l)
    ensures Lists(l, MapOf(l))
  {
    hide InfoOf, KeyOf, Lists;
    if l == [] {
      NothingListed();
    } else {
      var front, x := l[..|l| - 1], l[|l| - 1];
      MapLists(front);
      assert l == front + [x];
      OneListed(front, MapOf(front), x);
    }
  }

  lemma NothingListed()
    ensures Lists([], map[])
  {
  }

  lemma OneListed(l: seq<Placed>, m: map<seq<byte>, Record>, x: Placed)
    requires Unique(l + [x]) && Lists(l, m)
    ensures Lists(l + [x], m[KeyOf(x) := InfoOf(x.item)])
  {
    hide InfoOf, KeyOf;
    var l', m' := l + [x], m[KeyOf(x) := InfoOf(x.item)];
    forall i | 0 <= i < |l'|
      ensures KeyOf(l'[i]) in m' && m'[KeyOf(l'[i])] == InfoOf(l'[i].item)
    {
      if i < |l| {
        assert l'[i] == l[i] && KeyOf(l'[i]) != KeyOf(l'[|l|]);
      }
    }
    forall k | k in m'
      ensures exists i :: 0 <= i < |l'| && KeyOf(l'[i]) == k
    {
      if k == KeyOf(x) {
        assert KeyOf(l'[|l|]) == k;
      } else {
        var i :| 0 <= i < |l| && KeyOf(l[i]) == k;
        assert KeyOf(l'[i]) == k;
      }
    }
  }

  lemma ListsOne(l: seq<Placed>, m: map<seq<byte>, Record>)
    requires Unique(l) && Lists(l, m)
    ensures m == MapOf(l)
  {
    hide InfoOf, KeyOf;
    MapLists(l);
    forall k
      ensures k in m <==> k in MapOf(l)
      ensures k in m ==> m[k] == MapOf(l)[k]
    {
      if k in m {
        var i :| 0 <= i < |l| && KeyOf(l[i]) == k;
      }
      if k in MapOf(l) {
        var i :| 0 <= i < |l| && KeyOf(l[i]) == k;
      }
    }
  }

  /** Looking a name up in the listing looks it up in the map. */
  lemma FoundInMap(l: seq<Placed>, name: seq<byte>)
    requires Unique(l)
    ensures match FirstPlaced(l, name)
            case None => LowerAll(name) !in MapOf(l)
            case Some(x) => x in l && KeyOf(x) == LowerAll(name) && LowerAll(name) in MapOf(l) && MapOf(l)[LowerAll(name)] == InfoOf(x.item)
  {
    hide InfoOf, LowerAll, FirstPlaced;
    MapLists(l);
    if LowerAll(name) in MapOf(l) {
      var i :| 0 <= i < |l| && KeyOf(l[i]) == LowerAll(name);
      assert l[i] in l && SameLower(name, l[i].item.name);
    }
  }

  /** A new item under a new name is a new binding. */
  lemma AddedMap(l: seq<Placed>, l': seq<Placed>, x: Placed)
    requires Unique(l) && AddedTo(l, l', x) && KeyOf(x) !in MapOf(l)
    ensures Unique(l') && MapOf(l') == MapOf(l)[KeyOf(x) := InfoOf(x.item)]
  {
    hide InfoOf, KeyOf, MapOf;
    MapLists(l);
    var before, after :| l == before + after && l' == before + [x] + after;
    var m' := MapOf(l)[KeyOf(x) := InfoOf(x.item)];
    var n := |before|;
    assert l'[n] == x;
    forall i | 0 <= i < |l'| && i != n
      ensures l'[i] == l[if i < n then i else i - 1]
      ensures KeyOf(l'[i]) in MapOf(l) && MapOf(l)[KeyOf(l'[i])] == InfoOf(l'[i].item)
    {
      assert KeyOf(l[if i < n then i else i - 1]) in MapOf(l);
    }
    forall i, j | 0 <= i < j < |l'|
      ensures KeyOf(l'[i]) != KeyOf(l'[j])
    {
      if i != n && j != n {
        assert KeyOf(l[if i < n then i else i - 1]) != KeyOf(l[if j < n then j else j - 1]);
      }
    }
    forall k | k in m'
      ensures exists i :: 0 <= i < |l'| && KeyOf(l'[i]) == k
    {
      if k == KeyOf(x) {
        assert l'[n] == x;
      } else {
        var i :| 0 <= i < |l| && KeyOf(l[i]) == k;
        assert l'[if i < n then i else i + 1] == l[i];
      }
    }
    ListsOne(l', m');
  }

  /** A new item under a name already listed: the listing is no map any more. */
  lemma DoubledMap(l: seq<Placed>, l': seq<Placed>, x: Placed)
    requires Unique(l) && AddedTo(l, l', x) && KeyOf(x) in MapOf(l)
    ensures !Unique(l')
  {
    hide InfoOf, KeyOf, MapOf;
    MapLists(l);
    var i :| 0 <= i < |l| && KeyOf(l[i]) == KeyOf(x);
    var before, after :| l == before + after && l' == before + [x] + after;
    var p := |before|;
    assert l'[p] == x && l'[if i < p then i else i + 1] == l[i];
  }

  /** An item taken out is a binding removed. */
  lemma RemovedMap(l: seq<Placed>, l': seq<Placed>, x: Placed)
    requires Unique(l) && ReplacedBy(l, l', x, [])
    ensures Unique(l') && KeyOf(x) in MapOf(l) && MapOf(l') == MapOf(l) - {KeyOf(x)}
  {
    hide InfoOf, KeyOf, MapOf;
    MapLists(l);
    var before, after :| l == before + [x] + after && l' == before + [] + after;
    var n := |before|;
    assert l[n] == x;
    assert l' == l[..n] + l[n + 1..];
    RemovedAt(l, MapOf(l), n);
    ListsOne(l', MapOf(l) - {KeyOf(x)});
  }

  lemma RemovedAt(l: seq<Placed>, m: map<seq<byte>, Record>, n: nat)
    requires Unique(l) && Lists(l, m) && n < |l|
    ensures Unique(l[..n] + l[n + 1..]) && Lists(l[..n] + l[n + 1..], m - {KeyOf(l[n])})
  {
    hide InfoOf, KeyOf;
    var l', m' := l[..n] + l[n + 1..], m - {KeyOf(l[n])};
    forall i | 0 <= i < |l'|
      ensures l'[i] == l[if i < n then i else i + 1] && KeyOf(l'[i]) in m'
    {
      var b := if i < n then i else i + 1;
      assert if b < n then KeyOf(l[b]) != KeyOf(l[n]) else KeyOf(l[n]) != KeyOf(l[b]);
    }
    forall k | k in m'
      ensures exists i :: 0 <= i < |l'| && KeyOf(l'[i]) == k
    {
      var i :| 0 <= i < |l| && KeyOf(l[i]) == k;
      assert l'[if i < n then i else i - 1] == l[i];
    }
  }

  /** An item replaced under its name is a binding changed. */
  lemma ChangedMap(l: seq<Placed>, l': seq<Placed>, x: Placed, x': Placed)
    requires Unique(l) && ReplacedBy(l, l', x, [x']) && KeyOf(x') == KeyOf(x)
    ensures Unique(l') && KeyOf(x) in MapOf(l) && MapOf(l') == MapOf(l)[KeyOf(x) := InfoOf(x'.item)]
  {
    hide InfoOf, KeyOf, MapOf;
    MapLists(l);
    var before, after :| l == before + [x] + after && l' == before + [x'] + after;
    var n := |before|;
    assert l[n] == x && l' == l[n := x'];
    ChangedAt(l, MapOf(l), n, x');
    ListsOne(l', MapOf(l)[KeyOf(x) := InfoOf(x'.item)]);
  }

  lemma ChangedAt(l: seq<Placed>, m: map<seq<byte>, Record>, n: nat, x: Placed)
    requires Unique(l) && Lists(l, m) && n < |l| && KeyOf(x) == KeyOf(l[n])
    ensures Unique(l[n := x]) && Lists(l[n := x], m[KeyOf(x) := InfoOf(x.item)])
  {
    hide InfoOf, KeyOf;
    var l', m' := l[n := x], m[KeyOf(x) := InfoOf(x.item)];
    forall i | 0 <= i < |l'|
      ensures KeyOf(l'[i]) == KeyOf(l[i]) && m'[KeyOf(l'[i])] == InfoOf(l'[i].item)
    {
      if i != n {
        assert KeyOf(l[i]) != KeyOf(l[n]);
      }
    }
    forall k | k in m'
      ensures exists i :: 0 <= i < |l'| && KeyOf(l'[i]) == k
    {
      var i :| 0 <= i < |l| && KeyOf(l[i]) == k;
      assert KeyOf(l'[i]) == k;
    }
  }

  // ---- names that are found again ----

  /** The listing shows the name itself, case apart. */
  predicate Findable(name: seq<byte>) {
    if NeedsLfn(name) then |name| <= SHOWN_MAX else name[|name| - 1] != DOT
  }

  /** A name added is found under itself exactly when its long-name entries show all of it, or it has
    * none and does not end with a dot.
    */
  lemma FoundAgain(name: seq<byte>)
    requires name != [] && forall i :: 0 <= i < |name| ==> name[i] != 0
    ensures SameLower(name, ListedAs(name)) <==> Findable(name)
  {
    hide NeedsLfn, Decode83, Encode83, LowerAll;
    LowerLength(name);
    LowerLength(ListedAs(name));
    if !NeedsLfn(name) {
      ShortNameShown(name);
      var d := Decode83(Encode83(name));
      LowerLength(name);
      Idempotent(name);
      if name[|name| - 1] != DOT {
        LowerNotNul(name);
        NoNul(d);
      } else {
        DottedShort(name);
      }
    }
  }

  lemma Idempotent(s: seq<byte>)
    ensures LowerAll(LowerAll(s)) == LowerAll(s)
  {
  }

  lemma LowerNotNul(s: seq<byte>)
    requires forall i :: 0 <= i < |s| ==> s[i] != 0
    ensures forall i :: 0 <= i < |s| ==> LowerAll(s)[i] != 0
  {
  }

  lemma {:induction false} NoNul(s: seq<byte>)
    requires forall i :: 0 <= i < |s| ==> s[i] != 0
    ensures CString(s) == s
  {
    if s != [] {
      NoNul(s[1..]);
    }
  }

  lemma CStringShorter(s: seq<byte>)
    ensures |CString(s)| <= |s|
  {
  }

  /** The form shown of a name that ends with a dot is shorter than the name. */
  lemma DottedShort(name: seq<byte>)
    requires !NeedsLfn(name) && name != [] && name[|name| - 1] == DOT
    ensures !SameLower(name, CString(Decode83(Encode83(name))))
  {
    hide CountDots, Decode83, Field, LowerAll;
    var d := LastDot(name);
    assert d == |name| - 1;
    var base: seq<byte> := name[..d];
    assert name[..Min(d, 8)] == base && name[d + 1..] == [];
    NotSpecial(name);
    FieldsShown(name, base, []);
    LowerLength(base);
    CStringShorter(Decode83(Encode83(name)));
    LowerLength(CString(Decode83(Encode83(name))));
    LowerLength(name);
  }

  // ---- commands ----

  /** The directory at `first` is well-formed and lists no name twice. */
  ghost predicate Proper(v: Fat32, first: nat, cl: seq<nat>)
    reads v, v.fat, v.store
  {
    DirOk(v, first, cl) && Unique(DirList(v.store.data, cl))
  }

  /** The directory at `first` lists the map `m`. */
  ghost predicate MapDir(v: Fat32, first: nat, cl: seq<nat>, m: map<seq<byte>, Record>)
    reads v, v.fat, v.store
  {
    Proper(v, first, cl) && MapOf(DirList(v.store.data, cl)) == m
  }

  /** Every other chain keeps its links and its data, and stays apart from the directory's. */
  ghost predicate OthersKept(limit: nat, links: seq<nat>, data: seq<seq<byte>>, cl: seq<nat>, links': seq<nat>, data': seq<seq<byte>>, cl': seq<nat>) {
    && |data'| == |data|
    && forall first, other :: Chain(links, limit, first, other) && Elems(other) !! Elems(cl) ==>
         && Chain(links', limit, first, other) && Elems(other) !! Elems(cl')
         && forall i :: 0 <= i < |other| && other[i] < |data| ==> data'[other[i]] == data[other[i]]
  }

  lemma KeptSame(limit: nat, links: seq<nat>, data: seq<seq<byte>>, data': seq<seq<byte>>, cl: seq<nat>)
    requires DataKept(data, data', cl)
    ensures OthersKept(limit, links, data, cl, links, data', cl)
  {
    hide Chain;
    forall first, other | Chain(links, limit, first, other) && Elems(other) !! Elems(cl)
      ensures forall i :: 0 <= i < |other| && other[i] < |data| ==> data'[other[i]] == data[other[i]]
    {
      forall i | 0 <= i < |other| && other[i] < |data|
        ensures data'[other[i]] == data[other[i]]
      {
        assert other[i] in Elems(other);
      }
    }
  }

  lemma KeptLinked(limit: nat, links: seq<nat>, data: seq<seq<byte>>, data': seq<seq<byte>>, first: nat, cl: seq<nat>, c: nat)
    requires Chain(links, limit, first, cl) && cl != [] && c < |links| && links[c] == FREE && DataKept(data, data', cl + [c])
    ensures cl[|cl| - 1] < |links|
    ensures OthersKept(limit, links, data, cl, LinkOne(links, cl[|cl| - 1], c), data', cl + [c])
  {
    hide Chain;
    var last := cl[|cl| - 1];
    ChainNotFree(links, limit, first, cl, last);
    var links' := LinkOne(links, last, c);
    forall f, other | Chain(links, limit, f, other) && Elems(other) !! Elems(cl)
      ensures Chain(links', limit, f, other) && Elems(other) !! Elems(cl + [c])
      ensures forall i :: 0 <= i < |other| && other[i] < |data| ==> data'[other[i]] == data[other[i]]
    {
      if c in other {
        ChainNotFree(links, limit, f, other, c);
      }
      assert last in Elems(cl);
      ChainKept(links, links', limit, f, other, {last, c});
      forall i | 0 <= i < |other| && other[i] < |data|
        ensures data'[other[i]] == data[other[i]]
      {
        assert other[i] in Elems(other);
      }
    }
  }

  lemma KeptTwice(limit: nat, links: seq<nat>, data: seq<seq<byte>>, cl: seq<nat>, links1: seq<nat>, data1: seq<seq<byte>>, cl1: seq<nat>,
                  links2: seq<nat>, data2: seq<seq<byte>>, cl2: seq<nat>)
    requires OthersKept(limit, links, data, cl, links1, data1, cl1) && OthersKept(limit, links1, data1, cl1, links2, data2, cl2)
    ensures OthersKept(limit, links, data, cl, links2, data2, cl2)
  {
    hide Chain;
  }

  datatype DirOp =
    | Make(name: seq<byte>, attr: byte, first: nat, size: nat)
    | Delete(name: seq<byte>)
    | Change(name: seq<byte>, size: nat, first: nat)
    | Move(name: seq<byte>, to: seq<byte>)
    | Look(name: seq<byte>)

  datatype Outcome = Done | Missing | Exists | Full | Lost | Is(record: Record)

  /** What a caller sees to before a command: names are those of a path, and nothing is a volume label. */
  predicate Allowed(op: DirOp) {
    match op
    case Make(name, attr, first, size) => Storable(name) && attr as nat / ATTR_VOLUME % 2 == 0 && first < 0x1_0000_0000 && size < 0x1_0000_0000
    case Change(_, size, first) => first < 0x1_0000_0000 && size < 0x1_0000_0000
    case Move(name, to) => Storable(name) && Storable(to)
    case _ => true
  }

  // ---- storing a name ----

  /** The map after slots for `name` were stored: it is bound under the name it is listed as, unless its
    * slot looks deleted.
    */
  function WithName(m: map<seq<byte>, Record>, name: seq<byte>, attr: byte, first: nat, size: nat): map<seq<byte>, Record> {
    if Hidden(name) then m else m[LowerAll(ListedAs(name)) := Record(ListedAs(name), attr, first, size)]
  }

  /** Storing `name` spoils the directory: it has untidy slots, or the name it is listed as twice. */
  predicate Spoils(m: map<seq<byte>, Record>, name: seq<byte>, bpc: nat) {
    Overlong(name, bpc) || Tearing(name) || (!Hidden(name) && LowerAll(ListedAs(name)) in m)
  }

  /** A name whose form alone does not exclude that. */
  predicate Unfit(name: seq<byte>, bpc: nat) {
    Overlong(name, bpc) || Tearing(name) || !Findable(name)
  }

  /** A fresh name spoils a directory only if it is unfit. */
  lemma SpoilsUnfit(m: map<seq<byte>, Record>, name: seq<byte>, bpc: nat)
    requires name != [] && (forall i :: 0 <= i < |name| ==> name[i] != 0) && LowerAll(name) !in m && Spoils(m, name, bpc)
    ensures Unfit(name, bpc)
  {
    hide NeedsLfn, ListedAs, LowerAll;
    FoundAgain(name);
  }

  /** "A." is listed as "a": beside an "a" it is the second. */
  lemma DotDoubles(r: Record, bpc: nat)
    ensures !NeedsLfn([0x41, DOT]) && LowerAll([0x41, DOT]) !in map[[0x61 as byte] := r] && Spoils(map[[0x61 as byte] := r], [0x41, DOT], bpc)
  {
    hide NeedsLfn, Decode83, Encode83;
    TrailingDotLost();
    var shown: seq<byte> := [0x61];
    NoNul(shown);
    assert ListedAs([0x41, DOT]) == shown && LowerAll(shown) == shown;
    assert LowerAll([0x41, DOT])[1] == DOT;
  }

  /** The 8.3 form of a name that starts with the UTF-8 bytes of U+5B57 looks deleted; followed by a
    * small letter it needs long-name slots, and they stay behind.
    */
  lemma IdeographHidden()
    ensures Hidden([0xE5, 0xAD, 0x97]) && Storable([0xE5, 0xAD, 0x97])
    ensures Tearing([0xE5, 0xAD, 0x97, 0x61]) && Storable([0xE5, 0xAD, 0x97, 0x61])
  {
    var short: seq<byte>, long: seq<byte> := [0xE5, 0xAD, 0x97], [0xE5, 0xAD, 0x97, 0x61];
    NoDots(short);
    assert LastDot(short) == 3;
    assert LastDot(long) == 4 && Special(long[3]);
    assert long[..4] == long && Lead(long) == DELETED;
  }

  /** In 512-byte clusters a name is overlong from 196 bytes on. */
  lemma LongNameOverlong(name: seq<byte>)
    requires NeedsLfn(name) && |name| <= NAME_LIMIT
    ensures Overlong(name, 512) <==> |name| >= 196
  {
    hide NeedsLfn;
  }

  /** Names of more than 260 bytes are listed without their end, so two of them can be listed alike. */
  lemma LongNamesAlike(a: seq<byte>, b: seq<byte>, r: Record, bpc: nat)
    requires |a| > SHOWN_MAX && |b| > SHOWN_MAX && a[..SHOWN_MAX] == b[..SHOWN_MAX] && |a| != |b|
    requires !Hidden(b)
    ensures NeedsLfn(a) && NeedsLfn(b) && ListedAs(a) == ListedAs(b) && LowerAll(b) != LowerAll(ListedAs(a))
    ensures Spoils(map[LowerAll(ListedAs(a)) := r], b, bpc) && LowerAll(b) !in map[LowerAll(ListedAs(a)) := r]
  {
    LowerLength(b);
    LowerLength(ListedAs(a));
  }

  lemma {:induction false} NoDots(s: seq<byte>)
    requires DOT !in s
    ensures CountDots(s) == 0
  {
    if s != [] {
      NoDots(s[..|s| - 1]);
    }
  }

  /** The map after a command with the outcome `out`. */
  function Effect(m: map<seq<byte>, Record>, op: DirOp, out: Outcome): map<seq<byte>, Record> {
    var key := LowerAll(op.name);
    match op
    case Make(name, attr, first, size) => if out.Done? then WithName(m, name, attr, first, size) else m
    case Delete(_) => m - {key}
    case Change(_, size, first) =>
      if key in m then m[key := m[key].(size := size, first := if first == KEEP_CLUSTER then m[key].first else first)] else m
    case Move(name, to) =>
      if key !in m then m
      else if out.Done? then WithName(m - {key}, to, m[key].attr, m[key].first, m[key].size)
      else if out.Full? then WithName(m - {key}, name, m[key].attr, m[key].first, m[key].size)
      else if out.Lost? then m - {key}
      else m
    case Look(_) => m
  }

  /** The command spoiled the directory. */
  predicate Broke(m: map<seq<byte>, Record>, op: DirOp, out: Outcome, bpc: nat) {
    match op
    case Make(name, _, _, _) => out.Done? && Spoils(m, name, bpc)
    case Move(name, to) => (out.Done? && Spoils(m - {LowerAll(name)}, to, bpc)) || (out.Full? && Spoils(m - {LowerAll(name)}, name, bpc))
    case _ => false
  }

  /** The command stored an unfit name. */
  predicate StoredUnfit(op: DirOp, out: Outcome, bpc: nat) {
    match op
    case Make(name, _, _, _) => out.Done? && Unfit(name, bpc)
    case Move(name, to) => (out.Done? && Unfit(to, bpc)) || (out.Full? && Unfit(name, bpc))
    case _ => false
  }

  /** What a command meets: the table, the clusters, and those of the directory. */
  datatype DirState = DirState(links: seq<nat>, data: seq<seq<byte>>, cl: seq<nat>)

  ghost function StateOf(v: Fat32, cl: seq<nat>): DirState
    requires v.Valid()
    reads v, v.fat, v.store
  {
    DirState(v.Links(), v.store.data, cl)
  }

  /** The outcome of a command. A new entry finds no room exactly when no cluster of the directory has
    * enough free slots in a row and no cluster of the volume is free. A move first frees the entry's own
    * slots; if the new name then finds no room the old one is put back, and is lost exactly when it finds
    * none either.
    */
  ghost function Result(s: DirState, limit: nat, op: DirOp): Outcome
    requires InData(s.data, s.cl)
  {
    var l := DirList(s.data, s.cl);
    var key := LowerAll(op.name);
    match op
    case Make(name, _, _, _) =>
      if key in MapOf(l) then Exists
      else if NoRoom(s.data, s.cl, SlotsNeeded(name)) && NoneFree(s.links, limit) then Full else Done
    case Delete(_) => if key in MapOf(l) then Done else Missing
    case Change(_, _, _) => if key in MapOf(l) then Done else Missing
    case Move(name, to) =>
      if FirstPlaced(l, name).None? then Missing
      else if LowerAll(to) in MapOf(l) then Exists
      else
        var x := FirstPlaced(l, name).value;
        if !(NoneFree(s.links, limit) && NoRoomWithout(s.data, s.cl, x.cluster, x.item.at, SlotsNeeded(to))) then Done
        else if NoRoomWithout(s.data, s.cl, x.cluster, x.item.at, SlotsNeeded(name)) then Lost else Full
    case Look(_) => if key in MapOf(l) then Is(MapOf(l)[key]) else Missing
  }

  /** Find a name of a directory that lists a map. */
  method Lookup(v: Fat32, first: nat, name: seq<byte>, ghost cl: seq<nat>, ghost m: map<seq<byte>, Record>) returns (found: Option<Placed>)
    requires MapDir(v, first, cl, m)
    modifies v.fat, v.store
    ensures MapDir(v, first, cl, m) && v.Valid() && v.Links() == old(v.Links()) && v.store.data == old(v.store.data)
    ensures InData(v.store.data, cl) && (found.Some? <==> LowerAll(name) in m) && found == FirstPlaced(DirList(v.store.data, cl), name)
    ensures found.Some? ==> found.value in DirList(v.store.data, cl) && KeyOf(found.value) == LowerAll(name) && m[LowerAll(name)] == InfoOf(found.value.item)
  {
    hide LinksOf, DirOk, DirList, FirstPlaced, Unique, MapOf, LowerAll, InfoOf;
    DirValid(v, first, cl);
    found := FindEntry(v, first, name, cl);
    DirValid(v, first, cl);
    FoundInMap(DirList(v.store.data, cl), name);
  }

  /** What storing a name did to a directory that listed `m`. */
  ghost predicate Named(v: Fat32, first: nat, cl: seq<nat>, m: map<seq<byte>, Record>, name: seq<byte>, attr: byte, fileFirst: nat, size: nat)
    reads v, v.fat, v.store
  {
    && (Proper(v, first, cl) <==> !Spoils(m, name, v.store.bpc))
    && (!Spoils(m, name, v.store.bpc) ==> MapDir(v, first, cl, WithName(m, name, attr, fileFirst, size)))
  }

  /** Add an entry under a name not in the map. */
  method Bind(v: Fat32, first: nat, name: seq<byte>, attr: byte, fileFirst: nat, size: nat, ghost cl: seq<nat>, ghost m: map<seq<byte>, Record>)
    returns (ok: bool, ghost cl': seq<nat>)
    requires MapDir(v, first, cl, m) && Storable(name)
    requires attr as nat / ATTR_VOLUME % 2 == 0 && fileFirst < 0x1_0000_0000 && size < 0x1_0000_0000
    modifies v`hint, v.fat, v.store
    ensures v.Valid() && Chain(v.Links(), v.total + 2, first, cl')
    ensures if ok then Named(v, first, cl', m, name, attr, fileFirst, size) else MapDir(v, first, cl', m)
    ensures OthersKept(v.total + 2, old(v.Links()), old(v.store.data), cl, v.Links(), v.store.data, cl')
    ensures !ok <==> NoRoom(old(v.store.data), cl, SlotsNeeded(name)) && NoneFree(old(v.Links()), v.total + 2)
    ensures !ok ==> cl' == cl && v.Links() == old(v.Links()) && RoomKept(old(v.store.data), v.store.data, cl)
  {
    hide LinksOf, Chain, DirTidy, DirList, Unique, MapOf, LowerAll, Storable, NoRoom, NoneFree, AddedTo, RoomKept, LinkOne, DataKept, ListedAs, OthersKept, FirstCluster, FileSize, DirOk, NowLists, Spoils, WithName, Tearing, Overlong, SlotsOk, StampsOk;
    ghost var x;
    DirValid(v, first, cl);
    ghost var l := DirList(v.store.data, cl);
    ghost var data, links := v.store.data, v.Links();
    DirChain(v, first, cl);
    ok, cl', x := AddEntry(v, first, name, fileFirst, size, attr, cl);
    if ok {
      if Overlong(name, v.store.bpc) || Tearing(name) {
        TearingSpoils(m, name, v.store.bpc);
      } else {
        DirValid(v, first, cl');
        ListsNamed(data, cl, v.store.data, cl', x, name, fileFirst, size, attr, v.store.bpc);
      }
    }
    if cl' == cl {
      KeptSame(v.total + 2, links, data, v.store.data, cl);
    } else {
      KeptLinked(v.total + 2, links, data, v.store.data, first, cl, cl'[|cl|]);
    }
  }

  lemma TearingSpoils(m: map<seq<byte>, Record>, name: seq<byte>, bpc: nat)
    requires Overlong(name, bpc) || Tearing(name)
    ensures Spoils(m, name, bpc)
  {
  }

  /** The listing after a name was stored lists a map unless that spoiled it. */
  lemma ListsNamed(data0: seq<seq<byte>>, cl: seq<nat>, data: seq<seq<byte>>, cl': seq<nat>, x: Placed, name: seq<byte>, first: nat, size: nat, attr: byte,
                   bpc: nat)
    requires NowLists(data0, cl, data, cl', x, name, first, size, attr) && Unique(DirList(data0, cl)) && !Tearing(name) && !Overlong(name, bpc)
    ensures var m := MapOf(DirList(data0, cl));
            && (Unique(DirList(data, cl')) <==> !Spoils(m, name, bpc))
            && (!Spoils(m, name, bpc) ==> MapOf(DirList(data, cl')) == WithName(m, name, attr, first, size))
  {
    hide DirList, MapOf, Unique, AddedTo, Hidden, Tearing, Overlong, LowerAll, ListedAs, FirstCluster, FileSize;
    if !Hidden(name) {
      if KeyOf(x) in MapOf(DirList(data0, cl)) {
        DoubledMap(DirList(data0, cl), DirList(data, cl'), x);
      } else {
        AddedMap(DirList(data0, cl), DirList(data, cl'), x);
      }
    }
  }

  /** Take a found entry out of the map. */
  method Unbind(v: Fat32, first: nat, found: Placed, ghost cl: seq<nat>, ghost m: map<seq<byte>, Record>)
    requires MapDir(v, first, cl, m) && v.Valid() && InData(v.store.data, cl) && found in DirList(v.store.data, cl)
    modifies v.store
    ensures MapDir(v, first, cl, m - {KeyOf(found)}) && v.Valid() && v.Links() == old(v.Links())
    ensures OthersKept(v.total + 2, old(v.Links()), old(v.store.data), cl, v.Links(), v.store.data, cl)
    ensures InData(v.store.data, cl) && EntryGone(old(v.store.data), v.store.data, found.cluster, found.item.at)
  {
    hide LinksOf, DirOk, DirList, Unique, MapOf, KeyOf, EntryGone, ReplacedBy, DataKept, OthersKept;
    ghost var l, links, data := DirList(v.store.data, cl), v.Links(), v.store.data;
    RemoveEntry(v, first, found.cluster, found.item.at, cl, found);
    DirValid(v, first, cl);
    RemovedMap(l, DirList(v.store.data, cl), found);
    KeptSame(v.total + 2, links, data, v.store.data, cl);
  }

  /** Write a found entry's new size and first cluster. */
  method Rebind(v: Fat32, first: nat, found: Placed, size: nat, fileFirst: nat, ghost cl: seq<nat>, ghost m: map<seq<byte>, Record>)
    requires MapDir(v, first, cl, m) && v.Valid() && InData(v.store.data, cl) && found in DirList(v.store.data, cl)
    requires KeyOf(found) in m && m[KeyOf(found)] == InfoOf(found.item) && size < 0x1_0000_0000 && fileFirst < 0x1_0000_0000
    modifies v.store
    ensures v.Valid() && v.Links() == old(v.Links())
    ensures var was := m[KeyOf(found)];
            MapDir(v, first, cl, m[KeyOf(found) := was.(size := size, first := if fileFirst == KEEP_CLUSTER then was.first else fileFirst)])
    ensures OthersKept(v.total + 2, old(v.Links()), old(v.store.data), cl, v.Links(), v.store.data, cl)
    ensures DataKept(old(v.store.data), v.store.data, cl)
  {
    hide LinksOf, DirOk, DirList, Unique, MapOf, LowerAll, ReplacedBy, DataKept, OthersKept, FirstCluster, FileSize;
    ghost var l, links, data := DirList(v.store.data, cl), v.Links(), v.store.data;
    UpdateEntry(v, found.cluster, found.item.at, size, fileFirst, first, cl, found);
    DirValid(v, first, cl);
    ghost var e: Entry :| && ReplacedBy(l, DirList(v.store.data, cl), found, [Placed(Item(found.item.name, e, found.item.at), found.cluster)])
              && FileSize(e) == size && (FirstCluster(e) == if fileFirst == KEEP_CLUSTER then FirstCluster(found.item.entry) else fileFirst)
              && e[..ATTR_AT + 1] == found.item.entry[..ATTR_AT + 1];
    SameAttr(e, found.item.entry);
    ChangedMap(l, DirList(v.store.data, cl), found, Placed(Item(found.item.name, e, found.item.at), found.cluster));
    KeptSame(v.total + 2, links, data, v.store.data, cl);
  }

  lemma SameAttr(e: Entry, f: Entry)
    requires e[..ATTR_AT + 1] == f[..ATTR_AT + 1]
    ensures e[ATTR_AT] == f[ATTR_AT]
  {
    assert e[ATTR_AT] == e[..ATTR_AT + 1][ATTR_AT] && f[ATTR_AT] == f[..ATTR_AT + 1][ATTR_AT];
  }

  /** A listed entry is no volume label. */
  lemma ListedAttr(v: Fat32, first: nat, cl: seq<nat>, x: Placed)
    requires DirOk(v, first, cl) && x in DirList(v.store.data, cl)
    ensures x.item.entry[ATTR_AT] as nat / ATTR_VOLUME % 2 == 0
    ensures FirstCluster(x.item.entry) < 0x1_0000_0000 && FileSize(x.item.entry) < 0x1_0000_0000
  {
    hide Chain, DirList, Tidy, List, DirTidy, LinksOf;
    DirValid(v, first, cl);
    var k := WhereListed(v.store.data, cl, x);
    DirCluster(v, first, cl, k);
    var es := V.EntriesOf(v.store.data[cl[k]]);
    var a := ItemReached(es, 0, x.item, k == |cl| - 1);
    ItemSlot(es, a, x.item);
  }

  lemma RoomSame(data: seq<seq<byte>>, data': seq<seq<byte>>, cl: seq<nat>, n: nat)
    requires RoomKept(data, data', cl)
    ensures NoRoom(data, cl, n) <==> NoRoom(data', cl, n)
  {
  }

  /** Put the entry taken out of the map under the new name, or else back under the old one. */
  method Rehome(v: Fat32, first: nat, name: seq<byte>, to: seq<byte>, attr: byte, fileFirst: nat, size: nat, ghost cl: seq<nat>,
                ghost m: map<seq<byte>, Record>) returns (out: Outcome, ghost cl': seq<nat>)
    requires MapDir(v, first, cl, m) && Storable(name) && Storable(to) && v.Valid()
    requires attr as nat / ATTR_VOLUME % 2 == 0 && fileFirst < 0x1_0000_0000 && size < 0x1_0000_0000
    modifies v`hint, v.fat, v.store
    ensures (out.Done? || out.Full? || out.Lost?) && v.Valid() && Chain(v.Links(), v.total + 2, first, cl')
    ensures match out
            case Done => Named(v, first, cl', m, to, attr, fileFirst, size)
            case Full => Named(v, first, cl', m, name, attr, fileFirst, size)
            case _ => MapDir(v, first, cl', m)
    ensures OthersKept(v.total + 2, old(v.Links()), old(v.store.data), cl, v.Links(), v.store.data, cl')
    ensures !out.Done? <==> NoRoom(old(v.store.data), cl, SlotsNeeded(to)) && NoneFree(old(v.Links()), v.total + 2)
    ensures out.Lost? <==> !out.Done? && NoRoom(old(v.store.data), cl, SlotsNeeded(name))
  {
    hide MapDir, Named, Storable, NoneFree, NoRoom, LowerAll, OthersKept, ListedAs, SlotsNeeded, LinksOf, RoomKept, Chain;
    ghost var links, data, limit := v.Links(), v.store.data, v.total + 2;
    var ok;
    ok, cl' := Bind(v, first, to, attr, fileFirst, size, cl, m);
    if ok {
      return Done, cl';
    }
    ghost var links1, data1 := v.Links(), v.store.data;
    RoomSame(data, data1, cl, SlotsNeeded(name));
    ok, cl' := Bind(v, first, name, attr, fileFirst, size, cl, m);
    KeptTwice(limit, links, data, cl, links1, data1, cl, v.Links(), v.store.data, cl');
    out := if ok then Full else Lost;
  }

  /** What a command left of a directory that listed `m`. */
  ghost predicate Left(v: Fat32, first: nat, cl: seq<nat>, m: map<seq<byte>, Record>, op: DirOp, out: Outcome)
    reads v, v.fat, v.store
  {
    && (Proper(v, first, cl) <==> !Broke(m, op, out, v.store.bpc))
    && (!Broke(m, op, out, v.store.bpc) ==> MapDir(v, first, cl, Effect(m, op, out)))
    && (Broke(m, op, out, v.store.bpc) ==> StoredUnfit(op, out, v.store.bpc))
  }

  /** Move an entry to a new name: taken out, then added again; if the new name finds no room, the
    * old one is put back, unless that finds no room either.
    */
  method MoveName(v: Fat32, first: nat, name: seq<byte>, to: seq<byte>, ghost cl: seq<nat>, ghost m: map<seq<byte>, Record>)
    returns (out: Outcome, ghost cl': seq<nat>)
    requires MapDir(v, first, cl, m) && v.Valid() && InData(v.store.data, cl) && Storable(name) && Storable(to)
    modifies v`hint, v.fat, v.store
    ensures out == Result(old(StateOf(v, cl)), v.total + 2, Move(name, to)) && Left(v, first, cl', m, Move(name, to), out)
    ensures v.Valid() && Chain(v.Links(), v.total + 2, first, cl')
    ensures OthersKept(v.total + 2, old(v.Links()), old(v.store.data), cl, v.Links(), v.store.data, cl')
  {
    hide Storable, NoneFree, NoRoom, LowerAll, OthersKept, ListedAs, SlotsNeeded, FirstCluster, FileSize, DirList, LinksOf, NoRoomWithout, EntryGone, Chain, Spoils, Unfit, WithName, Named;
    hide DirOk, Unique, MapOf;
    ghost var limit, links, data, key := v.total + 2, v.Links(), v.store.data, LowerAll(name);
    cl' := cl;
    KeptUntouched(limit, links, data, cl);
    DirChain(v, first, cl);
    var found := Lookup(v, first, name, cl, m);
    if found.None? {
      out := Missing;
      return;
    }
    var dup := Lookup(v, first, to, cl, m);
    if dup.Some? {
      out := Exists;
      return;
    }
    var e, c, at := found.value.item.entry, found.value.cluster, found.value.item.at;
    ListedAttr(v, first, cl, found.value);
    Unbind(v, first, found.value, cl, m);
    ghost var data1 := v.store.data;
    RoomWithout(data, data1, cl, c, at, SlotsNeeded(to));
    RoomWithout(data, data1, cl, c, at, SlotsNeeded(name));
    out, cl' := Rehome(v, first, name, to, e[ATTR_AT], FirstCluster(e), FileSize(e), cl, m - {key});
    KeptTwice(limit, links, data, cl, links, data1, cl, v.Links(), v.store.data, cl');
    MoveLeft(v, first, cl', m, name, to, out);
  }

  /** A move leaves what storing the one name or the other left. */
  lemma MoveLeft(v: Fat32, first: nat, cl: seq<nat>, m: map<seq<byte>, Record>, name: seq<byte>, to: seq<byte>, out: Outcome)
    requires LowerAll(name) in m && LowerAll(to) !in m && Storable(name) && Storable(to)
    requires out.Done? || out.Full? || out.Lost?
    requires var r, rest := m[LowerAll(name)], m - {LowerAll(name)};
             match out
             case Done => Named(v, first, cl, rest, to, r.attr, r.first, r.size)
             case Full => Named(v, first, cl, rest, name, r.attr, r.first, r.size)
             case _ => MapDir(v, first, cl, rest)
    ensures Left(v, first, cl, m, Move(name, to), out)
  {
    hide DirOk, Unique, MapOf, DirList, LowerAll, Spoils, Unfit, WithName;
    var rest := m - {LowerAll(name)};
    if out.Done? && Spoils(rest, to, v.store.bpc) {
      SpoilsUnfit(rest, to, v.store.bpc);
    }
    if out.Full? && Spoils(rest, name, v.store.bpc) {
      SpoilsUnfit(rest, name, v.store.bpc);
    }
  }

  /** An entry is lost only when both names need more slots than it had. */
  lemma LostIsLonger(v: Fat32, first: nat, cl: seq<nat>, name: seq<byte>, to: seq<byte>)
    requires DirOk(v, first, cl) && InData(v.store.data, cl) && Result(StateOf(v, cl), v.total + 2, Move(name, to)) == Lost
    ensures var x := FirstPlaced(DirList(v.store.data, cl), name).value;
            && x.cluster < |v.store.data| && x.item.at < |V.EntriesOf(v.store.data[x.cluster])|
            && var slots := x.item.at + 1 - OwnStart(V.EntriesOf(v.store.data[x.cluster]), x.item.at);
               SlotsNeeded(name) > slots && SlotsNeeded(to) > slots
  {
    hide Chain, DirList, Tidy, List, DirTidy, LinksOf, NoRoomWithout, SlotsNeeded, OwnStart, StepOk, Reaches;
    var x := FirstPlaced(DirList(v.store.data, cl), name).value;
    var k := WhereListed(v.store.data, cl, x);
    DirCluster(v, first, cl, k);
    var a := ItemReached(V.EntriesOf(v.store.data[cl[k]]), 0, x.item, k == |cl| - 1);
    OwnRoom(v.store.data, cl, k, x.item.at);
  }

  lemma MapDirOk(v: Fat32, first: nat, cl: seq<nat>, m: map<seq<byte>, Record>)
    requires MapDir(v, first, cl, m)
    ensures DirOk(v, first, cl) && v.Valid() && InData(v.store.data, cl)
  {
    DirValid(v, first, cl);
  }

  lemma KeptUntouched(limit: nat, links: seq<nat>, data: seq<seq<byte>>, cl: seq<nat>)
    ensures OthersKept(limit, links, data, cl, links, data, cl)
  {
    hide Chain;
  }

  // ---- runs of commands ----

  /** Carry out one command as the handlers do. */
  method Do(v: Fat32, first: nat, op: DirOp, ghost cl: seq<nat>, ghost m: map<seq<byte>, Record>) returns (out: Outcome, ghost cl': seq<nat>)
    requires MapDir(v, first, cl, m) && v.Valid() && InData(v.store.data, cl) && Allowed(op)
    modifies v`hint, v.fat, v.store
    ensures out == Result(old(StateOf(v, cl)), v.total + 2, op) && Left(v, first, cl', m, op, out)
    ensures v.Valid() && Chain(v.Links(), v.total + 2, first, cl')
    ensures OthersKept(v.total + 2, old(v.Links()), old(v.store.data), cl, v.Links(), v.store.data, cl')
  {
    hide Storable, NoneFree, NoRoom, LowerAll, OthersKept, ListedAs, SlotsNeeded, DirList, LinksOf, NoRoomWithout, EntryGone, Chain, Spoils, Unfit, WithName, Named;
    hide DirOk, Unique, MapOf, FirstPlaced;
    ghost var limit, links, data := v.total + 2, v.Links(), v.store.data;
    cl' := cl;
    KeptUntouched(limit, links, data, cl);
    DirChain(v, first, cl);
    if op.Move? {
      out, cl' := MoveName(v, first, op.name, op.to, cl, m);
      return;
    }
    var found := Lookup(v, first, op.name, cl, m);
    if op.Make? {
      if found.Some? {
        return Exists, cl;
      }
      var ok;
      ok, cl' := Bind(v, first, op.name, op.attr, op.first, op.size, cl, m);
      out := if ok then Done else Full;
      MakeLeft(v, first, cl', m, op, out);
    } else if found.None? {
      assert m - {LowerAll(op.name)} == m;
      out := Missing;
    } else if op.Delete? {
      Unbind(v, first, found.value, cl, m);
      out := Done;
    } else if op.Change? {
      Rebind(v, first, found.value, op.size, op.first, cl, m);
      out := Done;
    } else {
      out := Is(InfoOf(found.value.item));
    }
  }

  lemma MakeLeft(v: Fat32, first: nat, cl: seq<nat>, m: map<seq<byte>, Record>, op: DirOp, out: Outcome)
    requires op.Make? && LowerAll(op.name) !in m && Storable(op.name) && (out.Done? || out.Full?)
    requires if out.Done? then Named(v, first, cl, m, op.name, op.attr, op.first, op.size) else MapDir(v, first, cl, m)
    ensures Left(v, first, cl, m, op, out)
  {
    hide DirOk, Unique, MapOf, DirList, LowerAll, Spoils, Unfit, WithName;
    if out.Done? && Spoils(m, op.name, v.store.bpc) {
      SpoilsUnfit(m, op.name, v.store.bpc);
    }
  }

  /** The map a state lists. */
  ghost function MapIn(s: DirState): map<seq<byte>, Record> {
    if InData(s.data, s.cl) then MapOf(DirList(s.data, s.cl)) else map[]
  }

  /** The states a run goes through: each command has the outcome its state determines and, unless it
    * spoils the directory, its effect on the map. Only the last one may do that.
    */
  ghost predicate Story(states: seq<DirState>, limit: nat, bpc: nat, ops: seq<DirOp>, outs: seq<Outcome>) {
    && |outs| == |ops| && |states| == |ops| + 1
    && forall i :: 0 <= i < |ops| ==> StoryAt(states[i], states[i + 1], limit, bpc, ops[i], outs[i], i + 1 == |ops|)
  }

  ghost predicate StoryAt(s: DirState, s': DirState, limit: nat, bpc: nat, op: DirOp, out: Outcome, last: bool) {
    && InData(s.data, s.cl) && out == Result(s, limit, op)
    && if Broke(MapIn(s), op, out, bpc) then last else MapIn(s') == Effect(MapIn(s), op, out)
  }

  /** The last command spoiled the directory. */
  ghost predicate Spoiled(states: seq<DirState>, bpc: nat, ops: seq<DirOp>, outs: seq<Outcome>) {
    && outs != [] && |outs| <= |ops| && |outs| < |states|
    && Broke(MapIn(states[|outs| - 1]), ops[|outs| - 1], outs[|outs| - 1], bpc)
  }

  lemma StoryMore(states: seq<DirState>, limit: nat, bpc: nat, ops: seq<DirOp>, i: nat, outs: seq<Outcome>, s: DirState, out: Outcome)
    requires i < |ops| && Story(states, limit, bpc, ops[..i], outs) && !Spoiled(states, bpc, ops, outs) && StoryAt(states[i], s, limit, bpc, ops[i], out, true)
    ensures Story(states + [s], limit, bpc, ops[..i + 1], outs + [out])
    ensures Spoiled(states + [s], bpc, ops, outs + [out]) <==> Broke(MapIn(states[i]), ops[i], out, bpc)
  {
    hide MapIn, Result, Broke, Effect;
    var ops', states', outs' := ops[..i + 1], states + [s], outs + [out];
    forall j | 0 <= j < i + 1
      ensures StoryAt(states'[j], states'[j + 1], limit, bpc, ops'[j], outs'[j], j + 1 == |ops'|)
    {
      if j < i {
        assert ops'[j] == ops[..i][j] && states'[j] == states[j] && states'[j + 1] == states[j + 1] && outs'[j] == outs[j];
        assert StoryAt(states[j], states[j + 1], limit, bpc, ops[..i][j], outs[j], j + 1 == i);
      }
    }
  }

  lemma ListsMap(v: Fat32, first: nat, cl: seq<nat>, m: map<seq<byte>, Record>)
    requires MapDir(v, first, cl, m)
    ensures v.Valid() && InData(v.store.data, cl) && MapIn(StateOf(v, cl)) == m
  {
    DirValid(v, first, cl);
  }

  /** The state after a command. */
  lemma Told(v: Fat32, first: nat, cl: seq<nat>, s: DirState, op: DirOp, out: Outcome)
    requires v.Valid() && InData(s.data, s.cl) && out == Result(s, v.total + 2, op) && Left(v, first, cl, MapIn(s), op, out)
    ensures StoryAt(s, StateOf(v, cl), v.total + 2, v.store.bpc, op, out, true)
    ensures !Broke(MapIn(s), op, out, v.store.bpc) ==> MapDir(v, first, cl, MapIn(StateOf(v, cl))) && InData(v.store.data, cl)
  {
    hide Result, Broke, Effect, MapOf, DirOk, Unique, DirList, LinksOf;
    if !Broke(MapIn(s), op, out, v.store.bpc) {
      ListsMap(v, first, cl, Effect(MapIn(s), op, out));
    }
  }

  /** A run of commands on a directory acts on the map it lists as the commands say, with the outcomes
    * its slots and the table determine, and leaves every other chain of the volume alone. The directory
    * lists a map at the end exactly when the last command did not spoil it. The run ends early only
    * after a command that stored an unfit name.
    */
  method RunDir(v: Fat32, first: nat, ops: seq<DirOp>, ghost cl: seq<nat>, ghost m: map<seq<byte>, Record>)
    returns (outs: seq<Outcome>, ghost states: seq<DirState>)
    requires MapDir(v, first, cl, m) && v.Valid() && forall i :: 0 <= i < |ops| ==> Allowed(ops[i])
    modifies v`hint, v.fat, v.store
    ensures |outs| <= |ops| && Story(states, v.total + 2, v.store.bpc, ops[..|outs|], outs)
    ensures states[0] == old(StateOf(v, cl)) && MapIn(states[0]) == m
    ensures |outs| < |ops| ==> outs != [] && StoredUnfit(ops[|outs| - 1], outs[|outs| - 1], v.store.bpc)
    ensures v.Valid() && var s := states[|outs|]; s == StateOf(v, s.cl) && (Proper(v, first, s.cl) <==> !Spoiled(states, v.store.bpc, ops, outs))
    ensures var s := states[|outs|]; !Spoiled(states, v.store.bpc, ops, outs) ==> MapDir(v, first, s.cl, MapIn(s))
    ensures OthersKept(v.total + 2, old(v.Links()), old(v.store.data), cl, v.Links(), v.store.data, states[|outs|].cl)
  {
    hide MapDir, Proper, Allowed, Effect, OthersKept, LinksOf, Story, StoryAt, Result, MapIn, Broke, Chain, Left, StoredUnfit, Spoiled;
    ghost var limit, links, data, cl' := v.total + 2, v.Links(), v.store.data, cl;
    KeptUntouched(limit, links, data, cl);
    ListsMap(v, first, cl, m);
    outs, states := [], [StateOf(v, cl)];
    assert Story(states, limit, v.store.bpc, ops[..0], outs) && !Spoiled(states, v.store.bpc, ops, outs) by { StoryStart(states[0], limit, v.store.bpc, ops); }
    assert Proper(v, first, cl) by { MapIsProper(v, first, cl, m); }
    for i := 0 to |ops|
      invariant |outs| == i && Story(states, limit, v.store.bpc, ops[..i], outs) && |states| == i + 1 && states[0] == old(StateOf(v, cl)) && MapIn(states[0]) == m
      invariant MapDir(v, first, cl', MapIn(states[i])) && v.Valid() && InData(v.store.data, cl') && states[i] == StateOf(v, cl')
      invariant Proper(v, first, cl') && !Spoiled(states, v.store.bpc, ops, outs)
      invariant OthersKept(limit, links, data, cl, v.Links(), v.store.data, cl')
    {
      ghost var links1, data1, cl1, s := v.Links(), v.store.data, cl', states[i];
      var out;
      out, cl' := Do(v, first, ops[i], cl1, MapIn(s));
      Told(v, first, cl', s, ops[i], out);
      StoryMore(states, limit, v.store.bpc, ops, i, outs, StateOf(v, cl'), out);
      LeftProper(v, first, cl', MapIn(s), ops[i], out);
      KeptTwice(limit, links, data, cl, links1, data1, cl1, v.Links(), v.store.data, cl');
      outs, states := outs + [out], states + [StateOf(v, cl')];
      if StoredUnfit(ops[i], out, v.store.bpc) {
        return;
      }
    }
    assert ops[..|ops|] == ops;
  }

  lemma LeftProper(v: Fat32, first: nat, cl: seq<nat>, m: map<seq<byte>, Record>, op: DirOp, out: Outcome)
    requires Left(v, first, cl, m, op, out)
    ensures Proper(v, first, cl) <==> !Broke(m, op, out, v.store.bpc)
    ensures Broke(m, op, out, v.store.bpc) ==> StoredUnfit(op, out, v.store.bpc)
  {
    hide Broke, Effect, StoredUnfit, Proper;
  }

  lemma MapIsProper(v: Fat32, first: nat, cl: seq<nat>, m: map<seq<byte>, Record>)
    requires MapDir(v, first, cl, m)
    ensures Proper(v, first, cl)
  {
  }

  lemma StoryStart(s: DirState, limit: nat, bpc: nat, ops: seq<DirOp>)
    ensures Story([s], limit, bpc, ops[..0], []) && !Spoiled([s], bpc, ops, [])
  {
  }
}
