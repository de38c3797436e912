/** Creating files and directories, and when a creation without room leaves a directory torn. */
module ExfatCreate {
  import opened Arith
  import opened Bytes
  import opened ExfatScan
  import opened ExfatVolume
  import opened ExfatContents
  import opened ExfatFile
  import opened ExfatNames
  import opened ExfatEntrySet
  import opened ExfatPaths
  import opened ExfatDirectory
  import opened ExfatDirVolume
  import opened ExfatTree
  import opened ExfatSteps
  import opened ExfatTreeLaws
  import opened ExfatNamespace

  /** 2024-01-01 00:00:00. */
  const FIXED_TS: nat := 0x5821_0000

  function FileEntry(isDir: bool): Entry {
    PutEntry(PutEntry(PutEntry(PutEntry(PutEntry(ZeroEntry(), 0, [TYPE_FILE]),
                                        4, Le16(if isDir then ATTR_DIRECTORY else ATTR_ARCHIVE)),
                               8, Le32(FIXED_TS)), 12, Le32(FIXED_TS)), 16, Le32(FIXED_TS))
  }

  function StreamEntry(first: nat, dataLen: nat): Entry {
    PutEntry(PutEntry(PutEntry(PutEntry(ZeroEntry(), 0, [TYPE_STREAM, 0x01]), 8, Le64(dataLen)), 20, Le32(first)), 24, Le64(dataLen))
  }

  lemma FileEntryFields(isDir: bool)
    ensures FileEntry(isDir)[0] == TYPE_FILE && IsDirectory(FileEntry(isDir)) == isDir
  {
    hide Le32;
    var attr := if isDir then ATTR_DIRECTORY else ATTR_ARCHIVE;
    var e := PutEntry(PutEntry(ZeroEntry(), 0, [TYPE_FILE]), 4, Le16(attr));
    Rd16Put(PutEntry(ZeroEntry(), 0, [TYPE_FILE]), 4, attr);
    assert Rd16(FileEntry(isDir), 4) == Rd16(e, 4) == attr;
  }

  lemma StreamEntryFields(first: nat, dataLen: nat)
    requires first < 0x1_0000_0000 && dataLen < 0x1_0000_0000_0000_0000
    ensures var e := StreamEntry(first, dataLen);
            e[0] == TYPE_STREAM && Rd32(e, 20) == first && Rd64(e, 24) == Rd64(e, 8) == dataLen && !IsContiguous(e)
  {
    hide Rd32, Rd64, Le32, Le64;
    var a := PutEntry(ZeroEntry(), 0, [TYPE_STREAM, 0x01]);
    var b := PutEntry(a, 8, Le64(dataLen));
    var c := PutEntry(b, 20, Le32(first));
    var e := PutEntry(c, 24, Le64(dataLen));
    Rd64Put(a, 8, dataLen);
    Rd32Put(b, 20, first);
    Rd64Put(c, 24, dataLen);
    SameField64(b, e, 8);
    SameField32(c, e, 20);
    assert e[1] == a[1] == 0x01;
  }

  /** Write the set of a new file or directory into free entries. */
  method WriteEntrySet(v: Volume, d: nat, slot: nat, name: seq<nat>, isDir: bool, first: nat, dataLen: nat, ghost base: seq<byte>,
                       ghost t: Tree, ghost fixed: set<nat>, ghost leaked: set<nat>)
    returns (ghost l: seq<Listed>)
    requires Stored(v, t, fixed, leaked) && d in t.dirs && d in t.chains && d in t.lists && DirOk(v, d, t.chains[d])
    requires WellFormed(base) && 0 < |base| <= NAME_MAX && name == Units(base) && 0 < |name| <= NAME_MAX
    requires first < 0x1_0000_0000 && dataLen < 0x1_0000_0000_0000_0000
    requires RoomAt(DirEntries(v, d, t.chains[d]), slot, 2 + NameEntries(|name|))
    modifies v`disk, v`heap, v`fatCache, v`fatCacheLba, v`fatCacheValid
    ensures Stored(v, Relisted(t, d, l), fixed, leaked) && FilesKept(t, old(v.heap), v.heap)
    ensures Joined(t.lists[d], l, Listed(Info(base, first, dataLen, dataLen, isDir, false), slot, 2 + NameEntries(|name|)))
    ensures DirOk(v, d, t.chains[d]) && slot <= |old(DirEntries(v, d, t.chains[d]))| == |DirEntries(v, d, t.chains[d])|
    ensures DirEntries(v, d, t.chains[d])[..slot] == old(DirEntries(v, d, t.chains[d]))[..slot]
  {
    hide Matches, Held, Accounted, DirChain, Entries, Parse, Joined, Units, WellFormed, ChecksumOk, Spells, FilesKept;
    hide FileEntry, StreamEntry, Rd32, Rd64;
    var fileSet := BuildSet(FileEntry(isDir), StreamEntry(first, dataLen), name);
    FileEntryFields(isDir);
    StreamEntryFields(first, dataLen);
    BuiltSetIs(fileSet, FileEntry(isDir), StreamEntry(first, dataLen), base);
    l := PutSet(v, d, slot, fileSet, t, fixed, leaked);
  }

  /** The tree of a directory at `nc` that was not to be is the tree without it. */
  lemma NewDirDropped(t: Tree, nc: nat)
    requires nc !in t.chains && nc !in t.dirs && nc !in t.lists
    ensures var t1 := WithDir(t, nc);
            t1.chains - {nc} == t.chains && t1.dirs - {nc} == t.dirs && t1.lists - {nc} == t.lists
            && nc in t1.chains && t1.chains[nc] == [nc]
  {
  }

  /** Give back the cluster of a directory that found no room for its entry. */
  method DropNewDir(v: Volume, nc: nat, ghost t: Tree, ghost fixed: set<nat>, ghost leaked: set<nat>)
    requires Stored(v, WithDir(t, nc), fixed, leaked) && v.g.IsData(nc) && nc !in t.chains && nc !in t.dirs && nc !in t.lists
    modifies v`disk, v`used, v`nextFree
    ensures Stored(v, t, fixed, leaked) && v.heap == old(v.heap) && nc in old(v.used) && v.used == old(v.used) - {nc}
  {
    hide Matches, Accounted, DirHeld, Chain, Kept;
    ghost var t1, used0 := WithDir(t, nc), v.used;
    NewDirDropped(t, nc);
    KeptSelf(v);
    v.FreeCluster(nc);
    KeptFewer(v.fat, v.heap, v.fat, used0, used0 - Elems(t1.chains[nc]));
    AccountsAfterRelease(used0, t1.chains, fixed, leaked, nc);
    assert Elems([nc]) == {nc};
    assert nc in used0 by { NewDirUsed(v.g, v.fat, used0, v.heap, t, nc); }
    OthersStillHeld(v.g, v.fat, used0, v.heap, t1, v.fat, v.used, v.heap, t, nc, fixed, leaked);
  }

  lemma NewDirUsed(g: Geometry, fat: seq<nat>, used: set<nat>, heap: seq<seq<Sector>>, t: Tree, nc: nat)
    requires Held(g, fat, used, heap, WithDir(t, nc))
    ensures nc in used
  {
    assert ChainHeld(g, fat, used, heap, WithDir(t, nc), nc);
    assert nc in [nc];
  }

  /** The entry a creation adds. */
  function NewInfo(base: seq<byte>, isDir: bool, nc: nat, cb: nat): Info {
    if isDir then Info(base, nc, cb, cb, true, false) else Info(base, 0, 0, 0, false, false)
  }

  /** `t'` is `t` with the entry `x` added to directory `p`. */
  ghost predicate Added(t: Tree, t': Tree, p: nat, x: Listed) {
    && p in t.lists && p in t'.lists && Joined(t.lists[p], t'.lists[p], x)
    && t' == if x.info.isDir then DirAdded(t, p, t'.lists[p], x.info.first, x) else Relisted(t, p, t'.lists[p])
  }

  lemma AddedOk(t: Tree, cb: nat, p: nat, l: seq<Listed>, x: Listed)
    requires cb >= 1 && TreeOk(t, cb) && p in t.dirs && Joined(t.lists[p], l, x) && FreshName(t.lists[p], x.info.name)
    requires x.info == NewInfo(x.info.name, x.info.isDir, x.info.first, cb) && cb < 0x1_0000_0000
    requires x.info.isDir ==> 2 <= x.info.first < 0x1_0000_0000 && x.info.first !in t.chains
    ensures var t' := if x.info.isDir then DirAdded(t, p, l, x.info.first, x) else Relisted(t, p, l);
            TreeOk(t', cb) && Added(t, t', p, x)
  {
    hide TreeOk, Joined, FreshName;
    InTree(t, cb, p);
    if x.info.isDir {
      DirAddedOk(t, cb, p, l, x.info.first, x);
      var t' := DirAdded(t, p, l, x.info.first, x);
      assert t'.lists[p] == l;
    } else {
      FileAdded(t, cb, p, l, x);
      assert Relisted(t, p, l).lists[p] == l;
    }
  }

  lemma AddedStored(v: Volume, t: Tree, p: nat, l: seq<Listed>, x: Listed, fixed: set<nat>, leaked: set<nat>)
    requires p in t.lists && x.info.isDir && x.info.first !in t.chains && x.info.first != p
    requires Stored(v, Relisted(WithDir(t, x.info.first), p, l), fixed, leaked)
    ensures Stored(v, DirAdded(t, p, l, x.info.first, x), fixed, leaked)
  {
    hide Held, Accounted;
    StoredRehomed(v, Relisted(WithDir(t, x.info.first), p, l), DirAdded(t, p, l, x.info.first, x), fixed, leaked);
  }

  /** Write the new entry into the room made for it. */
  method AddEntry(v: Volume, p: nat, slot: nat, name: seq<nat>, isDir: bool, nc: nat, ghost base: seq<byte>,
                  ghost t: Tree, ghost fixed: set<nat>, ghost leaked: set<nat>)
    returns (ghost t': Tree, ghost x: Listed)
    requires v.g.spc >= 1 && TreeOk(t, v.g.spc * 512) && Stored(v, WithNew(t, nc), fixed, leaked)
    requires p in t.dirs && p in t.chains && p in t.lists && DirOk(v, p, t.chains[p]) && FreshName(t.lists[p], base)
    requires nc !in t.chains && (isDir <==> nc != 0) && (isDir ==> 2 <= nc < 0x1_0000_0000) && v.g.spc * 512 < 0x1_0000_0000
    requires WellFormed(base) && 0 < |base| <= NAME_MAX && name == Units(base) && 0 < |name| <= NAME_MAX
    requires RoomAt(DirEntries(v, p, t.chains[p]), slot, 2 + NameEntries(|name|))
    modifies v`disk, v`heap, v`fatCache, v`fatCacheLba, v`fatCacheValid
    ensures Stored(v, t', fixed, leaked) && TreeOk(t', v.g.spc * 512) && FilesKept(t, old(v.heap), v.heap)
    ensures Added(t, t', p, x) && x.info == NewInfo(base, isDir, nc, v.g.spc * 512)
  {
    hide Matches, Held, Accounted, DirChain, Entries, RoomAt, Joined, Units, WellFormed, TreeOk, FreshName, FilesKept;
    var cb := v.g.spc * 512;
    var dataLen := if isDir then cb else 0;
    ghost var tw := WithNew(t, nc);
    assert p != nc && tw.lists[p] == t.lists[p] && tw.chains[p] == t.chains[p];
    ghost var l := WriteEntrySet(v, p, slot, name, isDir, nc, dataLen, base, tw, fixed, leaked);
    x := Listed(Info(base, nc, dataLen, dataLen, isDir, false), slot, 2 + NameEntries(|name|));
    AddedOk(t, cb, p, l, x);
    FilesOfNew(t, nc, old(v.heap), v.heap);
    if isDir {
      t' := DirAdded(t, p, l, nc, x);
      AddedStored(v, t, p, l, x, fixed, leaked);
    } else {
      t' := Relisted(t, p, l);
    }
  }

  // ---- paths after a change ----

  /** An entry that is still the same file or directory under the same name. */
  predicate SameThing(x: Listed, y: Listed) {
    x.info.name == y.info.name && x.info.first == y.info.first && x.info.isDir == y.info.isDir
  }

  ghost predicate StillThere(x: Listed, l: seq<Listed>) {
    exists y :: y in l && SameThing(x, y)
  }

  /** Everything listed in `t` is still listed in `t'`. */
  ghost predicate Extends(t: Tree, t': Tree) {
    && t.root == t'.root && t.dirs <= t'.dirs && t.lists.Keys == t.dirs && t'.lists.Keys == t'.dirs
    && (forall d :: d in t'.dirs ==> NamesApart(t'.lists[d]))
    && forall d, x :: d in t.dirs && x in t.lists[d] ==> StillThere(x, t'.lists[d])
  }

  /** Paths lead to the same things after additions. */
  lemma {:induction false} WalkExtends(t: Tree, t': Tree, cb: nat, d: nat, comps: seq<seq<byte>>)
    requires cb >= 1 && TreeOk(t, cb) && Extends(t, t') && d in t.dirs && comps != [] && Walk(t, d, comps).Some?
    ensures Walk(t', d, comps).Some?
    ensures var h, h' := Walk(t, d, comps).value, Walk(t', d, comps).value;
            h'.dir == h.dir && SameThing(h.entry, h'.entry)
    decreases |comps|
  {
    hide NamesApart, SameName, LeadsToRoot, HomeOk, CeilDiv;
    var x := FirstNamed(t.lists[d], comps[0]).value;
    assert EntryOk(t, cb, d, x) && StillThere(x, t'.lists[d]);
    var y :| y in t'.lists[d] && SameThing(x, y);
    FoundByName(t'.lists[d], y, comps[0]);
    if |comps| > 1 {
      WalkExtends(t, t', cb, x.info.first, comps[1..]);
    }
  }

  /** A grown directory still lists everything, and so does its parent. */
  lemma RoomExtends(t: Tree, t': Tree, cb: nat, p: nat, cl: seq<nat>)
    requires cb >= 1 && TreeOk(t, cb) && TreeOk(t', cb) && RoomMade(t, t', cb, p, cl)
    ensures Extends(t, t')
  {
    hide NamesApart, LeadsToRoot, HomeOk, CeilDiv, EntryOk;
    forall d, x | d in t.dirs && x in t.lists[d]
      ensures StillThere(x, t'.lists[d])
    {
      if t'.lists[d] != t.lists[d] {
        var h := t.home[p];
        SwappedMembers(t.lists[d], t'.lists[d], h.entry, Resized(h.entry, |cl| * cb));
        var y := if x == h.entry then Resized(h.entry, |cl| * cb) else x;
        assert y in t'.lists[d] && SameThing(x, y);
      }
    }
  }

  lemma AddedExtends(t: Tree, t': Tree, cb: nat, p: nat, x: Listed)
    requires cb >= 1 && TreeOk(t, cb) && TreeOk(t', cb) && Added(t, t', p, x) && (x.info.isDir ==> x.info.first !in t.dirs)
    ensures Extends(t, t')
  {
    hide NamesApart, LeadsToRoot, HomeOk, CeilDiv, EntryOk, Joined;
    JoinedMembers(t.lists[p], t'.lists[p], x);
    forall d, y | d in t.dirs && y in t.lists[d]
      ensures StillThere(y, t'.lists[d])
    {
      assert y in t'.lists[d] && SameThing(y, y);
    }
  }

  /** The path of a new entry leads to it. */
  lemma NewPath(t: Tree, t1: Tree, t2: Tree, cb: nat, comps: seq<seq<byte>>, p: nat, cl: seq<nat>, x: Listed)
    requires cb >= 1 && TreeOk(t, cb) && TreeOk(t1, cb) && TreeOk(t2, cb) && comps != []
    requires ParentDir(t, t.root, comps) == Some(p) && x.info.name == comps[|comps| - 1]
    requires RoomMade(t, t1, cb, p, cl) && Added(t1, t2, p, x) && (x.info.isDir ==> x.info.first !in t1.dirs)
    ensures t2.root == t.root && Walk(t2, t.root, comps) == Some(Home(p, x))
  {
    hide NamesApart, SameName, LeadsToRoot, HomeOk, CeilDiv, EntryOk, RoomMade, Joined;
    RoomExtends(t, t1, cb, p, cl);
    AddedExtends(t1, t2, cb, p, x);
    var init := comps[..|comps| - 1];
    if init != [] {
      WalkExtends(t, t1, cb, t.root, init);
      WalkExtends(t1, t2, cb, t1.root, init);
    }
    WalkLast(t2, cb, t2.root, comps);
    JoinedMembers(t1.lists[p], t2.lists[p], x);
    SameNameReflexive(x.info.name);
    FoundByName(t2.lists[p], x, x.info.name);
  }

  // ---- the operation ----

  /** A path allows a new entry: it fits the buffers, its parent is a directory, nothing has its name,
    * and the name is acceptable.
    */
  ghost predicate Creatable(t: Tree, path: seq<byte>)
    requires t.root in t.lists && WellFormed(Base(path))
  {
    ParentOf(t, t.root, path).Some? && Walk(t, t.root, Split(path)) == None && NameOk(Base(path))
  }

  /** Below a directory at "/a/b", with names of 200 and 100 bytes, nothing can be created: the path of
    * the parent does not fit its buffer.
    */
  lemma DeepRefused(t: Tree, a: seq<byte>, b: seq<byte>)
    requires |a| == 200 && |b| == 100 && SLASH !in a && SLASH !in b
    requires t.root in t.lists && Walk(t, t.root, [a, b]).Some? && Walk(t, t.root, [a, b]).value.entry.info.isDir
    ensures var path := [SLASH] + a + [SLASH] + b + [SLASH, 0x66];
            && Split(path) == [a, b, [0x66]] && ParentDir(t, t.root, Split(path)).Some? && WellFormed(Base(path)) && NameOk(Base(path))
            && !Creatable(t, path)
  {
    hide Split, Base, Cut;
    DeepPath(a, b);
    var path := [SLASH] + a + [SLASH] + b + [SLASH, 0x66];
    assert Split(path)[..2] == [a, b];
    assert Base(path)[1..] == [];
  }

  /** Check the path of a new entry and resolve its parent. */
  method CheckNew(v: Volume, root: nat, path: seq<byte>, ghost t: Tree, ghost fixed: set<nat>, ghost leaked: set<nat>)
    returns (ok: bool, w: Where, name: seq<nat>)
    requires FsOk(v, t, fixed, leaked) && root == t.root && WellFormed(Base(path))
    modifies v`fatCache, v`fatCacheLba, v`fatCacheValid
    ensures FsOk(v, t, fixed, leaked) && root in t.lists && (ok <==> Creatable(t, path))
    ensures ok ==> DirWhere(t, w) && ParentOf(t, root, path) == Some(w.first) && name == Units(Base(path)) && 0 < |name| <= NAME_MAX
    ensures ok ==> w.first in t.lists && FreshName(t.lists[w.first], Base(path))
    ensures ok ==> Split(path) != [] && Split(path)[|Split(path)| - 1] == Base(path)
  {
    hide Held, Accounted, TreeOk, Matches, SameName, FreshName, WellFormed, Units, Split, Base, Cut;
    ok := false;
    name := [];
    ghost var cb := v.g.spc * 512;
    RootListed(t, cb);
    var pr, base;
    pr, w, base := ResolveParent(v, root, path, t, fixed, leaked);
    if pr == 0 {
      return;
    }
    var er, _ := Resolve(v, root, path, t, fixed, leaked);
    if er == 1 {
      return;
    }
    name := NewName(base);
    ok := name != [];
    WalkLast(t, cb, root, Split(path));
    InTree(t, cb, w.first);
    FreshWhenNone(t.lists[w.first], base);
  }

  /** The allocator finds nothing, or did not before the operation gave one cluster back. */
  ghost predicate VolumeFull(v: Volume, isDir: bool)
    reads v
  {
    v.Full() || (isDir && exists c, next :: c !in v.used && Deliverable(v.g.count, v.used + {c}, next) == 0)
  }

  lemma ChainsInTree(t: Tree, cb: nat)
    requires cb >= 1 && TreeOk(t, cb)
    ensures t.dirs <= t.chains.Keys && t.lists.Keys == t.dirs && 0 !in t.chains
  {
    forall k | k in t.chains
      ensures k >= 2
    {
      if k != t.root {
        assert k in t.home && HomeOk(t, k);
      }
    }
  }

  lemma RoomShape(t: Tree, room: Tree, cb: nat, p: nat, cl: seq<nat>, base: seq<byte>)
    requires t.dirs <= t.chains.Keys && t.lists.Keys == t.dirs && RoomMade(t, room, cb, p, cl) && p in t.dirs
    requires FreshName(t.lists[p], base)
    ensures p in room.dirs && p in room.chains && p in room.lists && room.chains[p] == cl && FreshName(room.lists[p], base)
    ensures room.chains.Keys == t.chains.Keys && room.dirs == t.dirs
  {
    hide FreshName, Swapped;
  }

  lemma ClusterNumbers(v: Volume, nc: nat)
    requires v.Valid() && v.g.IsCluster(nc)
    ensures 2 <= nc < 0x1_0000_0000
  {
    CountBelow(v.g);
  }

  lemma FilesOfRoom(t: Tree, room: Tree, cb: nat, p: nat, cl: seq<nat>,
                    heap: seq<seq<Sector>>, heap1: seq<seq<Sector>>, heap2: seq<seq<Sector>>)
    requires p in t.dirs && RoomMade(t, room, cb, p, cl) && FilesKept(t, heap, heap1) && FilesKept(room, heap1, heap2)
    ensures FilesKept(t, heap, heap2)
  {
    hide Swapped;
    FilesKeptThen(t, room, heap, heap1, heap2);
  }

  /** Clusters left for the parent once a new directory has taken one. */
  function Spare(free: nat, isDir: bool): nat {
    if isDir && free > 0 then free - 1 else free
  }

  /** Entries in the set of a name. */
  function SetLength(base: seq<byte>): nat
    requires WellFormed(base)
  {
    2 + NameEntries(|Units(base)|)
  }

  /** A cluster the directory does not own does not matter for its room. */
  lemma CrampedElsewhere(heap: seq<seq<Sector>>, heap': seq<seq<Sector>>, cl: seq<nat>, spc: nat, count: nat, free: nat, nc: nat)
    requires OnlyChanged(heap, heap', [nc]) && nc !in cl && Rows(heap, cl, spc)
    ensures CrampedDir(heap, cl, spc, count, free) <==> CrampedDir(heap', cl, spc, count, free)
  {
    hide Entries, Cramped;
    EntriesUntouched(heap, heap', cl, spc, [nc]);
  }

  /** The clusters of a directory are in use. */
  lemma DirUses(v: Volume, t: Tree, fixed: set<nat>, leaked: set<nat>, p: nat)
    requires Stored(v, t, fixed, leaked) && p in t.dirs
    ensures p in t.chains && Rows(v.heap, t.chains[p], v.g.spc) && forall c :: c in t.chains[p] ==> c in v.used
  {
    hide Matches, Accounted, Tidy, List;
    StoredDir(v, t, fixed, leaked, p);
  }

  /** Take a cluster for a new directory. */
  method TakeDirCluster(v: Volume, isDir: bool, count: nat, ghost p: nat, ghost t: Tree, ghost fixed: set<nat>, ghost leaked: set<nat>)
    returns (ok: bool, nc: nat)
    requires FsOk(v, t, fixed, leaked) && p in t.dirs
    modifies v`disk, v`fat, v`heap, v`used, v`nextFree, v`fatCache
    ensures ok <==> !(isDir && old(v.Supply()) == 0)
    ensures !ok ==> FsOk(v, t, fixed, leaked) && v.Full()
    ensures ok ==> (nc != 0 <==> isDir) && nc !in t.chains && Stored(v, WithNew(t, nc), fixed, leaked)
    ensures ok && isDir ==> v.g.IsData(nc) && 2 <= nc < 0x1_0000_0000
    ensures ok ==> v.Supply() == Spare(old(v.Supply()), isDir) && p in t.chains
    ensures ok ==> forall free ::
              CrampedDir(v.heap, t.chains[p], v.g.spc, count, free) <==> CrampedDir(old(v.heap), t.chains[p], v.g.spc, count, free)
    ensures FilesKept(t, old(v.heap), v.heap) && v.g.spc >= 1
  {
    hide Matches, Held, Accounted, TreeOk, FilesKept, CrampedDir, Deliverable;
    ok, nc := true, 0;
    ghost var heap0 := v.heap;
    FilesKeptSelf(t, heap0);
    ChainsInTree(t, v.g.spc * 512);
    DirUses(v, t, fixed, leaked, p);
    if isDir {
      nc := NewDirCluster(v, t, fixed, leaked);
      if nc == 0 {
        return false, 0;
      }
      ClusterNumbers(v, nc);
      forall free
        ensures CrampedDir(v.heap, t.chains[p], v.g.spc, count, free) <==> CrampedDir(heap0, t.chains[p], v.g.spc, count, free)
      {
        CrampedElsewhere(heap0, v.heap, t.chains[p], v.g.spc, count, free, nc);
      }
    }
  }

  /** Nothing free is nothing linked in vain. */
  lemma NothingUnrecorded(t: Tree, cb: nat, p: nat)
    requires p in t.chains && p in t.lists
    ensures Unrecorded(t, t, p, t.chains[p], 0)
  {
    NothingGrown(t, cb, p, t.chains[p]);
  }

  /** Take a cluster for a new directory, make room in the parent and write the entry. */
  method Place(v: Volume, root: nat, w: Where, name: seq<nat>, isDir: bool, ghost base: seq<byte>,
               ghost t: Tree, ghost fixed: set<nat>, ghost leaked: set<nat>)
    returns (r: int, ghost room: Tree, ghost t': Tree, ghost cl: seq<nat>, ghost x: Listed)
    requires FsOk(v, t, fixed, leaked) && root == t.root && DirWhere(t, w)
    requires w.first in t.lists && FreshName(t.lists[w.first], base)
    requires WellFormed(base) && 0 < |base| <= NAME_MAX && name == Units(base) && 0 < |name| <= NAME_MAX
    modifies v`disk, v`fat, v`heap, v`used, v`nextFree, v`fatCache, v`fatCacheLba, v`fatCacheValid
    ensures FilesKept(t, old(v.heap), v.heap) && (r == 0 || r == ERR_NO_SPACE) && w.first in t.chains && v.g.spc >= 1
    ensures var free := old(v.Supply());
            && (r == ERR_NO_SPACE <==> (isDir && free == 0) || CrampedDir(old(v.heap), t.chains[w.first], v.g.spc, SetLength(base), Spare(free, isDir)))
            && (r == ERR_NO_SPACE ==> Unrecorded(t, t', w.first, cl, Spare(free, isDir)) && VolumeFull(v, isDir) && Stored(v, t', fixed, leaked))
            && (r == ERR_NO_SPACE ==> (TreeOk(t', v.g.spc * 512) <==> w.first == root || Spare(free, isDir) == 0))
    ensures r == 0 ==> FsOk(v, t', fixed, leaked)
    ensures r == 0 ==> TreeOk(room, v.g.spc * 512) && RoomMade(t, room, v.g.spc * 512, w.first, cl) && Added(room, t', w.first, x)
    ensures r == 0 ==> x.info == NewInfo(base, isDir, x.info.first, v.g.spc * 512)
    ensures r == 0 ==> (x.info.isDir ==> x.info.first !in room.dirs && x.info.first !in t.chains)
  {
    hide Matches, Held, Accounted, DirChain, Entries, RoomAt, Joined, Units, WellFormed, TreeOk, FreshName, FilesKept, RoomMade, Added, CrampedDir, Deliverable, Unrecorded;
    t', cl, x := t, [], Listed(NewInfo(base, false, 0, 0), 0, 0);
    ghost var heap0, cb := v.heap, v.g.spc * 512;
    ChainsInTree(t, cb);
    var count := 2 + NameEntries(|name|);
    var taken, nc := TakeDirCluster(v, isDir, count, w.first, t, fixed, leaked);
    if !taken {
      cl := t.chains[w.first];
      NothingUnrecorded(t, cb, w.first);
      return ERR_NO_SPACE, t, t, cl, x;
    }
    ghost var heap1 := v.heap;
    var ok, slot;
    ok, slot, room, cl := RoomFor(v, root, w, count, nc, t, fixed, leaked);
    FilesKeptThen(t, t, heap0, heap1, v.heap);
    if !ok {
      t' := room;
      if isDir {
        NotAmong(t, t', w.first, cl, Spare(old(v.Supply()), isDir), nc);
        ghost var used1, next1 := v.used, v.nextFree;
        DropNewDir(v, nc, t', fixed, leaked);
        assert v.used + {nc} == used1 && Deliverable(v.g.count, v.used + {nc}, next1) == 0;
      }
      return ERR_NO_SPACE, room, t', cl, x;
    }
    ghost var heap2 := v.heap;
    RoomShape(t, room, cb, w.first, cl, base);
    t', x := AddEntry(v, w.first, slot, name, isDir, nc, base, room, fixed, leaked);
    FilesOfRoom(t, room, cb, w.first, cl, heap0, heap2, v.heap);
    r := 0;
  }

  lemma NotAmong(t: Tree, t': Tree, p: nat, cl: seq<nat>, free: nat, nc: nat)
    requires Unrecorded(t, t', p, cl, free) && nc !in t.chains && t.dirs <= t.chains.Keys && t.lists.Keys == t.dirs
    ensures nc !in t'.chains && nc !in t'.dirs && nc !in t'.lists
  {
  }

  /** `room` is `t` with a possibly grown parent, `t'` is `room` with one new entry, and the
    * path leads to it.
    */
  ghost predicate Created(t: Tree, room: Tree, t': Tree, cb: nat, comps: seq<seq<byte>>, isDir: bool, cl: seq<nat>, x: Listed) {
    && comps != [] && t.root in t.lists && t'.root == t.root && t.root in t'.lists && ParentDir(t, t.root, comps).Some?
    && var p := ParentDir(t, t.root, comps).value;
       && RoomMade(t, room, cb, p, cl) && Added(room, t', p, x)
       && x.info == NewInfo(comps[|comps| - 1], isDir, x.info.first, cb) && (isDir ==> x.info.first !in t.chains)
       && Walk(t', t.root, comps) == Some(Home(p, x))
  }

  /** The parent would have to grow by more clusters than there are, and the free ones are linked
    * to it in vain: what a caller can check before a creation that must not leave a directory longer
    * than its entry says.
    */
  ghost predicate CreateTears(heap: seq<seq<Sector>>, spc: nat, free: nat, t: Tree, path: seq<byte>, isDir: bool)
    requires t.root in t.lists && WellFormed(Base(path))
  {
    && Creatable(t, path)
    && var p := ParentOf(t, t.root, path).value;
       p != t.root && p in t.chains && Spare(free, isDir) >= 1
       && CrampedDir(heap, t.chains[p], spc, SetLength(Base(path)), Spare(free, isDir))
  }

  /** Every creation without room: no cluster for the directory, or a cramped parent. */
  ghost predicate CreateFails(heap: seq<seq<Sector>>, spc: nat, free: nat, t: Tree, path: seq<byte>, isDir: bool)
    requires t.root in t.lists && WellFormed(Base(path))
  {
    && Creatable(t, path)
    && var p := ParentOf(t, t.root, path).value;
       p in t.chains && ((isDir && free == 0) || CrampedDir(heap, t.chains[p], spc, SetLength(Base(path)), Spare(free, isDir)))
  }

  /** Create an empty file or directory. A path that allows no new entry changes nothing. On a
    * volume without room nothing is listed anew; the volume still holds a file system exactly when
    * the parent was not grown in vain. Otherwise the path then leads to the new entry, the parent
    * lists it once and everything else as before, and the sectors of all files are the same.
    */
  method Create(v: Volume, root: nat, path: seq<byte>, isDir: bool, ghost t: Tree, ghost fixed: set<nat>, ghost leaked: set<nat>)
    returns (r: int, ghost room: Tree, ghost t': Tree, ghost cl: seq<nat>, ghost x: Listed)
    requires FsOk(v, t, fixed, leaked) && root == t.root && WellFormed(Base(path))
    modifies v`disk, v`fat, v`heap, v`used, v`nextFree, v`fatCache, v`fatCacheLba, v`fatCacheValid
    ensures root in t.lists && FilesKept(t, old(v.heap), v.heap) && Stored(v, t', fixed, leaked)
    ensures r in {0, ERR_INVALID, ERR_NO_SPACE} && (r == ERR_INVALID <==> !Creatable(t, path))
    ensures r == ERR_NO_SPACE <==> CreateFails(old(v.heap), v.g.spc, old(v.Supply()), t, path, isDir)
    ensures FsOk(v, t', fixed, leaked) <==> !CreateTears(old(v.heap), v.g.spc, old(v.Supply()), t, path, isDir)
    ensures r == ERR_INVALID ==> t' == t
    ensures r == ERR_NO_SPACE ==> VolumeFull(v, isDir) && Unrecorded(t, t', ParentOf(t, root, path).value, cl, Spare(old(v.Supply()), isDir))
    ensures r == 0 ==> Created(t, room, t', v.g.spc * 512, Split(path), isDir, cl, x)
  {
    hide Matches, Held, Accounted, TreeOk, FreshName, FilesKept, RoomMade, Added, WellFormed, Units, VolumeFull, CrampedDir, Deliverable, Unrecorded, SetLength, Split, Base, Cut;
    RootListed(t, v.g.spc * 512);
    FilesKeptSelf(t, v.heap);
    var ok, w, name := CheckNew(v, root, path, t, fixed, leaked);
    if !ok {
      return ERR_INVALID, t, t, [], Listed(Info([], 0, 0, 0, false, false), 0, 0);
    }
    ghost var base, comps := Base(path), Split(path);
    r, room, t', cl, x := Place(v, root, w, name, isDir, base, t, fixed, leaked);
    if r == 0 {
      RootListed(t', v.g.spc * 512);
      NewPath(t, room, t', v.g.spc * 512, comps, w.first, cl, x);
    }
  }

  /** Tearing takes 512-byte clusters and a name of more than 210 UTF-16 units. */
  lemma TearsOnlySmall(heap: seq<seq<Sector>>, spc: nat, free: nat, t: Tree, path: seq<byte>, isDir: bool)
    requires t.root in t.lists && WellFormed(Base(path))
    requires spc >= 1 && CreateTears(heap, spc, free, t, path, isDir)
    ensures spc == 1 && |Units(Base(path))| > 210
  {
    hide Cramped, WellFormed, Units, Entries, Split, Base, Cut;
    var p, base := ParentOf(t, t.root, path).value, Base(path);
    CrampedIsLong(Entries(heap, t.chains[p], spc), SetLength(base), spc * 16, Spare(free, isDir));
    UnitsEmpty(base);
  }
}
