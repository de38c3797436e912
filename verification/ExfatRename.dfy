/** Renaming and moving files and directories. */
module ExfatRename {
  import opened Arith
  import opened Bytes
  import opened ExfatScan
  import opened ExfatVolume
  import opened ExfatContents
  import opened ExfatFile
  import opened ExfatNames
  import opened ExfatEntrySet
  import opened ExfatPaths
  import opened ExfatDirectory
  import opened ExfatDirVolume
  import opened ExfatTree
  import opened ExfatSteps
  import opened ExfatTreeLaws
  import opened ExfatNamespace
  import opened ExfatCreate

  /** The File entry and Stream Extension of a listed set carry its fields. */
  lemma HeadOfSet(es: seq<Entry>, x: Listed)
    requires Tidy(es, 0) && x in List(es, 0)
    ensures x.at + 2 <= |es| && es[x.at][0] == TYPE_FILE && es[x.at + 1][0] == TYPE_STREAM
    ensures x.info == Info(x.info.name, Rd32(es[x.at + 1], 20), Rd64(es[x.at + 1], 24), Rd64(es[x.at + 1], 8),
                           IsDirectory(es[x.at]), IsContiguous(es[x.at + 1]))
  {
    hide Tidy, List, Checksum, Rd32, Rd64, Fitting, Collect;
    ListAtSet(es, x);
    var s := es[x.at..x.at + x.count];
    ValidSetShape(s);
    assert s[0] == es[x.at] && s[1] == es[x.at + 1];
  }

  /** The set of entry `x` under a new name: its File entry and Stream Extension with the
    * name, hash and counts replaced.
    */
  method RenamedSet(v: Volume, w: Where, name: seq<nat>, ghost base: seq<byte>, ghost x: Listed,
                    ghost t: Tree, ghost fixed: set<nat>, ghost leaked: set<nat>)
    returns (fileSet: seq<Entry>)
    requires Stored(v, t, fixed, leaked) && w.dirCluster in t.dirs && w.dirCluster in t.lists && x in t.lists[w.dirCluster]
    requires w.setIndex == x.at && WellFormed(base) && 0 < |base| <= NAME_MAX && name == Units(base) && 0 < |name| <= NAME_MAX
    modifies v`fatCache, v`fatCacheLba, v`fatCacheValid
    ensures Stored(v, t, fixed, leaked)
    ensures ValidSet(fileSet) && |fileSet| == 2 + NameEntries(|name|) && Parse(fileSet).value == x.info.(name := base)
  {
    hide Matches, Held, Accounted, DirChain, Entries, Parse, Tidy, List, Units, WellFormed, ChecksumOk, Spells, Rd32, Rd64;
    StoredDir(v, t, fixed, leaked, w.dirCluster);
    ghost var cl := t.chains[w.dirCluster];
    HeadOfSet(DirEntries(v, w.dirCluster, cl), x);
    var oldFile := ReadEntry(v, w.dirCluster, w.setIndex, cl);
    var oldStream := ReadEntry(v, w.dirCluster, w.setIndex + 1, cl);
    if oldFile[0] != TYPE_FILE || oldStream[0] != TYPE_STREAM {
      assert false;
    }
    fileSet := BuildSet(oldFile, oldStream, name);
    BuiltSetIs(fileSet, oldFile, oldStream, base);
  }

  /** Rewriting in place or moving changes no chain and no directory. */
  lemma MovedStored(v: Volume, t: Tree, cb: nat, d: nat, l: seq<Listed>, x: Listed, d2: nat, l2: seq<Listed>, y: Listed, t1: Tree,
                    fixed: set<nat>, leaked: set<nat>)
    requires cb >= 1 && TreeOk(t, cb) && d in t.dirs && x in t.lists[d] && y.info == x.info.(name := y.info.name)
    requires Stored(v, t1, fixed, leaked)
    requires t1 == t.(lists := t1.lists) && t1.lists == Moved(t, d, l, x, d2, l2, y).lists
    ensures Stored(v, Moved(t, d, l, x, d2, l2, y), fixed, leaked)
  {
    hide Held, Accounted, NamesApart, LeadsToRoot, HomeOk, CeilDiv;
    assert EntryOk(t, cb, d, x);
    StoredRehomed(v, t1, Moved(t, d, l, x, d2, l2, y), fixed, leaked);
  }

  /** `t'` is `t` with entry `x` of directory `d` moved to directory `d2` as `y`. */
  ghost predicate MovedTo(t: Tree, t': Tree, d: nat, x: Listed, d2: nat, y: Listed) {
    && d in t.lists && d2 in t.lists && d in t'.lists && d2 in t'.lists
    && t' == Moved(t, d, t'.lists[d], x, d2, t'.lists[d2], y)
    && y.info == x.info.(name := y.info.name)
    && if d == d2 then ReplacedIn(t.lists[d], t'.lists[d], x, y)
       else Joined(t'.lists[d], t.lists[d], x) && Joined(t.lists[d2], t'.lists[d2], y)
  }

  /** `l'` is `l` with `x` gone and `y` there, in the place of `x` or in another. */
  ghost predicate ReplacedIn(l: seq<Listed>, l': seq<Listed>, x: Listed, y: Listed) {
    Swapped(l, l', x, [y]) || exists m :: Joined(l, m, y) && Joined(l', m, x)
  }

  /** A directory that is not inside what `x` names. */
  ghost predicate Outside(t: Tree, x: Listed, d2: nat) {
    x.info.isDir ==> LeadsToRoot(t, d2, x.info.first)
  }

  /** Same directory, same number of entries: the set is rewritten in place. */
  method RenameInPlace(v: Volume, w: Where, fileSet: seq<Entry>, ghost base: seq<byte>, ghost x: Listed,
                       ghost t: Tree, ghost fixed: set<nat>, ghost leaked: set<nat>)
    returns (ghost t': Tree, ghost y: Listed)
    requires FsOk(v, t, fixed, leaked) && w.dirCluster in t.dirs && w.dirCluster in t.lists && x in t.lists[w.dirCluster]
    requires w == WhereOf(w.dirCluster, x) && |fileSet| == x.count && ValidSet(fileSet) && Parse(fileSet).value == x.info.(name := base)
    requires FreshName(t.lists[w.dirCluster], base) && Outside(t, x, w.dirCluster)
    modifies v`disk, v`heap, v`fatCache, v`fatCacheLba, v`fatCacheValid
    ensures FsOk(v, t', fixed, leaked) && FilesKept(t, old(v.heap), v.heap)
    ensures MovedTo(t, t', w.dirCluster, x, w.dirCluster, y) && y.info.name == base
  {
    hide Matches, Held, Accounted, Parse, TreeOk, FreshName, FilesKept, Swapped, Joined, LeadsToRoot, ValidSet;
    ghost var d, cb := w.dirCluster, v.g.spc * 512;
    y := Listed(x.info.(name := base), x.at, x.count);
    ghost var l := ReplaceSet(v, w.dirCluster, w.setIndex, fileSet, x, t, fixed, leaked);
    t' := Moved(t, d, l, x, d, l, y);
    assert t'.lists[d] == l;
    EntryMoved(t, cb, d, l, x, d, l, y);
    MovedStored(v, t, cb, d, l, x, d, l, y, Relisted(t, d, l), fixed, leaked);
  }

  /** Write the set into the room of directory `d2`, then delete the old one. */
  method MoveSet(v: Volume, w: Where, d2: nat, slot: nat, fileSet: seq<Entry>, ghost base: seq<byte>, ghost x: Listed,
                 ghost t: Tree, ghost fixed: set<nat>, ghost leaked: set<nat>)
    returns (ghost t': Tree, ghost y: Listed)
    requires FsOk(v, t, fixed, leaked) && w.dirCluster in t.dirs && w.dirCluster in t.lists && x in t.lists[w.dirCluster]
    requires w == WhereOf(w.dirCluster, x) && ValidSet(fileSet) && Parse(fileSet).value == x.info.(name := base)
    requires d2 in t.dirs && d2 in t.chains && d2 in t.lists && DirOk(v, d2, t.chains[d2])
    requires RoomAt(DirEntries(v, d2, t.chains[d2]), slot, |fileSet|)
    requires FreshName(t.lists[d2], base) && Outside(t, x, d2)
    modifies v`disk, v`heap, v`fatCache, v`fatCacheLba, v`fatCacheValid
    ensures FsOk(v, t', fixed, leaked) && FilesKept(t, old(v.heap), v.heap)
    ensures MovedTo(t, t', w.dirCluster, x, d2, y) && y.info.name == base
  {
    hide Matches, Held, Accounted, Parse, TreeOk, FreshName, FilesKept, Swapped, Joined, LeadsToRoot, ValidSet, DirChain, Entries, RoomAt;
    ghost var d, cb := w.dirCluster, v.g.spc * 512;
    y := Listed(x.info.(name := base), slot, |fileSet|);
    ghost var heap0 := v.heap;
    ghost var l2 := PutSet(v, d2, slot, fileSet, t, fixed, leaked);
    ghost var t1, heap1 := Relisted(t, d2, l2), v.heap;
    JoinedMembers(t.lists[d2], l2, y);
    ghost var l := DropSet(v, w.dirCluster, w.setIndex, w.setCount, x, t1, fixed, leaked);
    FilesKeptThen(t, t1, heap0, heap1, v.heap);
    t' := Moved(t, d, l, x, d2, l2, y);
    ghost var t2 := Relisted(t1, d, l);
    assert t2.lists == t'.lists;
    EntryMoved(t, cb, d, l, x, d2, l2, y);
    MovedStored(v, t, cb, d, l, x, d2, l2, y, t2, fixed, leaked);
  }

  // ---- paths after a move ----

  /** Everything but `x` is still listed. */
  ghost predicate ExtendsBut(t: Tree, t': Tree, d0: nat, x: Listed) {
    && t.root == t'.root && t.dirs == t'.dirs && t.lists.Keys == t.dirs && t'.lists.Keys == t'.dirs
    && (forall d :: d in t'.dirs ==> NamesApart(t'.lists[d]))
    && forall d, z :: d in t.dirs && z in t.lists[d] && !(d == d0 && z == x) ==> StillThere(z, t'.lists[d])
  }

  lemma MoveExtends(t: Tree, t': Tree, cb: nat, d: nat, x: Listed, d2: nat, y: Listed)
    requires cb >= 1 && TreeOk(t, cb) && TreeOk(t', cb) && MovedTo(t, t', d, x, d2, y) && d in t.dirs && d2 in t.dirs && x in t.lists[d] && y !in t.lists[d2]
    ensures ExtendsBut(t, t', d, x)
    ensures y in t'.lists[d2]
  {
    hide NamesApart, LeadsToRoot, HomeOk, EntryOk, Joined, Swapped;
    MoveMembers(t, t', cb, d, x, d2, y);
    forall e, z | e in t.dirs && z in t.lists[e] && !(e == d && z == x)
      ensures StillThere(z, t'.lists[e])
    {
      assert z in t'.lists[e] && SameThing(z, z);
    }
  }

  /** The members of the listings after a move. */
  lemma MoveMembers(t: Tree, t': Tree, cb: nat, d: nat, x: Listed, d2: nat, y: Listed)
    requires cb >= 1 && TreeOk(t, cb) && MovedTo(t, t', d, x, d2, y) && d in t.dirs && d2 in t.dirs && x in t.lists[d] && y !in t.lists[d2]
    requires d == d2 ==> TreeOk(t', cb)
    ensures y in t'.lists[d2]
    ensures forall e, z :: e in t.dirs && z in t.lists[e] && !(e == d && z == x) ==> e in t'.lists && z in t'.lists[e]
    ensures forall z :: z in t'.lists[d] ==> (d == d2 && z == y) || (z in t.lists[d] && z != x)
  {
    hide NamesApart, LeadsToRoot, HomeOk, EntryOk, Joined, Swapped;
    if d != d2 {
      JoinedMembers(t'.lists[d], t.lists[d], x);
      DroppedNames(t.lists[d], t'.lists[d], x);
      JoinedMembers(t.lists[d2], t'.lists[d2], y);
    } else if Swapped(t.lists[d], t'.lists[d], x, [y]) {
      SwappedMembers(t.lists[d], t'.lists[d], x, y);
    } else {
      var m :| Joined(t.lists[d], m, y) && Joined(t'.lists[d], m, x);
      JoinedMembers(t.lists[d], m, y);
      JoinedMembers(t'.lists[d], m, x);
      JoinedOnce(t.lists[d], m, t'.lists[d], x, y);
    }
  }

  /** Adding `y` and dropping `x` leaves one entry fewer than what both make. */
  lemma JoinedOnce(l: seq<Listed>, m: seq<Listed>, l': seq<Listed>, x: Listed, y: Listed)
    requires Joined(l, m, y) && Joined(l', m, x) && NamesApart(l) && x in l
    ensures x in l' ==> x == y
    ensures y in l' || x == y
  {
    hide SameName;
    var b, a :| l == b + a && m == b + [y] + a;
    var b', a' :| l' == b' + a' && m == b' + [x] + a';
    assert m[|b'|] == x && m[|b|] == y;
    SameNameReflexive(x.info.name);
    forall i | 0 <= i < |m| && i != |b|
      ensures m[i] == l[if i < |b| then i else i - 1]
    {
    }
    forall i | 0 <= i < |l'|
      ensures l'[i] == m[if i < |b'| then i else i + 1]
    {
    }
    if |b'| != |b| {
      assert y == l'[if |b| < |b'| then |b| else |b| - 1];
    }
  }

  /** The path to a directory goes through its ancestors only. */
  lemma {:induction false} AncestorsAvoid(t: Tree, cb: nat, d: nat, comps: seq<seq<byte>>, k: nat)
    requires cb >= 1 && TreeOk(t, cb) && d in t.dirs && comps != [] && Walk(t, d, comps).Some?
    requires Walk(t, d, comps).value.entry.info.isDir && LeadsToRoot(t, Walk(t, d, comps).value.entry.info.first, k)
    ensures var x := FirstNamed(t.lists[d], comps[0]).value; x.info.isDir && x.info.first != k && LeadsToRoot(t, x.info.first, k)
    ensures LeadsToRoot(t, d, k)
    decreases |comps|
  {
    hide NamesApart, HomeOk, CeilDiv;
    var x := FirstNamed(t.lists[d], comps[0]).value;
    assert EntryOk(t, cb, d, x);
    if |comps| > 1 {
      AncestorsAvoid(t, cb, x.info.first, comps[1..], k);
    }
    var n: nat :| Rooted(t, x.info.first, n, k);
    assert Rooted(t, d, n - 1, k);
  }

  /** The path to a directory outside `x` survives the move of `x`. */
  lemma {:induction false} WalkAround(t: Tree, t': Tree, cb: nat, d: nat, comps: seq<seq<byte>>, d0: nat, x: Listed)
    requires cb >= 1 && TreeOk(t, cb) && ExtendsBut(t, t', d0, x) && d in t.dirs && comps != [] && Walk(t, d, comps).Some?
    requires Walk(t, d, comps).value.entry.info.isDir && Outside(t, x, Walk(t, d, comps).value.entry.info.first)
    ensures Walk(t', d, comps).Some?
    ensures Walk(t', d, comps).value.dir == Walk(t, d, comps).value.dir
    ensures SameThing(Walk(t, d, comps).value.entry, Walk(t', d, comps).value.entry)
    decreases |comps|
  {
    hide NamesApart, SameName, LeadsToRoot, HomeOk, CeilDiv;
    var z := FirstNamed(t.lists[d], comps[0]).value;
    assert EntryOk(t, cb, d, z);
    if x.info.isDir {
      AncestorsAvoid(t, cb, d, comps, x.info.first);
    }
    assert StillThere(z, t'.lists[d]);
    var y :| y in t'.lists[d] && SameThing(z, y);
    FoundByName(t'.lists[d], y, comps[0]);
    if |comps| > 1 {
      WalkAround(t, t', cb, z.info.first, comps[1..], d0, x);
    }
  }

  /** Growing the target directory does not touch the entry being moved. */
  lemma RoomKeepsEntry(t: Tree, room: Tree, cb: nat, p: nat, cl: seq<nat>, d: nat, x: Listed)
    requires cb >= 1 && TreeOk(t, cb) && RoomMade(t, room, cb, p, cl) && p in t.dirs && d in t.dirs && x in t.lists[d]
    requires Outside(t, x, p)
    ensures d in room.dirs && d in room.lists && x in room.lists[d] && Outside(room, x, p)
  {
    hide NamesApart, CeilDiv, Swapped;
    if x.info.isDir {
      var n: nat :| Rooted(t, p, n, x.info.first);
      LeadsKept(t, room, p, x.info.first);
    }
    if room.lists[d] != t.lists[d] {
      var h := t.home[p];
      SwappedMembers(t.lists[d], room.lists[d], h.entry, Resized(h.entry, |cl| * cb));
      assert HomeOk(t, p) && EntryOk(t, cb, d, x) && EntryOk(t, cb, d, h.entry);
    }
  }

  /** The new path leads to the moved entry, and its old name is gone. */
  lemma MovedPath(t: Tree, room: Tree, t': Tree, cb: nat, to: seq<seq<byte>>, d: nat, x: Listed, p: nat, cl: seq<nat>, y: Listed)
    requires cb >= 1 && TreeOk(t, cb) && TreeOk(room, cb) && TreeOk(t', cb) && to != []
    requires ParentDir(t, t.root, to) == Some(p) && y.info.name == to[|to| - 1]
    requires p in t.dirs && d in room.dirs && x in room.lists[d] && Outside(room, x, p) && p in room.dirs && FreshName(room.lists[p], y.info.name)
    requires RoomMade(t, room, cb, p, cl) && MovedTo(room, t', d, x, p, y)
    ensures t'.root == t.root && Walk(t', t.root, to) == Some(Home(p, y))
    ensures d in t'.lists && FirstNamed(t'.lists[d], x.info.name) == None
  {
    hide NamesApart, SameName, HomeOk, CeilDiv, EntryOk, LeadsToRoot, RoomMade, Joined, Swapped, FreshName;
    RoomExtends(t, room, cb, p, cl);
    FreshFor(room.lists[p], y);
    MoveExtends(room, t', cb, d, x, p, y);
    var init := to[..|to| - 1];
    if init != [] {
      WalkExtends(t, room, cb, t.root, init);
      WalkAround(room, t', cb, room.root, init, d, x);
    }
    WalkLast(t', cb, t'.root, to);
    SameNameReflexive(y.info.name);
    FoundByName(t'.lists[p], y, y.info.name);
    MoveMembers(room, t', cb, d, x, p, y);
    OldNameGone(room.lists[d], t'.lists[d], x, y);
  }

  lemma OldNameGone(l: seq<Listed>, l': seq<Listed>, x: Listed, y: Listed)
    requires NamesApart(l) && x in l
    requires forall z :: z in l' ==> (z == y && FreshName(l, y.info.name)) || (z in l && z != x)
    ensures FirstNamed(l', x.info.name) == None
  {
    hide SameName;
    forall z | z in l'
      ensures !SameName(x.info.name, z.info.name)
    {
    }
  }

  /** The parent and the name of a path for a new entry. */
  method TargetPlace(v: Volume, root: nat, path: seq<byte>, ghost t: Tree, ghost fixed: set<nat>, ghost leaked: set<nat>)
    returns (ok: bool, w: Where, name: seq<nat>)
    requires FsOk(v, t, fixed, leaked) && root == t.root && WellFormed(Base(path))
    modifies v`fatCache, v`fatCacheLba, v`fatCacheValid
    ensures FsOk(v, t, fixed, leaked) && root in t.lists
    ensures ok <==> ParentOf(t, root, path).Some? && NameOk(Base(path))
    ensures ok ==> DirWhere(t, w) && ParentOf(t, root, path) == Some(w.first) && name == Units(Base(path)) && 0 < |name| <= NAME_MAX
    ensures ok ==> Split(path) != [] && Split(path)[|Split(path)| - 1] == Base(path)
  {
    hide Held, Accounted, TreeOk, Matches, WellFormed, Units, Split, Base, Cut;
    ok := false;
    name := [];
    RootListed(t, v.g.spc * 512);
    var pr, base;
    pr, w, base := ResolveParent(v, root, path, t, fixed, leaked);
    if pr == 0 {
      return;
    }
    name := NewName(base);
    ok := name != [];
  }

  /** What a rename comes to, but for a full volume. */
  ghost function RenameResult(t: Tree, from: seq<byte>, to: seq<byte>): int
    requires t.root in t.lists && WellFormed(Base(to))
  {
    if Split(from) == [] || Walk(t, t.root, Split(from)) == None then ERR_INVALID
    else if Split(to) == [] || Walk(t, t.root, Split(to)).Some? then ERR_EXISTS
    else if ParentOf(t, t.root, to) == None || !NameOk(Base(to)) then ERR_INVALID
    else 0
  }

  /** The new set takes the place of the old one. */
  predicate InPlace(d: nat, x: Listed, p: nat, base: seq<byte>)
    requires WellFormed(base)
  {
    d == p && x.count == SetLength(base)
  }

  /** A rename without room: its target is cramped and the set cannot stay in its place. */
  ghost predicate RenameFails(heap: seq<seq<Sector>>, spc: nat, free: nat, t: Tree, from: seq<byte>, to: seq<byte>)
    requires t.root in t.lists && WellFormed(Base(to))
  {
    && RenameResult(t, from, to) == 0
    && var h, p, base := Walk(t, t.root, Split(from)).value, ParentOf(t, t.root, to).value, Base(to);
       p in t.chains && !InPlace(h.dir, h.entry, p, base) && CrampedDir(heap, t.chains[p], spc, SetLength(base), free)
  }

  /** One that grows its target in vain. */
  ghost predicate RenameTears(heap: seq<seq<Sector>>, spc: nat, free: nat, t: Tree, from: seq<byte>, to: seq<byte>)
    requires t.root in t.lists && WellFormed(Base(to))
  {
    RenameFails(heap, spc, free, t, from, to) && free >= 1 && ParentOf(t, t.root, to).value != t.root
  }

  /** The rename once the target is known. */
  method MoveEntry(v: Volume, root: nat, w: Where, p: Where, name: seq<nat>, ghost base: seq<byte>, ghost x: Listed,
                   ghost t: Tree, ghost fixed: set<nat>, ghost leaked: set<nat>)
    returns (r: int, ghost room: Tree, ghost t': Tree, ghost cl: seq<nat>, ghost y: Listed)
    requires FsOk(v, t, fixed, leaked) && root == t.root && DirWhere(t, p)
    requires w.dirCluster in t.dirs && w.dirCluster in t.lists && x in t.lists[w.dirCluster] && w == WhereOf(w.dirCluster, x)
    requires p.first in t.lists && FreshName(t.lists[p.first], base) && Outside(t, x, p.first)
    requires WellFormed(base) && 0 < |base| <= NAME_MAX && name == Units(base) && 0 < |name| <= NAME_MAX
    modifies v`disk, v`fat, v`heap, v`used, v`nextFree, v`fatCache, v`fatCacheLba, v`fatCacheValid
    ensures FilesKept(t, old(v.heap), v.heap) && (r == 0 || r == ERR_NO_SPACE) && p.first in t.chains && v.g.spc >= 1
    ensures var free := old(v.Supply());
            && (r == ERR_NO_SPACE <==>
                  !InPlace(w.dirCluster, x, p.first, base) && CrampedDir(old(v.heap), t.chains[p.first], v.g.spc, SetLength(base), free))
            && (r == ERR_NO_SPACE ==> Unrecorded(t, t', p.first, cl, free) && Stored(v, t', fixed, leaked))
            && (r == ERR_NO_SPACE ==> (TreeOk(t', v.g.spc * 512) <==> p.first == root || free == 0))
    ensures r == ERR_NO_SPACE ==> v.Full()
    ensures r == 0 ==> FsOk(v, t', fixed, leaked)
    ensures r == 0 ==> TreeOk(room, v.g.spc * 512) && RoomMade(t, room, v.g.spc * 512, p.first, cl)
    ensures r == 0 ==> MovedTo(room, t', w.dirCluster, x, p.first, y) && y.info.name == base
  {
    hide Matches, Held, Accounted, DirChain, Entries, RoomAt, Units, WellFormed, TreeOk, FreshName, FilesKept, RoomMade, MovedTo, DirWhere, Outside, Parse, ValidSet, CrampedDir, Deliverable, Unrecorded;
    ghost var cb, heap0 := v.g.spc * 512, v.heap;
    ChainsInTree(t, cb);
    FilesKeptSelf(t, heap0);
    room, t', cl, y := t, t, t.chains[p.first], x;
    var fileSet := RenamedSet(v, w, name, base, x, t, fixed, leaked);
    if w.dirCluster == p.first && w.setCount == |fileSet| {
      NothingGrown(t, cb, p.first, cl);
      t', y := RenameInPlace(v, w, fileSet, base, x, t, fixed, leaked);
      return 0, room, t', cl, y;
    }
    var ok, slot;
    ok, slot, room, cl := RoomFor(v, root, p, |fileSet|, 0, t, fixed, leaked);
    if !ok {
      return ERR_NO_SPACE, room, room, cl, y;
    }
    ghost var heap1 := v.heap;
    RoomShape(t, room, cb, p.first, cl, base);
    RoomKeepsEntry(t, room, cb, p.first, cl, w.dirCluster, x);
    t', y := MoveSet(v, w, p.first, slot, fileSet, base, x, room, fixed, leaked);
    FilesOfRoom(t, room, cb, p.first, cl, heap0, heap1, v.heap);
    r := 0;
  }

  /** `room` is `t` with a possibly grown target directory, and `t'` is `room` with what `from`
    * named moved to `to`.
    */
  ghost predicate Renamed(t: Tree, room: Tree, t': Tree, cb: nat, from: seq<seq<byte>>, to: seq<seq<byte>>, cl: seq<nat>, y: Listed) {
    && from != [] && to != [] && t.root in t.lists && t'.root == t.root && t.root in t'.lists
    && Walk(t, t.root, from).Some? && ParentDir(t, t.root, to).Some?
    && var h, p := Walk(t, t.root, from).value, ParentDir(t, t.root, to).value;
       && RoomMade(t, room, cb, p, cl) && MovedTo(room, t', h.dir, h.entry, p, y) && y.info.name == to[|to| - 1]
       && Walk(t', t.root, to) == Some(Home(p, y))
       && h.dir in t'.lists && FirstNamed(t'.lists[h.dir], h.entry.info.name) == None
  }

  /** Tearing takes 512-byte clusters and a name of more than 210 UTF-16 units. */
  lemma RenameTearsOnlySmall(heap: seq<seq<Sector>>, spc: nat, free: nat, t: Tree, from: seq<byte>, to: seq<byte>)
    requires t.root in t.lists && WellFormed(Base(to))
    requires RenameTears(heap, spc, free, t, from, to)
    ensures spc == 1 && |Units(Base(to))| > 210
  {
    hide Cramped, WellFormed, Units, Entries, Walk, Split, Base, Cut;
    var p, base := ParentOf(t, t.root, to).value, Base(to);
    CrampedIsLong(Entries(heap, t.chains[p], spc), SetLength(base), spc * 16, free);
    UnitsEmpty(base);
  }

  /** The target directory of a path grew without its entry saying so. */
  ghost predicate TargetUnrecorded(t: Tree, t': Tree, to: seq<byte>, cl: seq<nat>, free: nat) {
    t.root in t.lists && ParentOf(t, t.root, to).Some? && Unrecorded(t, t', ParentOf(t, t.root, to).value, cl, free)
  }

  /** Rename or move. The target must not lie inside the directory being moved. Without room
    * nothing is listed anew; the volume still holds a file system exactly when the target was not
    * grown in vain. On success the new path leads to the same file or directory, with the same first cluster, sizes and
    * flags, the old name is gone, and everything else is as before.
    */
  method Rename(v: Volume, root: nat, from: seq<byte>, to: seq<byte>, ghost t: Tree, ghost fixed: set<nat>, ghost leaked: set<nat>)
    returns (r: int, ghost room: Tree, ghost t': Tree, ghost cl: seq<nat>, ghost y: Listed)
    requires FsOk(v, t, fixed, leaked) && root == t.root && root in t.lists && WellFormed(Base(to))
    requires Split(from) != [] && Walk(t, root, Split(from)).Some? && ParentOf(t, root, to).Some? ==>
               Outside(t, Walk(t, root, Split(from)).value.entry, ParentOf(t, root, to).value)
    modifies v`disk, v`fat, v`heap, v`used, v`nextFree, v`fatCache, v`fatCacheLba, v`fatCacheValid
    ensures Stored(v, t', fixed, leaked) && FilesKept(t, old(v.heap), v.heap)
    ensures r == if RenameFails(old(v.heap), v.g.spc, old(v.Supply()), t, from, to) then ERR_NO_SPACE else RenameResult(t, from, to)
    ensures FsOk(v, t', fixed, leaked) <==> !RenameTears(old(v.heap), v.g.spc, old(v.Supply()), t, from, to)
    ensures r < 0 && r != ERR_NO_SPACE ==> t' == t
    ensures r == ERR_NO_SPACE ==> v.Full()
    ensures r == ERR_NO_SPACE ==> TargetUnrecorded(t, t', to, cl, old(v.Supply()))
    ensures r == 0 ==> Renamed(t, room, t', v.g.spc * 512, Split(from), Split(to), cl, y)
  {
    hide Matches, Held, Accounted, TreeOk, FreshName, FilesKept, RoomMade, MovedTo, DirWhere, WellFormed, Units, Outside, FirstNamed;
    hide CrampedDir, Deliverable, Unrecorded, InPlace, Split, Base, Cut;
    ghost var cb, a, b := v.g.spc * 512, Split(from), Split(to);
    FilesKeptSelf(t, v.heap);
    room, t', cl, y := t, t, [], Listed(Info([], 0, 0, 0, false, false), 0, 0);
    var er, w := Resolve(v, root, from, t, fixed, leaked);
    RootListed(t, cb);
    RootUnlisted(t, cb, a);
    if er == 0 || w.dirCluster < 2 {
      return ERR_INVALID, room, t', cl, y;
    }
    ghost var x := Walk(t, root, a).value.entry;
    WalkHome(t, cb, root, a);
    InTree(t, cb, w.dirCluster);
    var xr, _ := Resolve(v, root, to, t, fixed, leaked);
    if xr == 1 {
      return ERR_EXISTS, room, t', cl, y;
    }
    var ok, p, name := TargetPlace(v, root, to, t, fixed, leaked);
    if !ok {
      return ERR_INVALID, room, t', cl, y;
    }
    WalkLast(t, cb, root, b);
    InTree(t, cb, p.first);
    FreshWhenNone(t.lists[p.first], Base(to));
    r, room, t', cl, y := MoveEntry(v, root, w, p, name, Base(to), x, t, fixed, leaked);
    if r == 0 {
      ChainsInTree(t, cb);
      RoomShape(t, room, cb, p.first, cl, Base(to));
      RoomKeepsEntry(t, room, cb, p.first, cl, w.dirCluster, x);
      MovedPath(t, room, t', cb, b, w.dirCluster, x, p.first, cl, y);
      RootListed(t', cb);
    }
  }
}
