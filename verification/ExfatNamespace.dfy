/** Paths: resolving one, finding its parent directory and making room there for another entry. */
module ExfatNamespace {
  import opened Arith
  import opened Bytes
  import opened ExfatScan
  import opened ExfatVolume
  import opened ExfatContents
  import opened ExfatFile
  import opened ExfatNames
  import opened ExfatEntrySet
  import opened ExfatPaths
  import opened ExfatDirectory
  import opened ExfatDirVolume
  import opened ExfatCursor
  import opened ExfatTree
  import opened ExfatSteps
  import opened ExfatTreeLaws

  const ERR_INVALID: int := -1
  const ERR_EXISTS: int := -5

  /** A resolved path: the file's fields and where its entry set is. The root has no set. */
  datatype Where = Where(
    first: nat, size: nat, valid: nat, isDir: bool, contiguous: bool, dirCluster: nat, setIndex: nat, setCount: nat)

  function RootWhere(root: nat): Where {
    Where(root, 0, 0, true, false, 0, 0, 0)
  }

  function WhereOf(d: nat, x: Listed): Where {
    Where(x.info.first, x.info.size, x.info.valid, x.info.isDir, x.info.contiguous, d, x.at, x.count)
  }

  /** The volume holds the file system `t`. */
  ghost predicate FsOk(v: Volume, t: Tree, fixed: set<nat>, leaked: set<nat>)
    reads v
  {
    && Stored(v, t, fixed, leaked)
    && 1 <= v.g.spc <= 0x1_0000 && TreeOk(t, v.g.spc * 512)
  }

  /** What a path below directory `d` names in the tree. */
  ghost function Walk(t: Tree, d: nat, comps: seq<seq<byte>>): Option<Home>
    requires comps != [] && d in t.lists
    decreases |comps|
  {
    match FirstNamed(t.lists[d], comps[0])
    case None => None
    case Some(x) =>
      if |comps| == 1 then Some(Home(d, x))
      else if x.info.isDir && x.info.first in t.lists then Walk(t, x.info.first, comps[1..])
      else None
  }

  lemma WalkHome(t: Tree, cb: nat, d: nat, comps: seq<seq<byte>>)
    requires cb >= 1 && TreeOk(t, cb) && d in t.dirs && comps != [] && Walk(t, d, comps).Some?
    ensures var h := Walk(t, d, comps).value;
            h.dir in t.dirs && h.entry in t.lists[h.dir] && EntryOk(t, cb, h.dir, h.entry)
    decreases |comps|
  {
    hide NamesApart, SameName, Rooted, EntryOk, HomeOk;
    var x := FirstNamed(t.lists[d], comps[0]).value;
    if |comps| > 1 {
      assert EntryOk(t, cb, d, x);
      WalkHome(t, cb, x.info.first, comps[1..]);
    }
  }

  lemma SizedDir(n: nat, spc: nat)
    ensures n * (spc * 512) == n * spc * 512
    ensures n >= 1 && spc >= 1 ==> n * (spc * 512) >= 1
  {
    if n >= 1 && spc >= 1 {
      MulMonotone(1, n, spc * 512);
    }
  }

  /** Resolve a path: 1 with what it names, 0 if it names nothing. On any volume, whatever its
    * tables hold, this ends: it searches once for each component. On one that holds a file system it
    * finds what the tree has.
    */
  method Resolve(v: Volume, root: nat, path: seq<byte>, ghost t: Tree, ghost fixed: set<nat>, ghost leaked: set<nat>)
    returns (r: int, w: Where)
    requires v.Valid()
    modifies v`fatCache, v`fatCacheLba, v`fatCacheValid
    ensures v.Valid() && (r == 0 || r == 1)
    ensures Split(path) == [] ==> r == 1 && w == RootWhere(root)
    ensures old(FsOk(v, t, fixed, leaked)) && root == t.root ==> FsOk(v, t, fixed, leaked) && root in t.lists
    ensures old(FsOk(v, t, fixed, leaked)) && root == t.root && Split(path) != [] ==>
              && r == (if Walk(t, root, Split(path)).Some? then 1 else 0)
              && (r == 1 ==> w == WhereOf(Walk(t, root, Split(path)).value.dir, Walk(t, root, Split(path)).value.entry))
  {
    hide Matches, Held, Accounted, Tidy, List, Entries, DirChain, NamesApart, SameName, Rooted, TreeOk, Walk, WhereOf, Split;
    var comps := SplitPath(path);
    w := RootWhere(root);
    ghost var on := FsOk(v, t, fixed, leaked) && root == t.root;
    if on {
      RootListed(t, v.g.spc * 512);
      InTree(t, v.g.spc * 512, root);
    }
    if comps == [] {
      return 1, w;
    }
    var cur, contiguous, size, isDir := root, false, 0, true;
    var i := 0;
    assert comps[0..] == comps;
    while true
      invariant v.Valid() && i < |comps|
      invariant on ==> FsOk(v, t, fixed, leaked) && root in t.lists && StandsAt(t, root, comps, i, cur, size, isDir, v.g.spc)
      invariant on && isDir ==> !contiguous
      decreases |comps| - i
    {
      if !isDir {
        return 0, w;
      }
      ghost var cl := if on then t.chains[cur] else [];
      ghost var limit := 0;
      if on {
        SearchSees(v, t, fixed, leaked, cur, size);
        limit := |DirEntries(v, cur, cl)|;
      }
      var found, out := FindIn(v, cur, contiguous, size != 0, size, comps[i], cl, limit);
      if on {
        WalkOn(t, v.g.spc, root, comps, i, cur, size);
      }
      if found <= 0 || out.None? {
        return 0, w;
      }
      if i == |comps| - 1 {
        return 1, WhereOf(cur, out.value);
      }
      cur, contiguous := out.value.info.first, out.value.info.contiguous;
      size, isDir := out.value.info.size, out.value.info.isDir;
      i := i + 1;
    }
  }

  /** The walk stands at component `i`, in directory `cur` or at a file. */
  ghost predicate StandsAt(t: Tree, root: nat, comps: seq<seq<byte>>, i: nat, cur: nat, size: nat, isDir: bool, spc: nat)
    requires root in t.lists && i < |comps|
  {
    if isDir then
      && cur in t.dirs && cur in t.chains && cur in t.lists && Walk(t, root, comps) == Walk(t, cur, comps[i..])
      && (size == 0 || size == |t.chains[cur]| * (spc * 512))
    else Walk(t, root, comps) == None
  }

  /** One component further. */
  lemma WalkOn(t: Tree, spc: nat, root: nat, comps: seq<seq<byte>>, i: nat, cur: nat, size: nat)
    requires spc >= 1 && TreeOk(t, spc * 512) && root in t.lists && i < |comps| && StandsAt(t, root, comps, i, cur, size, true, spc)
    ensures var x := FirstNamed(t.lists[cur], comps[i]);
            match x
            case None => Walk(t, root, comps) == None
            case Some(y) =>
              if i == |comps| - 1 then Walk(t, root, comps) == Some(Home(cur, y))
              else (y.info.isDir ==> !y.info.contiguous) && StandsAt(t, root, comps, i + 1, y.info.first, y.info.size, y.info.isDir, spc)
  {
    hide NamesApart, SameName, LeadsToRoot, HomeOk, CeilDiv;
    var x := FirstNamed(t.lists[cur], comps[i]);
    assert comps[i..][0] == comps[i];
    if x.Some? {
      assert EntryOk(t, spc * 512, cur, x.value);
      if i < |comps| - 1 {
        assert comps[i..][1..] == comps[i + 1..];
      }
    }
  }

  /** The search in a directory of the tree sees all of it. */
  lemma SearchSees(v: Volume, t: Tree, fixed: set<nat>, leaked: set<nat>, cur: nat, size: nat)
    requires FsOk(v, t, fixed, leaked) && cur in t.dirs && cur in t.chains && (size == 0 || size == |t.chains[cur]| * (v.g.spc * 512))
    ensures cur in t.lists && DirOk(v, cur, t.chains[cur])
    ensures Sees(v, cur, t.chains[cur], false, size != 0, size, |DirEntries(v, cur, t.chains[cur])|)
    ensures List(DirEntries(v, cur, t.chains[cur])[..|DirEntries(v, cur, t.chains[cur])|], 0) == t.lists[cur]
  {
    hide Matches, Held, Accounted, Tidy, List, Entries, DirChain, TreeOk, Sees;
    StoredDir(v, t, fixed, leaked, cur);
    SizedDir(|t.chains[cur]|, v.g.spc);
    SeesAll(v, cur, t.chains[cur], size != 0, size);
  }

  // ---- making room, with the directory's own entry kept up to date ----

  /** A tree with an unlisted new directory at `nc`, or without one. */
  function WithNew(t: Tree, nc: nat): Tree {
    if nc == 0 then t else WithDir(t, nc)
  }

  /** `t'` is `t` with directory `p` grown to the clusters `cl` and its entry saying so. */
  ghost predicate RoomMade(t: Tree, t': Tree, cb: nat, p: nat, cl: seq<nat>) {
    && p in t.chains && p in t.lists
    && t'.root == t.root && t'.chains == t.chains[p := cl] && t'.dirs == t.dirs && t'.lists.Keys == t.lists.Keys
    && t'.lists[p] == t.lists[p]
    && (forall e :: e in t.lists && !(p in t.home && t.home[p].dir == e) ==> t'.lists[e] == t.lists[e])
    && (if p == t.root || cl == t.chains[p] then t'.home == t.home && t'.lists == t.lists
        else
          && p in t.home && t.home[p].dir in t.lists
          && Swapped(t.lists[t.home[p].dir], t'.lists[t.home[p].dir], t.home[p].entry, [Resized(t.home[p].entry, |cl| * cb)])
          && t'.home == t.home[p := Home(t.home[p].dir, Resized(t.home[p].entry, |cl| * cb))])
  }

  /** The entry of a directory with a new size. */
  function Resized(x: Listed, size: nat): Listed {
    Committed(x, x.info.first, size, size, false)
  }

  /** The root has no entry to keep up to date. */
  lemma RootGrown(t: Tree, cb: nat, cl: seq<nat>)
    requires cb >= 1 && TreeOk(t, cb)
    ensures TreeOk(Grown(t, t.root, cl), cb)
  {
    hide NamesApart, Rooted, CeilDiv;
    var t' := Grown(t, t.root, cl);
    forall e, y | e in t'.dirs && y in t'.lists[e]
      ensures EntryOk(t', cb, e, y)
    {
      assert EntryOk(t, cb, e, y);
    }
    forall m | m in t'.home
      ensures HomeOk(t', m)
    {
      assert HomeOk(t, m);
    }
    forall e | e in t'.dirs
      ensures LeadsToRoot(t', e, 0)
    {
      LeadsKept(t, t', e, 0);
    }
  }

  /** No directory is its own parent. */
  lemma NotOwnParent(t: Tree, cb: nat, p: nat)
    requires cb >= 1 && TreeOk(t, cb) && p in t.dirs && p != t.root
    ensures p in t.home && t.home[p].dir in t.dirs && t.home[p].dir != p && t.home[p].entry in t.lists[t.home[p].dir]
  {
    assert HomeOk(t, p);
    var n: nat :| Rooted(t, p, n, 0);
    if t.home[p].dir == p {
      NoLoop(t, p, n);
    }
  }

  lemma {:induction false} NoLoop(t: Tree, p: nat, n: nat)
    requires p != t.root && p in t.home && t.home[p].dir == p
    ensures !Rooted(t, p, n, 0)
    decreases n
  {
    if n > 0 {
      NoLoop(t, p, n - 1);
    }
  }

  /** The bytes of a chain stay far below 2^64. */
  lemma ChainBytesBound(v: Volume, cl: seq<nat>)
    requires v.Valid() && Distinct(cl) && forall c :: c in cl ==> v.g.IsData(c)
    ensures |cl| * (v.g.spc * 512) < 0x200_0000_0000 && |cl| < FAT_BAD
  {
    hide FatMatches, HeapMatches, UsedMatches, Distinct;
    CountBelow(v.g);
    ChainFits(v.g, cl);
    LbaClosed(v.g, v.g.count + 2);
    MulMonotone(|cl|, v.g.count, v.g.spc);
    SizedDir(|cl|, v.g.spc);
  }

  /** Changing the homes of directories only changes nothing on the disk. */
  lemma StoredRehomed(v: Volume, t: Tree, t': Tree, fixed: set<nat>, leaked: set<nat>)
    requires Stored(v, t, fixed, leaked)
    requires t'.chains == t.chains && t'.dirs == t.dirs && t'.lists == t.lists
    requires forall k :: k in t.chains && k !in t.dirs ==>
               k in t.home ==> k in t'.home && t'.home[k].entry.info.contiguous == t.home[k].entry.info.contiguous
    ensures Stored(v, t', fixed, leaked)
  {
    hide Matches, Accounted, DirHeld, Chain;
    forall k | k in t'.chains
      ensures ChainHeld(v.g, v.fat, v.used, v.heap, t', k)
    {
      assert ChainHeld(v.g, v.fat, v.used, v.heap, t, k);
    }
  }

  /** Rewriting one directory leaves the entries of another in place. */
  lemma OtherEntries(v: Volume, heap0: seq<seq<Sector>>, t: Tree, fixed: set<nat>, leaked: set<nat>, p: nat, d: nat)
    requires Accounted(v.used, t.chains, fixed, leaked) && p in t.chains && d in t.chains && p != d
    requires Rows(heap0, t.chains[p], v.g.spc) && OnlyChanged(heap0, v.heap, t.chains[d])
    ensures Rows(v.heap, t.chains[p], v.g.spc)
    ensures Entries(v.heap, t.chains[p], v.g.spc) == Entries(heap0, t.chains[p], v.g.spc)
  {
    assert forall c :: c in t.chains[p] ==> c in Elems(t.chains[p]);
    assert forall c :: c in t.chains[d] ==> c in Elems(t.chains[d]);
    EntriesUntouched(heap0, v.heap, t.chains[p], v.g.spc, t.chains[d]);
  }

  /** `w` is where directory `w.first` of the tree is. */
  ghost predicate DirWhere(t: Tree, w: Where) {
    && w.first in t.dirs
    && (if w.first == t.root then w == RootWhere(t.root)
        else w.first in t.home && w == WhereOf(t.home[w.first].dir, t.home[w.first].entry))
  }

  /** The tree after directory `p` grew and its entry was committed. */
  function Extended(t: Tree, cb: nat, p: nat, cl: seq<nat>, l: seq<Listed>): Tree
    requires p in t.home
  {
    var h := t.home[p];
    Rehomed(t, h.dir, l, h.entry, Resized(h.entry, |cl| * cb), cl)
  }

  /** A directory other than the root, with the entry that lists it. */
  ghost predicate SubDir(t: Tree, p: nat) {
    && p in t.dirs && p != t.root && p in t.chains && p in t.lists && p >= 2 && p in t.home
    && var h := t.home[p];
       h.dir in t.dirs && h.dir in t.lists && h.dir in t.chains && h.dir != p && h.entry in t.lists[h.dir] && h.entry.info.first == p
  }

  lemma SubDirOf(t: Tree, cb: nat, p: nat)
    requires cb >= 1 && TreeOk(t, cb) && p in t.dirs && p != t.root
    ensures SubDir(t, p)
  {
    hide NamesApart, Rooted, EntryOk;
    NotOwnParent(t, cb, p);
    assert HomeOk(t, p);
  }

  lemma DirResized(t: Tree, cb: nat, p: nat, cl: seq<nat>, size: nat)
    requires cb >= 1 && TreeOk(t, cb) && SubDir(t, p) && size == |cl| * cb < 0x1_0000_0000_0000_0000
    ensures Describes(t, cb, t.home[p].entry, Resized(t.home[p].entry, size), cl)
  {
    hide NamesApart, LeadsToRoot, CeilDiv, HomeOk;
    assert EntryOk(t, cb, t.home[p].dir, t.home[p].entry);
  }

  /** `l` is the listing of the parent of `p` with the entry of `p` resized. */
  ghost predicate ParentUpdated(t: Tree, p: nat, l: seq<Listed>, size: nat) {
    SubDir(t, p) && Swapped(t.lists[t.home[p].dir], l, t.home[p].entry, [Resized(t.home[p].entry, size)])
  }

  lemma ExtendedOk(t: Tree, cb: nat, p: nat, cl: seq<nat>, l: seq<Listed>)
    requires cb >= 1 && TreeOk(t, cb) && |cl| * cb < 0x1_0000_0000_0000_0000 && ParentUpdated(t, p, l, |cl| * cb)
    ensures TreeOk(Extended(t, cb, p, cl, l), cb)
  {
    hide TreeOk, Describes, CeilDiv, Swapped;
    var h := t.home[p];
    DirResized(t, cb, p, cl, |cl| * cb);
    EntryUpdated(t, cb, h.dir, l, h.entry, Resized(h.entry, |cl| * cb), cl);
  }

  lemma ExtendedMaps(t: Tree, cb: nat, p: nat, cl: seq<nat>, l: seq<Listed>)
    requires ParentUpdated(t, p, l, |cl| * cb) && cl != t.chains[p]
    ensures RoomMade(t, Extended(t, cb, p, cl, l), cb, p, cl)
  {
    hide Swapped;
  }

  lemma ExtendedStored(v: Volume, t: Tree, cb: nat, p: nat, cl: seq<nat>, l: seq<Listed>, nc: nat, fixed: set<nat>, leaked: set<nat>)
    requires SubDir(t, p) && nc !in t.chains
    requires Stored(v, Relisted(Grown(WithNew(t, nc), p, cl), t.home[p].dir, l), fixed, leaked)
    ensures Stored(v, WithNew(Extended(t, cb, p, cl, l), nc), fixed, leaked)
  {
    hide Held, Accounted;
    var t1, t2 := Relisted(Grown(WithNew(t, nc), p, cl), t.home[p].dir, l), WithNew(Extended(t, cb, p, cl, l), nc);
    assert t1.chains == t2.chains && t1.dirs == t2.dirs;
    assert t1.lists == t2.lists;
    StoredRehomed(v, t1, t2, fixed, leaked);
  }

  lemma DirInTree(t: Tree, cb: nat, w: Where)
    requires cb >= 1 && TreeOk(t, cb) && DirWhere(t, w)
    ensures w.first in t.chains && w.first in t.lists
    ensures w.first != t.root ==>
              && SubDir(t, w.first) && t.home[w.first].dir == w.dirCluster && t.home[w.first].entry.at == w.setIndex
              && w.size == |t.chains[w.first]| * cb
  {
    hide NamesApart, Rooted, CeilDiv, HomeOk;
    if w.first != t.root {
      SubDirOf(t, cb, w.first);
      assert EntryOk(t, cb, w.dirCluster, t.home[w.first].entry);
    }
  }

  lemma NothingGrown(t: Tree, cb: nat, p: nat, cl: seq<nat>)
    requires p in t.chains && p in t.lists && cl == t.chains[p]
    ensures Grown(t, p, cl) == t && RoomMade(t, t, cb, p, cl)
  {
    assert t.chains[p := cl] == t.chains;
  }

  lemma RootRoom(t: Tree, cb: nat, cl: seq<nat>)
    requires t.root in t.chains && t.root in t.lists
    ensures RoomMade(t, Grown(t, t.root, cl), cb, t.root, cl)
  {
  }

  lemma SizeInClusters(n: nat, cb: nat)
    requires cb >= 1
    ensures CeilDiv(n * cb, cb) == n
  {
    if n > 0 {
      assert (n - 1) * cb == n * cb - cb;
      CeilDivUnique(n * cb, cb, n);
    } else {
      CeilDivBounds(0, cb);
    }
  }

  /** The size of a directory fits its 64-bit field. */
  lemma SizeOfDir(v: Volume, p: nat, cl: seq<nat>)
    requires v.Valid() && DirOk(v, p, cl)
    ensures |cl| * (v.g.spc * 512) < 0x1_0000_0000_0000_0000 && p < 0x1_0000_0000
  {
    hide Matches;
    ChainBytesBound(v, cl);
    RowsOfChain(v, cl);
    assert p == cl[0] && cl[0] in cl;
  }

  lemma RowsOfDir(v: Volume, p: nat, cl: seq<nat>)
    requires DirOk(v, p, cl)
    ensures Rows(v.heap, cl, v.g.spc) && DirEntries(v, p, cl) == Entries(v.heap, cl, v.g.spc)
  {
  }

  lemma EntriesStay(v: Volume, heap0: seq<seq<Sector>>, t: Tree, fixed: set<nat>, leaked: set<nat>, p: nat, d: nat)
    requires Stored(v, t, fixed, leaked) && p in t.dirs && p in t.chains && d in t.chains && p != d
    requires Rows(heap0, t.chains[p], v.g.spc) && OnlyChanged(heap0, v.heap, t.chains[d])
    ensures DirOk(v, p, t.chains[p]) && DirEntries(v, p, t.chains[p]) == Entries(heap0, t.chains[p], v.g.spc)
  {
    hide Matches, Tidy, List, Entries;
    StoredDir(v, t, fixed, leaked, p);
    OtherEntries(v, heap0, t, fixed, leaked, p, d);
  }

  lemma FilesOfNew(t: Tree, nc: nat, heap: seq<seq<Sector>>, heap': seq<seq<Sector>>)
    requires FilesKept(WithNew(t, nc), heap, heap') && nc !in t.chains
    ensures FilesKept(t, heap, heap')
  {
    forall k | k in t.chains && k !in t.dirs
      ensures SameSectors(heap, heap', t.chains[k])
    {
      assert SameSectors(heap, heap', WithNew(t, nc).chains[k]);
    }
  }

  lemma FilesOfGrown(t: Tree, nc: nat, p: nat, cl: seq<nat>, heap: seq<seq<Sector>>, heap1: seq<seq<Sector>>, heap2: seq<seq<Sector>>)
    requires FilesKept(t, heap, heap1) && FilesKept(Grown(WithNew(t, nc), p, cl), heap1, heap2)
    requires p in t.dirs && nc !in t.chains
    ensures FilesKept(t, heap, heap2)
  {
    FilesKeptThen(t, Grown(WithNew(t, nc), p, cl), heap, heap1, heap2);
  }

  /** A directory below the root that grew without its entry saying so is no part of a file system. */
  lemma UnrecordedGrowth(t: Tree, cb: nat, p: nat, cl: seq<nat>)
    requires cb >= 1 && TreeOk(t, cb) && SubDir(t, p) && |cl| != |t.chains[p]|
    ensures !TreeOk(Grown(t, p, cl), cb)
  {
    hide NamesApart, LeadsToRoot, CeilDiv, HomeOk;
    var t', h := Grown(t, p, cl), t.home[p];
    assert EntryOk(t, cb, h.dir, h.entry);
    if TreeOk(t', cb) {
      assert EntryOk(t', cb, h.dir, h.entry);
      SizeInClusters(|cl|, cb);
      SizeInClusters(|t.chains[p]|, cb);
    }
  }

  /** A directory grown or not, but not recorded: its chain took every free cluster. */
  ghost predicate Unrecorded(t: Tree, t': Tree, p: nat, cl: seq<nat>, free: nat) {
    p in t.chains && t' == Grown(t, p, cl) && |cl| == |t.chains[p]| + free && t.chains[p] <= cl
  }

  /** Find room for `count` entries in the directory at `w`. A directory other than the
    * root that had to grow gets its new length written to its own entry. Without room the free
    * clusters are linked to the directory, and its length stays unrecorded: it is then still
    * part of a file system exactly when it is the root or there was no free cluster.
    */
  method RoomFor(v: Volume, root: nat, w: Where, count: nat, ghost nc: nat, ghost t: Tree, ghost fixed: set<nat>, ghost leaked: set<nat>)
    returns (ok: bool, slot: nat, ghost t': Tree, ghost cl: seq<nat>)
    requires v.g.spc >= 1 && count >= 1 && root == t.root
    requires TreeOk(t, v.g.spc * 512) && DirWhere(t, w)
    requires Stored(v, WithNew(t, nc), fixed, leaked) && nc !in t.chains
    modifies v`disk, v`fat, v`heap, v`used, v`nextFree, v`fatCache, v`fatCacheLba, v`fatCacheValid
    ensures Stored(v, WithNew(t', nc), fixed, leaked) && w.first in t.chains
    ensures ok ==> TreeOk(t', v.g.spc * 512) && RoomMade(t, t', v.g.spc * 512, w.first, cl)
    ensures ok ==> DirOk(v, w.first, cl) && RoomAt(DirEntries(v, w.first, cl), slot, count)
    ensures !ok <==> CrampedDir(old(v.heap), t.chains[w.first], v.g.spc, count, old(v.Supply()))
    ensures !ok ==> Unrecorded(t, t', w.first, cl, old(v.Supply())) && v.Full()
    ensures !ok ==> (TreeOk(t', v.g.spc * 512) <==> w.first == root || old(v.Supply()) == 0)
    ensures FilesKept(t, old(v.heap), v.heap)
  {
    hide FilesKept, Matches, Held, Accounted, Tidy, List, Entries, DirChain, NamesApart, Rooted, CeilDiv, RoomAt, RoomMade, EntryOk, TreeOk, CrampedDir, Deliverable;
    ghost var p, tw := w.first, WithNew(t, nc);
    var cb := v.g.spc * 512;
    var added;
    DirInTree(t, cb, w);
    ok, slot, added, cl := MakeRoom(v, w.first, count, tw, fixed, leaked);
    assert Grown(tw, p, cl).chains == WithNew(Grown(t, p, cl), nc).chains;
    assert Grown(tw, p, cl) == WithNew(Grown(t, p, cl), nc);
    t' := t;
    FilesOfNew(t, nc, old(v.heap), v.heap);
    if !ok {
      t' := Grown(t, p, cl);
      NotRecorded(t, cb, w, cl);
      return;
    }
    if added == 0 {
      assert cl == t.chains[p];
      NothingGrown(t, cb, p, cl);
      return;
    }
    if w.first == root {
      t' := Grown(t, p, cl);
      RootGrown(t, cb, cl);
      RootRoom(t, cb, cl);
      return;
    }
    var total := CeilDiv(w.size, cb) + added;
    SizeInClusters(|t.chains[p]|, cb);
    SizeOfDir(v, p, cl);
    var pf := new File(w.first, total * cb, total * cb, false, false, w.dirCluster, w.setIndex * ENTRY_BYTES, []);
    ghost var heap0 := v.heap;
    RowsOfDir(v, p, cl);
    ghost var l := CommitEntry(v, pf, t.home[p].entry, Grown(tw, p, cl), fixed, leaked);
    t' := Extended(t, cb, p, cl, l);
    ExtendedOk(t, cb, p, cl, l);
    ExtendedMaps(t, cb, p, cl, l);
    ExtendedStored(v, t, cb, p, cl, l, nc, fixed, leaked);
    FilesOfGrown(t, nc, p, cl, old(v.heap), heap0, v.heap);
    EntriesStay(v, heap0, Relisted(Grown(tw, p, cl), w.dirCluster, l), fixed, leaked, p, w.dirCluster);
  }

  lemma NotRecorded(t: Tree, cb: nat, w: Where, cl: seq<nat>)
    requires cb >= 1 && TreeOk(t, cb) && DirWhere(t, w) && w.first in t.chains && t.chains[w.first] <= cl
    ensures TreeOk(Grown(t, w.first, cl), cb) <==> w.first == t.root || |cl| == |t.chains[w.first]|
  {
    hide TreeOk;
    DirInTree(t, cb, w);
    if w.first == t.root {
      RootGrown(t, cb, cl);
    } else if |cl| == |t.chains[w.first]| {
      NothingGrown(t, cb, w.first, cl);
    } else {
      UnrecordedGrowth(t, cb, w.first, cl);
    }
  }

  // ---- the parent of a path ----

  /** The directory a path's last component is in. */
  ghost function ParentDir(t: Tree, root: nat, comps: seq<seq<byte>>): Option<nat>
    requires comps != [] && root in t.lists
  {
    if |comps| == 1 then Some(root)
    else
      match Walk(t, root, comps[..|comps| - 1])
      case None => None
      case Some(h) => if h.entry.info.isDir then Some(h.entry.info.first) else None
  }

  /** A path leads to an entry of its parent. */
  lemma {:induction false} WalkLast(t: Tree, cb: nat, d: nat, comps: seq<seq<byte>>)
    requires cb >= 1 && TreeOk(t, cb) && d in t.dirs && comps != []
    ensures ParentDir(t, d, comps).Some? ==> ParentDir(t, d, comps).value in t.dirs
    ensures Walk(t, d, comps) ==
            match ParentDir(t, d, comps)
            case None => None
            case Some(p) =>
              match FirstNamed(t.lists[p], comps[|comps| - 1])
              case None => None
              case Some(x) => Some(Home(p, x))
    decreases |comps|
  {
    hide NamesApart, SameName, LeadsToRoot, HomeOk, CeilDiv;
    if |comps| > 1 && FirstNamed(t.lists[d], comps[0]).Some? {
      var x := FirstNamed(t.lists[d], comps[0]).value;
      assert EntryOk(t, cb, d, x);
      var init, rest := comps[..|comps| - 1], comps[1..];
      assert init[1..] == rest[..|rest| - 1] && init[0] == comps[0];
      if x.info.isDir {
        WalkLast(t, cb, x.info.first, rest);
      }
    }
  }

  /** The directory the last component of a path string is in, if the string can be cut there. */
  ghost function ParentOf(t: Tree, root: nat, path: seq<byte>): Option<nat>
    requires root in t.lists
  {
    if ParentFits(path) && Split(path) != [] then ParentDir(t, root, Split(path)) else None
  }

  /** Resolve the parent directory of a path and cut off its last component: 1 with the directory's
    * place, 0 if there is none or the path does not fit the buffers.
    */
  method ResolveParent(v: Volume, root: nat, path: seq<byte>, ghost t: Tree, ghost fixed: set<nat>, ghost leaked: set<nat>)
    returns (r: int, w: Where, base: seq<byte>)
    requires FsOk(v, t, fixed, leaked) && root == t.root
    modifies v`fatCache, v`fatCacheLba, v`fatCacheValid
    ensures FsOk(v, t, fixed, leaked) && (r == 0 || r == 1) && root in t.lists && base == Base(path)
    ensures r == 1 <==> ParentOf(t, root, path).Some?
    ensures r == 1 ==> DirWhere(t, w) && w.first == ParentOf(t, root, path).value
    ensures r == 1 ==> Split(path) != [] && Split(path)[|Split(path)| - 1] == Base(path) && ParentFits(path)
  {
    hide Held, Accounted, NamesApart, SameName, LeadsToRoot, HomeOk, CeilDiv, Matches, Split, Cut, Base;
    r, w := 0, RootWhere(root);
    RootListed(t, v.g.spc * 512);
    var cut;
    cut, base := CutPath(path);
    if base == [] || |base| > NAME_MAX || (cut != 0 && cut >= PARENT_MAX) {
      return;
    }
    SplitBase(path);
    RootSplit(path);
    ghost var init := Split(path[..cut]);
    r, w := Resolve(v, root, if cut == 0 then [SLASH] else path[..cut], t, fixed, leaked);
    if r == 1 && init != [] {
      WalkHome(t, v.g.spc * 512, root, init);
    }
    if r == 1 && !w.isDir {
      r := 0;
    }
  }

  lemma RootSplit(path: seq<byte>)
    ensures Split([SLASH]) == Split(path[..0]) == []
  {
  }

  // ---- names ----

  /** Characters a name must not contain (section 7.7.3 of the exFAT specification). */
  predicate Forbidden(c: nat) {
    c < 0x20 || c in {0x22, 0x2A, 0x2F, 0x3A, 0x3C, 0x3E, 0x3F, 0x5C, 0x7C}
  }

  method NameCharsOk(name: seq<nat>) returns (ok: bool)
    ensures ok <==> forall i :: 0 <= i < |name| ==> !Forbidden(name[i])
  {
    for i := 0 to |name|
      invariant forall j :: 0 <= j < i ==> !Forbidden(name[j])
    {
      if Forbidden(name[i]) {
        return false;
      }
    }
    ok := true;
  }

  predicate NameOk(base: seq<byte>)
    requires WellFormed(base)
  {
    && 0 < |base| <= NAME_MAX
    && forall i :: 0 <= i < |Units(base)| ==> !Forbidden(Units(base)[i])
  }

  lemma WellFormedBytes(s: seq<byte>)
    requires WellFormed(s)
    ensures forall i :: 0 <= i < |s| ==> s[i] != 0 && !(0xF0 <= s[i] <= 0xF7)
    decreases |s|
  {
    if s != [] {
      var n := SequenceLength(s);
      WellFormedBytes(s[n..]);
      assert forall i :: n <= i < |s| ==> s[i] == s[n..][i - n];
    }
  }

  /** The UTF-16 form of an acceptable new name. */
  method NewName(base: seq<byte>) returns (name: seq<nat>)
    requires WellFormed(base) && |base| <= NAME_MAX
    ensures if NameOk(base) then name == Units(base) && 0 < |name| <= NAME_MAX else name == []
  {
    hide WellFormed, Units;
    WellFormedBytes(base);
    UnitsEmpty(base);
    name := Utf8ToUtf16(base, NAME_MAX);
    if name != [] {
      var ok := NameCharsOk(name);
      if !ok {
        name := [];
      }
    }
  }

  lemma UnitsEmpty(base: seq<byte>)
    requires WellFormed(base)
    ensures base == [] <==> Units(base) == []
    ensures |Units(base)| <= |base|
  {
  }

  /** A new name is not that of any listed set. */
  lemma FreshWhenNone(l: seq<Listed>, name: seq<byte>)
    requires FirstNamed(l, name) == None
    ensures FreshName(l, name)
  {
    hide SameName;
    forall y | y in l
      ensures !SameName(name, y.info.name) && !SameName(y.info.name, name)
    {
      SameNameSymmetric(name, y.info.name);
    }
  }

  // ---- building a set ----

  /** A set built from a File entry and a Stream Extension is valid and says what they say. */
  lemma BuiltSetIs(es: seq<Entry>, file: Entry, stream: Entry, base: seq<byte>)
    requires WellFormed(base) && 0 < |base| <= NAME_MAX && |Units(base)| > 0
    requires Spells(es, Units(base)) && ChecksumOk(es) && file[0] == TYPE_FILE && stream[0] == TYPE_STREAM
    requires es[0][0] == file[0] && es[0][1] as int == |es| - 1 && forall j :: 4 <= j < 32 ==> es[0][j] == file[j]
    requires es[1][3] as int == |Units(base)| && forall j :: 0 <= j < 32 && !(3 <= j <= 5) ==> es[1][j] == stream[j]
    ensures ValidSet(es) && |es| == 2 + NameEntries(|Units(base)|)
    ensures Parse(es) == Some(Info(base, Rd32(stream, 20), Rd64(stream, 24), Rd64(stream, 8), IsDirectory(file), IsContiguous(stream)))
  {
    hide Checksum, Parse, WellFormed, Units, Rd32, Rd64, Fitting;
    UnitsEmpty(base);
    BuiltSetParses(es, Units(base));
    NameComesBack(base);
    SameField32(es[1], stream, 20);
    SameField64(es[1], stream, 24);
    SameField64(es[1], stream, 8);
    assert Rd16(es[0], 4) == Rd16(file, 4);
    forall k | 1 <= k < |es|
      ensures es[k][0] >= 0xC0
    {
      if k >= 2 {
        assert es[k] == NameEntry(Units(base), k - 2);
      }
    }
  }

  // ---- small facts about the tree ----

  lemma InTree(t: Tree, cb: nat, p: nat)
    requires cb >= 1 && TreeOk(t, cb) && p in t.dirs
    ensures p in t.chains && p in t.lists
  {
  }

  /** A name finds the one entry that has it. */
  lemma FoundByName(l: seq<Listed>, y: Listed, name: seq<byte>)
    requires NamesApart(l) && y in l && SameName(name, y.info.name)
    ensures FirstNamed(l, name) == Some(y)
  {
    var z := FirstNamed(l, name);
    assert z.Some?;
    SameNameChain(name, y.info.name, z.value.info.name);
  }

  lemma SameNameChain(a: seq<byte>, b: seq<byte>, c: seq<byte>)
    requires SameName(a, b) && SameName(a, c)
    ensures SameName(b, c)
  {
  }

  lemma RootListed(t: Tree, cb: nat)
    requires cb >= 1 && TreeOk(t, cb)
    ensures t.root in t.lists && t.root in t.dirs
  {
  }

  /** Only the root has no directory. */
  lemma RootUnlisted(t: Tree, cb: nat, comps: seq<seq<byte>>)
    requires cb >= 1 && TreeOk(t, cb) && t.root in t.lists
    ensures comps != [] && Walk(t, t.root, comps).Some? ==> Walk(t, t.root, comps).value.dir >= 2
  {
    hide FirstNamed;
    if comps != [] && Walk(t, t.root, comps).Some? {
      WalkHome(t, cb, t.root, comps);
      DirsAreClusters(t, cb, Walk(t, t.root, comps).value.dir);
    }
  }
}
