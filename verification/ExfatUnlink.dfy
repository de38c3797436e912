/** Removing files and empty directories. */
module ExfatUnlink {
  import opened Arith
  import opened Bytes
  import opened ExfatVolume
  import opened ExfatContents
  import opened ExfatFile
  import opened ExfatNames
  import opened ExfatEntrySet
  import opened ExfatPaths
  import opened ExfatDirectory
  import opened ExfatDirVolume
  import opened ExfatCursor
  import opened ExfatTree
  import opened ExfatSteps
  import opened ExfatTreeLaws
  import opened ExfatNamespace

  const ERR_NOT_EMPTY: int := -5

  /** Whether a directory lists nothing. */
  method DirIsEmpty(v: Volume, root: nat, d: nat, contiguous: bool, size: nat, ghost cl: seq<nat>) returns (empty: bool)
    requires v.Valid() && DirOk(v, d, cl) && Tidy(DirEntries(v, d, cl), 0)
    requires d != root ==> !contiguous && (size != 0 ==> size == |cl| * v.g.spc * 512)
    modifies v`fatCache, v`fatCacheLba, v`fatCacheValid
    ensures v.Valid() && (empty <==> old(List(DirEntries(v, d, cl), 0)) == [])
  {
    hide Matches, Entries, DirChain, Tidy, NextSet, Parse;
    var c := new DirCursor(v, d, d != root && contiguous, d != root && size != 0, if d == root then 0 else size);
    DirHead(v, d, cl);
    DirLength(v, d, cl);
    ghost var limit := |DirEntries(v, d, cl)|;
    SeesAll(v, d, cl, d != root && size != 0, size);
    CursorStart(c, cl, limit);
    var r, _ := NextFile(c, cl, limit);
    empty := r == 0;
  }

  /** Free every cluster a resolved path owns. */
  method FreeAllocation(v: Volume, w: Where, ghost cl: seq<nat>)
    requires v.Valid() && Chain(v.g, v.fat, v.used, w.first, w.contiguous, cl) && w.first >= 2 && v.g.spc >= 1
    requires |cl| == Max(1, CeilDiv(w.size, v.g.spc * 512))
    modifies v`disk, v`used, v`nextFree, v`fatCache, v`fatCacheLba, v`fatCacheValid
    ensures v.Valid() && v.used == old(v.used) - Elems(cl)
  {
    hide Matches, Distinct, CeilDiv;
    ChainFits(v.g, cl);
    RowsOfChain(v, cl);
    var clusters := CeilDiv(w.size, v.g.spc * 512) % 0x1_0000_0000;
    if clusters == 0 {
      clusters := 1;
    }
    if w.contiguous {
      forall i | 0 <= i < clusters
        ensures cl[i] == w.first + i && v.g.IsData(cl[i])
      {
        ContiguousAt(v.fat, cl, i);
        assert cl[i] in cl;
      }
      for i := 0 to clusters
        invariant v.Valid() && v.used == old(v.used) - Elems(cl[..i])
      {
        ElemsPrefix(cl, i);
        v.FreeCluster(w.first + i);
      }
      assert cl[..clusters] == cl;
    } else {
      v.FreeChain(w.first, clusters, cl);
    }
  }

  lemma NothingReleased(t: Tree, k: nat)
    requires k !in t.chains && k !in t.dirs && k !in t.lists && k !in t.home
    ensures Released(t, k) == t
  {
  }

  /** Everything but a freed chain is held as before. */
  lemma AfterRelease(v: Volume, used0: set<nat>, t: Tree, k: nat, fixed: set<nat>, leaked: set<nat>)
    requires v.Valid() && Held(v.g, v.fat, used0, v.heap, t) && Accounted(used0, t.chains, fixed, leaked)
    requires k in t.chains && v.used == used0 - Elems(t.chains[k]) && Kept(v.fat, v.heap, v.fat, v.heap, v.used)
    ensures Stored(v, Released(t, k), fixed, leaked)
  {
    hide Matches, DirHeld, Chain, Kept;
    AccountsAfterRelease(used0, t.chains, fixed, leaked, k);
    OthersStillHeld(v.g, v.fat, used0, v.heap, t, v.fat, v.used, v.heap, Released(t, k), k, fixed, leaked);
  }

  /** What an entry of the tree owns on the disk. */
  lemma ChainOfEntry(v: Volume, t: Tree, fixed: set<nat>, leaked: set<nat>, d: nat, x: Listed)
    requires FsOk(v, t, fixed, leaked) && d in t.dirs && d in t.lists && x in t.lists[d] && x.info.first >= 2
    ensures x.info.first in t.chains
    ensures Chain(v.g, v.fat, v.used, x.info.first, x.info.contiguous, t.chains[x.info.first])
    ensures |t.chains[x.info.first]| == Max(1, CeilDiv(x.info.size, v.g.spc * 512))
  {
    hide Matches, Accounted, Tidy, List, CeilDiv, NamesApart, LeadsToRoot, HomeOk, Distinct, Linked;
    var k, cb := x.info.first, v.g.spc * 512;
    assert EntryOk(t, cb, d, x);
    assert ChainHeld(v.g, v.fat, v.used, v.heap, t, k);
    if x.info.isDir {
      SizeInClusters(|t.chains[k]|, cb);
    }
  }

  /** Entries of `t'` are entries of `t`. */
  ghost predicate Within(t: Tree, t': Tree) {
    && t.root == t'.root && t'.dirs <= t.dirs && t.lists.Keys == t.dirs && t'.lists.Keys == t'.dirs
    && (forall d :: d in t.dirs ==> NamesApart(t.lists[d]))
    && forall d, x :: d in t'.dirs && x in t'.lists[d] ==> x in t.lists[d]
  }

  /** After a removal a path leads where it led, or nowhere. */
  lemma {:induction false} WalkWithin(t: Tree, t': Tree, cb: nat, d: nat, comps: seq<seq<byte>>)
    requires cb >= 1 && TreeOk(t', cb) && Within(t, t') && d in t'.dirs && comps != [] && Walk(t', d, comps).Some?
    ensures Walk(t, d, comps) == Walk(t', d, comps)
    decreases |comps|
  {
    hide NamesApart, SameName, LeadsToRoot, HomeOk, CeilDiv;
    var x := FirstNamed(t'.lists[d], comps[0]).value;
    assert EntryOk(t', cb, d, x);
    FoundByName(t.lists[d], x, comps[0]);
    if |comps| > 1 {
      WalkWithin(t, t', cb, x.info.first, comps[1..]);
    }
  }

  /** The tree without entry `x` of directory `d` and without what it owned. */
  function Unlisted(t: Tree, d: nat, l: seq<Listed>, x: Listed): Tree {
    Relisted(Released(t, x.info.first), d, l)
  }

  /** A removed path leads nowhere. */
  lemma RemovedPath(t: Tree, cb: nat, comps: seq<seq<byte>>, d: nat, l: seq<Listed>, x: Listed)
    requires cb >= 1 && TreeOk(t, cb) && TreeOk(Unlisted(t, d, l, x), cb) && comps != []
    requires d in t.dirs && d in t.lists && x in t.lists[d] && Joined(l, t.lists[d], x) && x.info.first != d
    requires Walk(t, t.root, comps) == Some(Home(d, x))
    ensures t.root in Unlisted(t, d, l, x).lists && Walk(Unlisted(t, d, l, x), t.root, comps) == None
  {
    hide NamesApart, SameName, LeadsToRoot, HomeOk, CeilDiv, EntryOk, Joined, FirstNamed;
    var t' := Unlisted(t, d, l, x);
    JoinedMembers(l, t.lists[d], x);
    DroppedNames(t.lists[d], l, x);
    assert Within(t, t');
    if Walk(t', t.root, comps).Some? {
      WalkWithin(t, t', cb, t.root, comps);
      WalkHome(t', cb, t.root, comps);
    }
  }

  /** What removing a path comes to. */
  ghost function UnlinkResult(t: Tree, comps: seq<seq<byte>>): int
    requires t.root in t.lists
  {
    if comps == [] || Walk(t, t.root, comps) == None then ERR_INVALID
    else
      var x := Walk(t, t.root, comps).value.entry;
      if x.info.isDir && x.info.first in t.lists && t.lists[x.info.first] != [] then ERR_NOT_EMPTY else 0
  }

  /** Free what the entry at `w` owns and delete its set. */
  method Remove(v: Volume, w: Where, ghost x: Listed, ghost t: Tree, ghost fixed: set<nat>, ghost leaked: set<nat>)
    returns (ghost l: seq<Listed>)
    requires FsOk(v, t, fixed, leaked) && w.dirCluster in t.dirs && w.dirCluster in t.lists && x in t.lists[w.dirCluster]
    requires w == WhereOf(w.dirCluster, x)
    requires x.info.isDir ==> x.info.first in t.lists && t.lists[x.info.first] == []
    modifies v`disk, v`heap, v`used, v`nextFree, v`fatCache, v`fatCacheLba, v`fatCacheValid
    ensures FsOk(v, Unlisted(t, w.dirCluster, l, x), fixed, leaked) && Joined(l, t.lists[w.dirCluster], x)
    ensures w.dirCluster != x.info.first
    ensures FilesKept(Released(t, x.info.first), old(v.heap), v.heap)
  {
    hide Matches, Held, Accounted, Chain, TreeOk, Joined, FilesKept, CeilDiv, Kept;
    ghost var cb, d, k := v.g.spc * 512, w.dirCluster, w.first;
    DropTarget(t, cb, d, x);
    ghost var t1 := Released(t, k);
    if w.first >= 2 {
      ChainOfEntry(v, t, fixed, leaked, d, x);
      ghost var used0 := v.used;
      KeptSelf(v);
      FreeAllocation(v, w, t.chains[k]);
      KeptFewer(v.fat, v.heap, v.fat, used0, v.used);
      AfterRelease(v, used0, t, k, fixed, leaked);
    } else {
      NothingReleased(t, k);
    }
    assert d in t1.dirs && d in t1.lists && t1.lists[d] == t.lists[d];
    l := DropSet(v, w.dirCluster, w.setIndex, w.setCount, x, t1, fixed, leaked);
    EntryDropped(t, cb, d, l, x);
  }

  lemma DropTarget(t: Tree, cb: nat, d: nat, x: Listed)
    requires cb >= 1 && TreeOk(t, cb) && d in t.dirs && x in t.lists[d]
    requires x.info.isDir ==> x.info.first in t.lists && t.lists[x.info.first] == []
    ensures x.info.first != d
    ensures x.info.first < 2 ==>
              x.info.first !in t.chains && x.info.first !in t.dirs && x.info.first !in t.lists && x.info.first !in t.home
  {
    hide NamesApart, LeadsToRoot, CeilDiv;
    assert EntryOk(t, cb, d, x);
    DirsAreClusters(t, cb, d);
    if x.info.first in t.dirs {
      DirsAreClusters(t, cb, x.info.first);
    }
    if x.info.first in t.home {
      assert HomeOk(t, x.info.first);
    }
  }

  /** Remove a file or an empty directory. On success the path leads nowhere, the parent has
    * lost exactly that entry, the clusters it owned are free, and everything else is as before.
    */
  method Unlink(v: Volume, root: nat, path: seq<byte>, ghost t: Tree, ghost fixed: set<nat>, ghost leaked: set<nat>)
    returns (r: int, ghost t': Tree)
    requires FsOk(v, t, fixed, leaked) && root == t.root
    modifies v`disk, v`heap, v`used, v`nextFree, v`fatCache, v`fatCacheLba, v`fatCacheValid
    ensures FsOk(v, t', fixed, leaked) && root in t.lists && r == UnlinkResult(t, Split(path))
    ensures r != 0 ==> t' == t && v.heap == old(v.heap) && v.used == old(v.used)
    ensures r == 0 ==> Removed(t, t', Split(path)) && FilesKept(Released(t, Walk(t, root, Split(path)).value.entry.info.first), old(v.heap), v.heap)
  {
    hide Split, Matches, Held, Accounted, TreeOk, FilesKept, FirstNamed, DirChain, Tidy, List, Entries, SameName, Joined;
    t' := t;
    ghost var cb, comps := v.g.spc * 512, Split(path);
    RootListed(t, cb);
    var er, w := Resolve(v, root, path, t, fixed, leaked);
    if er == 0 || w.dirCluster < 2 {
      RootUnlisted(t, cb, comps);
      return ERR_INVALID, t;
    }
    ghost var x := Walk(t, root, comps).value.entry;
    WalkHome(t, cb, root, comps);
    InTree(t, cb, w.dirCluster);
    if w.isDir {
      EntryDir(t, cb, w.dirCluster, x);
      StoredDir(v, t, fixed, leaked, w.first);
      SizedDir(|t.chains[w.first]|, v.g.spc);
      var empty := DirIsEmpty(v, root, w.first, w.contiguous, w.size, t.chains[w.first]);
      if !empty {
        return ERR_NOT_EMPTY, t;
      }
    }
    ghost var l := Remove(v, w, x, t, fixed, leaked);
    t' := Unlisted(t, w.dirCluster, l, x);
    RemovedPath(t, cb, comps, w.dirCluster, l, x);
    r := 0;
  }

  /** `t'` is `t` without what the path named. */
  ghost predicate Removed(t: Tree, t': Tree, comps: seq<seq<byte>>) {
    && comps != [] && t.root in t.lists && Walk(t, t.root, comps).Some? && t.root in t'.lists
    && var h := Walk(t, t.root, comps).value;
       && h.dir in t.lists && h.dir in t'.lists && Joined(t'.lists[h.dir], t.lists[h.dir], h.entry)
       && t' == Unlisted(t, h.dir, t'.lists[h.dir], h.entry)
       && Walk(t', t.root, comps) == None
  }

  lemma EntryDir(t: Tree, cb: nat, d: nat, x: Listed)
    requires cb >= 1 && EntryOk(t, cb, d, x) && x.info.isDir
    ensures x.info.first in t.dirs && x.info.first in t.chains && x.info.size == |t.chains[x.info.first]| * cb && !x.info.contiguous
  {
  }
}
