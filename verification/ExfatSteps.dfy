/** The steps the namespace operations are made of, each stated on the tree: making room in
  * a directory, writing, deleting and patching an entry set, and taking the first cluster
  * of a new directory.
  */
module ExfatSteps {
  import opened Arith
  import opened Bytes
  import opened ExfatScan
  import opened ExfatVolume
  import opened ExfatContents
  import opened ExfatFile
  import opened ExfatNames
  import opened ExfatEntrySet
  import opened ExfatDirectory
  import opened ExfatDirVolume
  import opened ExfatTree

  lemma StoredDir(v: Volume, t: Tree, fixed: set<nat>, leaked: set<nat>, d: nat)
    requires Stored(v, t, fixed, leaked) && d in t.dirs
    ensures d in t.chains && d in t.lists && DirOk(v, d, t.chains[d])
    ensures Tidy(DirEntries(v, d, t.chains[d]), 0) && List(DirEntries(v, d, t.chains[d]), 0) == t.lists[d]
    ensures |DirEntries(v, d, t.chains[d])| == |t.chains[d]| * v.g.spc * 16
  {
    hide Tidy, List, Matches;
    assert ChainHeld(v.g, v.fat, v.used, v.heap, t, d);
  }

  /** The sectors of the files of `t` are the same. */
  ghost predicate FilesKept(t: Tree, heap: seq<seq<Sector>>, heap': seq<seq<Sector>>) {
    && |heap'| == |heap|
    && forall k :: k in t.chains && k !in t.dirs ==> SameSectors(heap, heap', t.chains[k])
  }

  ghost predicate SameSectors(heap: seq<seq<Sector>>, heap': seq<seq<Sector>>, cl: seq<nat>) {
    && |heap'| == |heap|
    && forall c :: c in cl && c < |heap| ==> heap'[c] == heap[c]
  }

  lemma FilesKeptSelf(t: Tree, heap: seq<seq<Sector>>)
    ensures FilesKept(t, heap, heap)
  {
  }

  lemma FilesKeptThen(t: Tree, t1: Tree, heap: seq<seq<Sector>>, heap1: seq<seq<Sector>>, heap2: seq<seq<Sector>>)
    requires FilesKept(t, heap, heap1) && FilesKept(t1, heap1, heap2)
    requires forall k :: k in t.chains && k !in t.dirs ==> k in t1.chains && k !in t1.dirs && t1.chains[k] == t.chains[k]
    ensures FilesKept(t, heap, heap2)
  {
    forall k | k in t.chains && k !in t.dirs
      ensures SameSectors(heap, heap2, t.chains[k])
    {
      assert SameSectors(heap, heap1, t.chains[k]) && SameSectors(heap1, heap2, t1.chains[k]);
    }
  }

  /** Writing a directory's clusters leaves the files alone. */
  lemma DirWriteKeepsFiles(t: Tree, used: set<nat>, fixed: set<nat>, leaked: set<nat>, d: nat,
                           heap: seq<seq<Sector>>, heap': seq<seq<Sector>>)
    requires Accounted(used, t.chains, fixed, leaked) && d in t.dirs && d in t.chains && OnlyChanged(heap, heap', t.chains[d])
    ensures FilesKept(t, heap, heap')
  {
    forall k | k in t.chains && k !in t.dirs
      ensures SameSectors(heap, heap', t.chains[k])
    {
      assert Elems(t.chains[k]) !! Elems(t.chains[d]);
      assert forall c :: c in t.chains[k] ==> c in Elems(t.chains[k]);
      assert forall c :: c in t.chains[d] ==> c in Elems(t.chains[d]);
    }
  }

  /** So does changing nothing but one directory and free clusters. */
  lemma KeptKeepsFiles(t: Tree, used: set<nat>, fixed: set<nat>, leaked: set<nat>, cl: seq<nat>,
                       fat: seq<nat>, heap: seq<seq<Sector>>, fat': seq<nat>, heap': seq<seq<Sector>>)
    requires Accounted(used, t.chains, fixed, leaked) && Kept(fat, heap, fat', heap', used - Elems(cl))
    requires cl == [] || exists d :: d in t.dirs && d in t.chains && cl == t.chains[d]
    ensures FilesKept(t, heap, heap')
  {
    forall k | k in t.chains && k !in t.dirs
      ensures SameSectors(heap, heap', t.chains[k])
    {
      forall c | c in t.chains[k] && c < |heap|
        ensures heap'[c] == heap[c]
      {
        assert c in Elems(t.chains[k]) && c in Owned(t.chains);
        assert c in used - Elems(cl);
      }
    }
  }

  /** The tree after directory `d` grew to the clusters `cl`. */
  function Grown(t: Tree, d: nat, cl: seq<nat>): Tree {
    t.(chains := t.chains[d := cl])
  }

  /** The tree after directory `d` lists `l`. */
  function Relisted(t: Tree, d: nat, l: seq<Listed>): Tree {
    t.(lists := t.lists[d := l])
  }

  /** Find room for `count` entries in directory `d`, growing it if needed. */
  method MakeRoom(v: Volume, d: nat, count: nat, ghost t: Tree, ghost fixed: set<nat>, ghost leaked: set<nat>)
    returns (ok: bool, index: nat, added: nat, ghost cl: seq<nat>)
    requires Stored(v, t, fixed, leaked) && d in t.dirs && count >= 1
    modifies v`disk, v`fat, v`heap, v`used, v`nextFree, v`fatCache, v`fatCacheLba, v`fatCacheValid
    ensures Stored(v, Grown(t, d, cl), fixed, leaked) && d in t.chains && t.chains[d] <= cl && DirOk(v, d, cl)
    ensures ok ==> |cl| == |t.chains[d]| + added
    ensures ok ==> RoomAt(DirEntries(v, d, cl), index, count)
    ensures Rows(old(v.heap), t.chains[d], v.g.spc) && Entries(old(v.heap), t.chains[d], v.g.spc) <= DirEntries(v, d, cl)
    ensures !ok <==> CrampedDir(old(v.heap), t.chains[d], v.g.spc, count, old(v.Supply()))
    ensures !ok ==> |cl| == |t.chains[d]| + old(v.Supply()) && v.Full()
    ensures FilesKept(t, old(v.heap), v.heap)
  {
    hide Matches, Accounted, Tidy, List, Entries, RoomAt, Kept, FilesKept, Cramped, Deliverable, Chain;
    StoredDir(v, t, fixed, leaked, d);
    ghost var fat0, used0, heap0 := v.fat, v.used, v.heap;
    ok, index, added, cl := FindFree(v, d, count, t.chains[d]);
    AfterGrowth(v, fat0, used0, heap0, t, d, cl, fixed, leaked);
    KeptKeepsFiles(t, used0, fixed, leaked, t.chains[d], fat0, heap0, v.fat, v.heap);
  }

  /** The set at `at` parses to `x`, next to the listing it joins. */
  ghost predicate Joined(l: seq<Listed>, l': seq<Listed>, x: Listed) {
    exists before, after :: l == before + after && l' == before + [x] + after
  }

  /** Write a valid set into free entries of directory `d`. */
  method PutSet(v: Volume, d: nat, slot: nat, fileSet: seq<Entry>, ghost t: Tree, ghost fixed: set<nat>, ghost leaked: set<nat>)
    returns (ghost l: seq<Listed>)
    requires Stored(v, t, fixed, leaked) && d in t.dirs && d in t.chains && d in t.lists && DirOk(v, d, t.chains[d])
    requires ValidSet(fileSet) && RoomAt(DirEntries(v, d, t.chains[d]), slot, |fileSet|)
    modifies v`disk, v`heap, v`fatCache, v`fatCacheLba, v`fatCacheValid
    ensures Stored(v, Relisted(t, d, l), fixed, leaked)
    ensures Joined(t.lists[d], l, Listed(Parse(fileSet).value, slot, |fileSet|))
    ensures FilesKept(t, old(v.heap), v.heap)
    ensures DirOk(v, d, t.chains[d]) && DirEntries(v, d, t.chains[d]) == Overwrite(old(DirEntries(v, d, t.chains[d])), slot, fileSet)
  {
    hide Matches, Accounted, Tidy, List, DirChain, Entries, Parse, Overwrite, FilesKept;
    StoredDir(v, t, fixed, leaked, d);
    ghost var heap0, es := v.heap, DirEntries(v, d, t.chains[d]);
    ghost var before, after := SetInserted(es, slot, fileSet);
    WriteSet(v, d, slot, fileSet, t.chains[d]);
    l := List(Overwrite(es, slot, fileSet), 0);
    AfterRewrite(v, heap0, t, d, l, fixed, leaked);
    DirWriteKeepsFiles(t, v.used, fixed, leaked, d, heap0, v.heap);
  }

  /** Delete a listed set of directory `d`. */
  method DropSet(v: Volume, d: nat, at: nat, count: nat, ghost x: Listed, ghost t: Tree, ghost fixed: set<nat>, ghost leaked: set<nat>)
    returns (ghost l: seq<Listed>)
    requires Stored(v, t, fixed, leaked) && d in t.dirs && d in t.lists && x in t.lists[d]
    requires at == x.at && count == x.count
    modifies v`disk, v`heap, v`fatCache, v`fatCacheLba, v`fatCacheValid
    ensures Stored(v, Relisted(t, d, l), fixed, leaked)
    ensures Joined(l, t.lists[d], x)
    ensures FilesKept(t, old(v.heap), v.heap)
  {
    hide Matches, Accounted, Tidy, List, DirChain, Entries, Deleted, FilesKept;
    StoredDir(v, t, fixed, leaked, d);
    ghost var heap0, es := v.heap, DirEntries(v, d, t.chains[d]);
    ghost var before, after := SetDeleted(es, x);
    DeleteSet(v, d, at, count, t.chains[d]);
    l := List(Deleted(es, at, count), 0);
    AfterRewrite(v, heap0, t, d, l, fixed, leaked);
    DirWriteKeepsFiles(t, v.used, fixed, leaked, d, heap0, v.heap);
  }

  /** Rewrite a listed set of directory `d` in place by a valid set of the same length. */
  method ReplaceSet(v: Volume, d: nat, at: nat, fileSet: seq<Entry>, ghost x: Listed, ghost t: Tree, ghost fixed: set<nat>, ghost leaked: set<nat>)
    returns (ghost l: seq<Listed>)
    requires Stored(v, t, fixed, leaked) && d in t.dirs && d in t.lists && x in t.lists[d]
    requires at == x.at && |fileSet| == x.count && ValidSet(fileSet)
    modifies v`disk, v`heap, v`fatCache, v`fatCacheLba, v`fatCacheValid
    ensures Stored(v, Relisted(t, d, l), fixed, leaked)
    ensures Swapped(t.lists[d], l, x, [Listed(Parse(fileSet).value, at, |fileSet|)])
    ensures FilesKept(t, old(v.heap), v.heap)
  {
    hide Matches, Accounted, Tidy, List, DirChain, Entries, Parse, Overwrite, FilesKept;
    StoredDir(v, t, fixed, leaked, d);
    ghost var heap0, es := v.heap, DirEntries(v, d, t.chains[d]);
    ghost var before, after := SetRewritten(es, x, fileSet);
    WriteSet(v, d, at, fileSet, t.chains[d]);
    l := List(Overwrite(es, at, fileSet), 0);
    AfterRewrite(v, heap0, t, d, l, fixed, leaked);
    DirWriteKeepsFiles(t, v.used, fixed, leaked, d, heap0, v.heap);
  }

  /** An entry with the metadata of an open file. */
  function Committed(x: Listed, first: nat, size: nat, valid: nat, contiguous: bool): Listed {
    x.(info := x.info.(first := first, size := size, valid := valid, contiguous := contiguous))
  }

  /** Commit the metadata of `f` into the set `x` of its directory. */
  method CommitEntry(v: Volume, f: File, ghost x: Listed, ghost t: Tree, ghost fixed: set<nat>, ghost leaked: set<nat>)
    returns (ghost l: seq<Listed>)
    requires Stored(v, t, fixed, leaked) && f.dirCluster in t.dirs && f.dirCluster in t.lists && x in t.lists[f.dirCluster]
    requires f.setOffset == x.at * ENTRY_BYTES
    requires f.valid < 0x1_0000_0000_0000_0000 && f.size < 0x1_0000_0000_0000_0000 && f.first < 0x1_0000_0000
    modifies v`disk, v`heap, v`fatCache, v`fatCacheLba, v`fatCacheValid
    ensures Stored(v, Relisted(t, f.dirCluster, l), fixed, leaked)
    ensures Swapped(t.lists[f.dirCluster], l, x, [Committed(x, f.first, f.size, f.valid, f.contiguous)])
    ensures FilesKept(t, old(v.heap), v.heap)
    ensures f.dirCluster in t.chains && OnlyChanged(old(v.heap), v.heap, t.chains[f.dirCluster])
  {
    hide Matches, Accounted, Tidy, List, DirChain, Entries, FilesKept;
    ghost var d := f.dirCluster;
    StoredDir(v, t, fixed, leaked, d);
    ghost var heap0 := v.heap;
    var r := EntryMetaCommit(v, f, t.chains[d], x);
    l := List(DirEntries(v, d, t.chains[d]), 0);
    AfterRewrite(v, heap0, t, d, l, fixed, leaked);
    DirWriteKeepsFiles(t, v.used, fixed, leaked, d, heap0, v.heap);
  }

  /** The tree with a new empty directory at cluster `nc`. */
  function WithDir(t: Tree, nc: nat): Tree {
    t.(chains := t.chains[nc := [nc]], dirs := t.dirs + {nc}, lists := t.lists[nc := []])
  }

  /** Take and zero the first cluster of a new directory. */
  method NewDirCluster(v: Volume, ghost t: Tree, ghost fixed: set<nat>, ghost leaked: set<nat>) returns (nc: nat)
    requires Stored(v, t, fixed, leaked)
    modifies v`disk, v`fat, v`heap, v`used, v`nextFree, v`fatCache
    ensures nc == 0 ==> Stored(v, t, fixed, leaked) && v.used == old(v.used) && v.Full() && v.Supply() == old(v.Supply())
    ensures nc != 0 ==> nc !in t.chains && v.g.IsData(nc) && Stored(v, WithDir(t, nc), fixed, leaked)
    ensures nc != 0 ==> v.used == old(v.used) + {nc} && nc !in old(v.used) && old(v.Supply()) == 1 + v.Supply()
    ensures FilesKept(t, old(v.heap), v.heap) && (if nc == 0 then v.heap == old(v.heap) else OnlyChanged(old(v.heap), v.heap, [nc]))
  {
    hide Matches, Tidy, List, Kept, FilesKept;
    ghost var fat0, used0, heap0 := v.fat, v.used, v.heap;
    KeptSelf(v);
    nc := v.AllocCluster();
    if nc == 0 {
      FilesKeptSelf(t, v.heap);
      return;
    }
    RowOf(v, nc);
    ghost var fat1 := v.fat;
    v.FatSet(nc, FAT_EOC);
    ClusterZero(v, nc);
    RowsOfChain(v, [nc]);
    ChainOne(v.g, v.fat, v.used, nc);
    KeptFewer(fat0, heap0, fat0, used0, used0 - Elems([]));
    KeptGrow(fat0, heap0, fat0, heap0, v.fat, v.heap, used0, nc, nc);
    EmptyDirHeld(v, nc);
    HeadsUsed(t, used0, v.g, fat0, heap0, fixed, leaked);
    AfterNewDir(v, fat0, used0, heap0, t, nc, fixed, leaked);
    KeptKeepsFiles(t, used0, fixed, leaked, [], fat0, heap0, v.fat, v.heap);
  }

  /** The first cluster of a chain is in use. */
  lemma HeadsUsed(t: Tree, used: set<nat>, g: Geometry, fat: seq<nat>, heap: seq<seq<Sector>>, fixed: set<nat>, leaked: set<nat>)
    requires Held(g, fat, used, heap, t) && Accounted(used, t.chains, fixed, leaked)
    ensures forall k :: k in t.chains ==> k in used
  {
    hide Tidy, List;
    forall k | k in t.chains
      ensures k in used
    {
      assert ChainHeld(g, fat, used, heap, t, k);
      assert t.chains[k][0] == k;
      OwnedHas(t.chains, k);
      assert k in Elems(t.chains[k]);
    }
  }

  /** A zeroed cluster is an empty directory. */
  lemma EmptyDirHeld(v: Volume, nc: nat)
    requires v.Valid() && Chain(v.g, v.fat, v.used, nc, false, [nc]) && Rows(v.heap, [nc], v.g.spc) && v.g.spc >= 1
    requires Zeroed(v.heap, nc) && nc < |v.fat| && v.fat[nc] == FAT_EOC
    ensures DirHeld(v.g, v.fat, v.used, v.heap, nc, [nc], [])
  {
    hide Matches;
    assert [] + [nc] == [nc];
    EntriesAppend(v.heap, [], nc, v.g.spc);
    assert Entries(v.heap, [], v.g.spc) == [];
    var es := Entries(v.heap, [nc], v.g.spc);
    assert es == ZeroEntries(v.g.spc * 16);
    TidyEnd(es, 0);
  }

  lemma AfterNewDir(v: Volume, fat0: seq<nat>, used0: set<nat>, heap0: seq<seq<Sector>>, t: Tree, nc: nat,
                    fixed: set<nat>, leaked: set<nat>)
    requires v.Valid() && Held(v.g, fat0, used0, heap0, t) && Accounted(used0, t.chains, fixed, leaked)
    requires nc !in t.chains && nc !in used0 && v.used == used0 + {nc}
    requires Kept(fat0, heap0, v.fat, v.heap, used0) && DirHeld(v.g, v.fat, v.used, v.heap, nc, [nc], [])
    ensures Stored(v, WithDir(t, nc), fixed, leaked)
  {
    hide DirHeld, Matches, Kept;
    var t' := WithDir(t, nc);
    AccountsAfterChange(used0, t.chains, fixed, leaked, nc, [], [nc], {}, v.used);
    assert leaked + {} == leaked;
    assert t'.chains - {nc} == t.chains - {nc} && t'.lists - {nc} == t.lists - {nc};
    assert used0 - {} == used0;
    OthersStillHeld(v.g, fat0, used0, heap0, t, v.fat, v.used, v.heap, t', nc, fixed, leaked);
  }
}
