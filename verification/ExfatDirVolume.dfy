/** Directories on the volume: their entries are the bytes of a FAT-chained run of clusters,
  * read and written one 32-byte entry at a time.
  */
module ExfatDirVolume {
  import opened Arith
  import opened Bytes
  import opened ExfatScan
  import opened ExfatVolume
  import opened ExfatContents
  import opened ExfatFile
  import opened ExfatEntrySet
  import opened ExfatDirectory

  const DIR_ENTRIES_PER_SEC: nat := 16

  // ---- entries of a chain ----

  /** Bytes cut into 32-byte entries. */
  function EntriesOf(b: seq<byte>): (es: seq<Entry>)
    ensures |es| == |b| / 32
    ensures forall i :: 0 <= i < |es| ==> es[i] == b[i * 32..i * 32 + 32]
  {
    seq(|b| / 32, i requires 0 <= i < |b| / 32 => b[i * 32..i * 32 + 32])
  }

  lemma EntryPut(b: seq<byte>, i: nat, e: Entry)
    requires i < |b| / 32
    ensures EntriesOf(Put(b, i * 32, e)) == Overwrite(EntriesOf(b), i, [e])
  {
    var l, r := EntriesOf(Put(b, i * 32, e)), Overwrite(EntriesOf(b), i, [e]);
    forall j | 0 <= j < |l|
      ensures l[j] == r[j]
    {
      assert Put(b, i * 32, e)[j * 32..j * 32 + 32] == if j == i then e else b[j * 32..j * 32 + 32];
    }
  }

  /** The entries of the directory whose clusters are `cl`. */
  ghost function Entries(heap: seq<seq<Sector>>, cl: seq<nat>, spc: nat): (es: seq<Entry>)
    requires Rows(heap, cl, spc)
    ensures |es| == |cl| * spc * 16
  {
    BytesLength(heap, cl, spc);
    EntriesOf(ChainBytes(heap, cl, spc))
  }

  /** Entry `e` of sector `s` of the `k`-th cluster. */
  lemma EntryInSector(heap: seq<seq<Sector>>, cl: seq<nat>, spc: nat, k: nat, s: nat, e: nat)
    requires Rows(heap, cl, spc) && k < |cl| && s < spc && e < 16
    ensures (k * spc + s) * 16 + e < |cl| * spc * 16
    ensures Entries(heap, cl, spc)[(k * spc + s) * 16 + e] == heap[cl[k]][s][e * 32..e * 32 + 32]
  {
    SectorSlice(heap, cl, spc, k, s);
    var b, j := ChainBytes(heap, cl, spc), k * spc + s;
    assert b[j * 512..j * 512 + 512][e * 32..e * 32 + 32] == b[j * 512 + e * 32..j * 512 + e * 32 + 32];
    assert (j * 16 + e) * 32 == j * 512 + e * 32;
  }

  /** The cluster and sector entry `index` lives in. */
  lemma LocateEntry(index: nat, n: nat, spc: nat)
    requires index < n * spc * 16
    ensures spc >= 1
    ensures var k, s := index / (spc * 16), index % (spc * 16) / 16;
            && k < n && s < spc && index % (spc * 16) % 16 == index % 16
            && index == (k * spc + s) * 16 + index % 16
  {
    SectorIndex(index / 16, n, spc);
    SplitIndex(index, spc);
  }

  // ---- one entry ----

  /** A FAT-chained directory starting at cluster `first`. */
  ghost predicate DirOk(v: Volume, first: nat, cl: seq<nat>)
    reads v
  {
    DirChain(v.g, v.fat, v.used, v.heap, first, cl)
  }

  ghost predicate DirChain(g: Geometry, fat: seq<nat>, used: set<nat>, heap: seq<seq<Sector>>, first: nat, cl: seq<nat>) {
    && Chain(g, fat, used, first, false, cl) && cl != []
    && g.spc >= 1 && Rows(heap, cl, g.spc)
    && cl[|cl| - 1] < |fat| && Ends(fat[cl[|cl| - 1]])
  }

  ghost function DirEntries(v: Volume, first: nat, cl: seq<nat>): seq<Entry>
    requires DirOk(v, first, cl)
    reads v
  {
    Entries(v.heap, cl, v.g.spc)
  }

  /** Walk the FAT to the cluster that holds an entry. */
  method DirCluster(v: Volume, dirCluster: nat, clIdx: nat, ghost cl: seq<nat>) returns (c: nat)
    requires v.Valid() && DirOk(v, dirCluster, cl) && clIdx < |cl|
    modifies v`fatCache, v`fatCacheLba, v`fatCacheValid
    ensures v.Valid() && c == cl[clIdx]
  {
    hide Matches;
    c := dirCluster;
    for i := 0 to clIdx
      invariant v.Valid() && c == cl[i]
    {
      assert cl[i] in cl && cl[i + 1] == v.fat[cl[i]];
      c := v.FatNext(c);
    }
  }

  /** Read entry `index` of a directory. */
  method ReadEntry(v: Volume, dirCluster: nat, index: nat, ghost cl: seq<nat>) returns (ent: Entry)
    requires v.Valid() && DirOk(v, dirCluster, cl) && index < |cl| * v.g.spc * 16
    modifies v`fatCache, v`fatCacheLba, v`fatCacheValid
    ensures v.Valid() && DirOk(v, dirCluster, cl) && DirEntries(v, dirCluster, cl) == old(DirEntries(v, dirCluster, cl))
    ensures index < |DirEntries(v, dirCluster, cl)| && ent == DirEntries(v, dirCluster, cl)[index]
  {
    hide Matches, DirChain, Entries;
    var perCluster := v.g.spc * DIR_ENTRIES_PER_SEC;
    LocateEntry(index, |cl|, v.g.spc);
    var k, inCl := index / perCluster, index % perCluster;
    ent := FetchEntry(v, dirCluster, index, k, inCl / 16, inCl % 16, cl);
  }

  /** Read entry `e` of sector `s` of the `k`-th cluster. */
  method FetchEntry(v: Volume, dirCluster: nat, ghost index: nat, k: nat, s: nat, e: nat, ghost cl: seq<nat>) returns (ent: Entry)
    requires v.Valid() && DirOk(v, dirCluster, cl) && k < |cl| && s < v.g.spc && e < 16 && index == (k * v.g.spc + s) * 16 + e
    modifies v`fatCache, v`fatCacheLba, v`fatCacheValid
    ensures v.Valid() && DirOk(v, dirCluster, cl) && DirEntries(v, dirCluster, cl) == old(DirEntries(v, dirCluster, cl))
    ensures index < |DirEntries(v, dirCluster, cl)| && ent == DirEntries(v, dirCluster, cl)[index]
  {
    hide Matches, DirChain, Entries;
    var c := DirCluster(v, dirCluster, k, cl);
    DirSector(v, dirCluster, cl, k, s, e);
    var sec := v.ReadSector(c, s);
    ent := sec[e * 32..e * 32 + 32];
  }

  /** Where an entry is on the volume. */
  lemma DirSector(v: Volume, first: nat, cl: seq<nat>, k: nat, s: nat, e: nat)
    requires DirOk(v, first, cl) && k < |cl| && s < v.g.spc && e < 16
    ensures v.g.IsData(cl[k]) && cl[k] < |v.heap| && s < |v.heap[cl[k]]|
    ensures (k * v.g.spc + s) * 16 + e < |DirEntries(v, first, cl)|
    ensures DirEntries(v, first, cl)[(k * v.g.spc + s) * 16 + e] == v.heap[cl[k]][s][e * 32..e * 32 + 32]
  {
    assert cl[k] in cl;
    EntryInSector(v.heap, cl, v.g.spc, k, s, e);
  }

  /** Sectors of clusters outside `cl` are the same. */
  ghost predicate OnlyChanged(heap: seq<seq<Sector>>, heap': seq<seq<Sector>>, cl: seq<nat>) {
    |heap| == |heap'| && forall c :: 0 <= c < |heap| && c !in cl ==> heap'[c] == heap[c]
  }

  /** Write entry `index` of a directory. */
  method WriteEntry(v: Volume, dirCluster: nat, index: nat, ent: Entry, ghost cl: seq<nat>)
    requires v.Valid() && DirOk(v, dirCluster, cl) && index < |cl| * v.g.spc * 16
    modifies v`disk, v`heap, v`fatCache, v`fatCacheLba, v`fatCacheValid
    ensures v.Valid() && DirOk(v, dirCluster, cl) && OnlyChanged(old(v.heap), v.heap, cl)
    ensures DirEntries(v, dirCluster, cl) == Overwrite(old(DirEntries(v, dirCluster, cl)), index, [ent])
  {
    hide Matches, DirChain, Entries, Overwrite;
    var perCluster := v.g.spc * DIR_ENTRIES_PER_SEC;
    LocateEntry(index, |cl|, v.g.spc);
    var k, inCl := index / perCluster, index % perCluster;
    StoreEntry(v, dirCluster, index, k, inCl / 16, inCl % 16 * 32, ent, cl);
  }

  /** Write an entry at byte `off` of sector `s` of the `k`-th cluster. */
  method StoreEntry(v: Volume, dirCluster: nat, index: nat, k: nat, s: nat, off: nat, ent: Entry, ghost cl: seq<nat>)
    requires v.Valid() && DirOk(v, dirCluster, cl) && k < |cl| && s < v.g.spc && index < |cl| * v.g.spc * 16
    requires off == index % 16 * 32 && index == (k * v.g.spc + s) * 16 + index % 16
    modifies v`disk, v`heap, v`fatCache, v`fatCacheLba, v`fatCacheValid
    ensures v.Valid() && DirOk(v, dirCluster, cl) && OnlyChanged(old(v.heap), v.heap, cl)
    ensures DirEntries(v, dirCluster, cl) == Overwrite(old(DirEntries(v, dirCluster, cl)), index, [ent])
  {
    hide Matches, Linked, Put, Distinct, Overwrite, Entries, ChainBytes, HeapPut;
    var c := DirCluster(v, dirCluster, k, cl);
    assert c in cl;
    EntryChunk(v.heap, cl, v.g.spc, index, k, s, off, ent);
    PutChunk(v, c, s, off, ent);
  }

  /** An entry's bytes put into its sector overwrite the entry. */
  lemma EntryChunk(heap: seq<seq<Sector>>, cl: seq<nat>, spc: nat, index: nat, k: nat, s: nat, off: nat, ent: Entry)
    requires Rows(heap, cl, spc) && Distinct(cl) && k < |cl| && s < spc && index < |cl| * spc * 16
    requires off == index % 16 * 32 && index == (k * spc + s) * 16 + index % 16
    ensures var heap' := HeapPut(heap, cl[k], s, Put(heap[cl[k]][s], off, ent));
            Rows(heap', cl, spc) && Entries(heap', cl, spc) == Overwrite(Entries(heap, cl, spc), index, [ent])
  {
    hide Put, EntriesOf, ChainBytes, Distinct, Overwrite;
    BytesLength(heap, cl, spc);
    EntryPut(ChainBytes(heap, cl, spc), index, ent);
    ChunkWritten(heap, cl, spc, k, s, off, ent, Put(heap[cl[k]][s], off, ent));
  }

  // ---- whole sets ----

  lemma OverwriteMore(es: seq<Entry>, a: nat, s: seq<Entry>, e: Entry)
    requires a + |s| + 1 <= |es|
    ensures Overwrite(Overwrite(es, a, s), a + |s|, [e]) == Overwrite(es, a, s + [e])
  {
  }

  lemma OverwriteNothing(es: seq<Entry>, a: nat)
    requires a <= |es|
    ensures Overwrite(es, a, []) == es
  {
  }

  lemma NothingChanged(heap: seq<seq<Sector>>, cl: seq<nat>)
    ensures OnlyChanged(heap, heap, cl)
  {
  }

  lemma ChangedThen(heap: seq<seq<Sector>>, heap1: seq<seq<Sector>>, cl: seq<nat>)
    requires OnlyChanged(heap, heap1, cl)
    ensures forall heap2: seq<seq<Sector>> :: OnlyChanged(heap1, heap2, cl) ==> OnlyChanged(heap, heap2, cl)
  {
  }

  /** Write the entries of a set from entry `slot` on. */
  method WriteSet(v: Volume, dirCluster: nat, slot: nat, fileSet: seq<Entry>, ghost cl: seq<nat>)
    requires v.Valid() && DirOk(v, dirCluster, cl) && slot + |fileSet| <= |cl| * v.g.spc * 16
    modifies v`disk, v`heap, v`fatCache, v`fatCacheLba, v`fatCacheValid
    ensures v.Valid() && DirOk(v, dirCluster, cl) && OnlyChanged(old(v.heap), v.heap, cl)
    ensures DirEntries(v, dirCluster, cl) == Overwrite(old(DirEntries(v, dirCluster, cl)), slot, fileSet)
  {
    hide Matches, DirOk, DirEntries, OnlyChanged, Overwrite;
    ghost var es := DirEntries(v, dirCluster, cl);
    DirLength(v, dirCluster, cl);
    OverwriteNothing(es, slot);
    NothingChanged(v.heap, cl);
    for i := 0 to |fileSet|
      invariant v.Valid() && DirOk(v, dirCluster, cl) && OnlyChanged(old(v.heap), v.heap, cl)
      invariant DirEntries(v, dirCluster, cl) == Overwrite(es, slot, fileSet[..i])
    {
      ChangedThen(old(v.heap), v.heap, cl);
      WriteEntry(v, dirCluster, slot + i, fileSet[i], cl);
      OverwriteMore(es, slot, fileSet[..i], fileSet[i]);
      assert fileSet[..i] + [fileSet[i]] == fileSet[..i + 1];
    }
    assert fileSet[..|fileSet|] == fileSet;
  }

  lemma DirLength(v: Volume, first: nat, cl: seq<nat>)
    requires DirOk(v, first, cl)
    ensures |DirEntries(v, first, cl)| == |cl| * v.g.spc * 16 && v.g.spc >= 1
  {
  }

  lemma DeletedNothing(es: seq<Entry>, a: nat)
    requires a <= |es|
    ensures Deleted(es, a, 0) == es
  {
  }

  /** Mark a set as deleted: clear the in-use bit of each of its entries. */
  method DeleteSet(v: Volume, dirCluster: nat, index: nat, count: nat, ghost cl: seq<nat>)
    requires v.Valid() && DirOk(v, dirCluster, cl) && index + count <= |cl| * v.g.spc * 16
    modifies v`disk, v`heap, v`fatCache, v`fatCacheLba, v`fatCacheValid
    ensures v.Valid() && DirOk(v, dirCluster, cl) && OnlyChanged(old(v.heap), v.heap, cl)
    ensures index + count <= |old(DirEntries(v, dirCluster, cl))|
    ensures DirEntries(v, dirCluster, cl) == Deleted(old(DirEntries(v, dirCluster, cl)), index, count)
  {
    hide Matches, DirOk, Entries, DirEntries, Deleted;
    ghost var es := DirEntries(v, dirCluster, cl);
    DirLength(v, dirCluster, cl);
    assert Deleted(es, index, 0) == es by { DeletedNothing(es, index); }
    for i := 0 to count
      invariant v.Valid() && DirOk(v, dirCluster, cl) && OnlyChanged(old(v.heap), v.heap, cl)
      invariant DirEntries(v, dirCluster, cl) == Deleted(es, index, i)
    {
      DeletedMore(es, index, i);
      var ent := ReadEntry(v, dirCluster, index + i, cl);
      ent := PutEntry(ent, 0, [ent[0] % 0x80]);
      WriteEntry(v, dirCluster, index + i, ent, cl);
    }
  }

  lemma OneOverwritten(es: seq<Entry>, i: nat, e: Entry)
    requires i < |es|
    ensures Overwrite(es, i, [e]) == es[i := e]
  {
  }

  lemma DeletedMore(es: seq<Entry>, a: nat, i: nat)
    requires a + i + 1 <= |es|
    ensures Deleted(es, a, i)[a + i] == es[a + i]
    ensures Overwrite(Deleted(es, a, i), a + i, [Unused(es[a + i])]) == Deleted(es, a, i + 1)
  {
    hide Unused;
    var d := Deleted(es, a, i);
    OneOverwritten(d, a + i, Unused(es[a + i]));
    var l, r := d[a + i := Unused(es[a + i])], Deleted(es, a, i + 1);
    assert |l| == |r| && forall j :: 0 <= j < |es| ==> l[j] == r[j];
  }

  // ---- growing a directory ----

  /** A cluster of zero sectors. */
  ghost predicate Zeroed(heap: seq<seq<Sector>>, c: nat) {
    c < |heap| && forall s, i :: 0 <= s < |heap[c]| && 0 <= i < 512 ==> heap[c][s][i] == 0
  }

  /** Zero a freshly allocated cluster. */
  method ClusterZero(v: Volume, cluster: nat)
    requires v.Valid() && v.g.IsData(cluster)
    modifies v`disk, v`heap
    ensures v.Valid() && Zeroed(v.heap, cluster) && OnlyChanged(old(v.heap), v.heap, [cluster])
  {
    hide Matches;
    RowOf(v, cluster);
    for s := 0 to v.g.spc
      invariant v.Valid() && cluster < |v.heap| && |v.heap[cluster]| == v.g.spc
      invariant OnlyChanged(old(v.heap), v.heap, [cluster])
      invariant forall t, i :: 0 <= t < s && 0 <= i < 512 ==> v.heap[cluster][t][i] == 0
    {
      v.WriteSector(cluster, s, ZERO_SECTOR);
    }
  }

  function ZeroEntries(n: nat): (es: seq<Entry>)
    ensures |es| == n && forall i, j :: 0 <= i < n && 0 <= j < 32 ==> es[i][j] == 0
  {
    seq(n, _ => ZeroEntry())
  }

  /** A zeroed cluster appended to a directory appends end markers. */
  lemma EntriesAppend(heap: seq<seq<Sector>>, cl: seq<nat>, c: nat, spc: nat)
    requires Rows(heap, cl + [c], spc) && Zeroed(heap, c)
    ensures Rows(heap, cl, spc)
    ensures Entries(heap, cl + [c], spc) == Entries(heap, cl, spc) + ZeroEntries(spc * 16)
  {
    hide ChainBytes;
    var cl' := cl + [c];
    assert cl'[..|cl|] == cl;
    ChainPrefix(heap, cl', |cl|, spc);
    BytesLength(heap, cl, spc);
    BytesLength(heap, cl', spc);
    var b, b' := ChainBytes(heap, cl, spc), ChainBytes(heap, cl', spc);
    var l, r := Entries(heap, cl', spc), Entries(heap, cl, spc) + ZeroEntries(spc * 16);
    assert |cl'| * spc == |cl| * spc + spc;
    forall i | 0 <= i < |l|
      ensures l[i] == r[i]
    {
      if i < |cl| * spc * 16 {
        assert b'[i * 32..i * 32 + 32] == b[i * 32..i * 32 + 32];
      } else {
        AppendedEntry(heap, cl, c, spc, i);
      }
    }
  }

  lemma AppendedEntry(heap: seq<seq<Sector>>, cl: seq<nat>, c: nat, spc: nat, i: nat)
    requires Rows(heap, cl + [c], spc) && Zeroed(heap, c)
    requires |cl| * spc * 16 <= i < |cl + [c]| * spc * 16
    ensures forall j :: 0 <= j < 32 ==> Entries(heap, cl + [c], spc)[i][j] == 0
  {
    hide ChainBytes, EntriesOf, Entries;
    var cl' := cl + [c];
    LocateEntry(i, |cl'|, spc);
    var k, s := i / (spc * 16), i % (spc * 16) / 16;
    LastRow(i, |cl|, spc, k, s);
    EntryInSector(heap, cl', spc, k, s, i % 16);
    var e := i % 16;
    var part := heap[c][s][e * 32..e * 32 + 32];
    assert forall j :: 0 <= j < 32 ==> part[j] == 0;
  }

  lemma LastRow(i: nat, n: nat, spc: nat, k: nat, s: nat)
    requires n * spc * 16 <= i && k <= n && s < spc && i == (k * spc + s) * 16 + i % 16
    ensures k == n
  {
    if k < n {
      MulStep(k, n, spc);
    }
  }

  /** Clusters of `used0` outside `cl` keep their links and sectors, and `cl'` takes none of them. */
  ghost predicate DirFrame(fat0: seq<nat>, heap0: seq<seq<Sector>>, used0: set<nat>, cl: seq<nat>,
                           fat: seq<nat>, heap: seq<seq<Sector>>, used: set<nat>, cl': seq<nat>) {
    && Kept(fat0, heap0, fat, heap, used0 - Elems(cl))
    && used == used0 + Elems(cl')
    && Elems(cl') * used0 <= Elems(cl)
  }

  /** Link one zeroed cluster after the last one of a directory. */
  method GrowDir(v: Volume, first: nat, linkFrom: nat, ghost cl: seq<nat>) returns (nc: nat)
    requires v.Valid() && DirOk(v, first, cl) && linkFrom == cl[|cl| - 1]
    modifies v`disk, v`fat, v`heap, v`used, v`nextFree, v`fatCache
    ensures v.Valid()
    ensures nc == 0 ==> v.fat == old(v.fat) && v.heap == old(v.heap) && v.used == old(v.used)
    ensures nc == 0 ==> DirOk(v, first, cl) && DirEntries(v, first, cl) == old(DirEntries(v, first, cl))
    ensures if nc == 0 then v.Full() && v.Supply() == old(v.Supply()) else old(v.Supply()) == 1 + v.Supply()
    ensures nc != 0 ==> nc !in old(v.used) && v.used == old(v.used) + {nc} && DirOk(v, first, cl + [nc])
    ensures nc != 0 ==> DirEntries(v, first, cl + [nc]) == old(DirEntries(v, first, cl)) + ZeroEntries(v.g.spc * 16)
    ensures |v.fat| == |old(v.fat)| && OnlyChanged(old(v.heap), v.heap, [nc])
    ensures forall c :: 0 <= c < |v.fat| && c != nc && c != linkFrom ==> v.fat[c] == old(v.fat)[c]
  {
    hide Matches, Linked, Entries;
    RowsOfChain(v, cl);
    assert linkFrom in cl;
    nc := v.AllocCluster();
    if nc == 0 {
      return;
    }
    ghost var fat0, heap0 := v.fat, v.heap;
    v.FatSet(nc, FAT_EOC);
    v.FatSet(linkFrom, nc);
    ChainAppend(v.g, fat0, old(v.used), first, cl, nc, v.fat);
    ClusterZero(v, nc);
    RowsOfChain(v, cl + [nc]);
    EntriesAppend(v.heap, cl, nc, v.g.spc);
    EntriesUntouched(heap0, v.heap, cl, v.g.spc, [nc]);
  }

  lemma EntriesUntouched(heap: seq<seq<Sector>>, heap': seq<seq<Sector>>, cl: seq<nat>, spc: nat, touched: seq<nat>)
    requires Rows(heap, cl, spc) && OnlyChanged(heap, heap', touched)
    requires forall c :: c in cl ==> c !in touched
    ensures Rows(heap', cl, spc) && Entries(heap', cl, spc) == Entries(heap, cl, spc)
  {
    forall i | 0 <= i < |cl|
      ensures heap'[cl[i]] == heap[cl[i]]
    {
      assert cl[i] in cl;
    }
    ChainUntouched(heap, heap', cl, spc);
  }

  lemma DirInRange(v: Volume, first: nat, cl: seq<nat>)
    requires v.Valid() && DirOk(v, first, cl)
    ensures cl != [] && Elems(cl) <= v.used && v.used == v.used + Elems(cl) && 0 !in v.used
    ensures v.g.spc >= 1 && cl[|cl| - 1] in Elems(cl)
    ensures Kept(v.fat, v.heap, v.fat, v.heap, v.used - Elems(cl))
  {
    ChainInRange(v, first, false, cl);
    KeptSelf(v);
  }

  lemma KeptGrow(fat: seq<nat>, heap: seq<seq<Sector>>, fat1: seq<nat>, heap1: seq<seq<Sector>>,
                 fat2: seq<nat>, heap2: seq<seq<Sector>>, kept: set<nat>, nc: nat, linkFrom: nat)
    requires Kept(fat, heap, fat1, heap1, kept) && nc !in kept && linkFrom !in kept
    requires |fat2| == |fat1| && OnlyChanged(heap1, heap2, [nc])
    requires forall c :: 0 <= c < |fat2| && c != nc && c != linkFrom ==> fat2[c] == fat1[c]
    ensures Kept(fat, heap, fat2, heap2, kept)
  {
  }

  lemma ZeroEntriesAdd(es: seq<Entry>, m: nat, per: nat)
    ensures es + ZeroEntries(Times(m, per)) + ZeroEntries(per) == es + ZeroEntries(Times(m + 1, per))
  {
    assert (m + 1) * per == m * per + per;
    assert ZeroEntries(m * per) + ZeroEntries(per) == ZeroEntries(m * per + per) by {
      var l, r := ZeroEntries(m * per) + ZeroEntries(per), ZeroEntries(m * per + per);
      forall i | 0 <= i < |l|
        ensures l[i] == r[i]
      {
        assert forall j :: 0 <= j < 32 ==> l[i][j] == r[i][j];
      }
    }
  }

  /** Extend a directory by `add` zeroed clusters. A full volume stops it short. */
  method ExtendDir(v: Volume, first: nat, last: nat, add: nat, ghost cl: seq<nat>) returns (ok: bool, ghost cl': seq<nat>, ghost added: nat)
    requires v.Valid() && DirOk(v, first, cl) && last == cl[|cl| - 1]
    modifies v`disk, v`fat, v`heap, v`used, v`nextFree, v`fatCache
    ensures v.Valid() && DirOk(v, first, cl') && cl <= cl'
    ensures |cl'| == |cl| + added && if ok then added == add else added < add
    ensures DirEntries(v, first, cl') == old(DirEntries(v, first, cl)) + ZeroEntries(Times(added, v.g.spc * 16))
    ensures !ok ==> v.Full()
    ensures ok <==> add <= old(v.Supply())
    ensures !ok ==> added == old(v.Supply())
    ensures DirFrame(old(v.fat), old(v.heap), old(v.used), cl, v.fat, v.heap, v.used, cl')
  {
    hide Matches, Chain, Kept, DirOk, Entries, Rows, Deliverable;
    cl' := cl;
    DirInRange(v, first, cl);
    ghost var kept, es0 := v.used - Elems(cl), DirEntries(v, first, cl);
    var linkFrom := last;
    assert es0 + ZeroEntries(Times(0, v.g.spc * 16)) == es0;
    added := 0;
    for i := 0 to add
      invariant v.Valid() && DirOk(v, first, cl') && cl <= cl' && added == i && |cl'| == |cl| + i && linkFrom == cl'[|cl'| - 1]
      invariant DirEntries(v, first, cl') == es0 + ZeroEntries(Times(i, v.g.spc * 16))
      invariant DirFrame(old(v.fat), old(v.heap), old(v.used), cl, v.fat, v.heap, v.used, cl')
      invariant old(v.Supply()) == i + v.Supply()
    {
      DirInRange(v, first, cl');
      ghost var fat1, heap1 := v.fat, v.heap;
      var nc := GrowDir(v, first, linkFrom, cl');
      if nc == 0 {
        return false, cl', added;
      }
      KeptGrow(old(v.fat), old(v.heap), fat1, heap1, v.fat, v.heap, kept, nc, linkFrom);
      ElemsAppend(cl', nc);
      ZeroEntriesAdd(es0, i, v.g.spc * 16);
      added := added + 1;
      cl' := cl' + [nc];
      linkFrom := nc;
    }
    ok := true;
  }

  // ---- finding room for a set ----

  lemma DirStart(v: Volume, first: nat, cl: seq<nat>)
    requires DirOk(v, first, cl)
    ensures cl[0] == first
  {
  }

  lemma NoRunYet(es: seq<Entry>, count: nat)
    requires count >= 1
    ensures RunLength(es, 0) == 0 && NoRun(es, 0, count)
  {
  }

  /** Scan a directory for `count` consecutive free entries. */
  method ScanForRun(v: Volume, first: nat, count: nat, ghost cl: seq<nat>)
    returns (found: bool, index: nat, runLen: nat, last: nat)
    requires v.Valid() && DirOk(v, first, cl) && count >= 1
    modifies v`fatCache, v`fatCacheLba, v`fatCacheValid
    ensures v.Valid() && DirOk(v, first, cl) && DirEntries(v, first, cl) == old(DirEntries(v, first, cl))
    ensures last == cl[|cl| - 1] || found
    ensures var es := DirEntries(v, first, cl);
            if found then
              && index + count <= |es| && (forall j :: index <= j < index + count ==> Free(es[j]))
              && NoRun(es, index + count - 1, count)
            else index == |es| && runLen == RunLength(es, |es|) < count && NoRun(es, |es|, count)
  {
    hide Matches, Chain, Entries, RunLength, Rows;
    var spc := v.g.spc;
    LinksOfDir(v, first, cl);
    assert cl[0] == first by { DirStart(v, first, cl); }
    ghost var es := DirEntries(v, first, cl);
    assert RunLength(es, 0) == 0 && NoRun(es, 0, count) by { NoRunYet(es, count); }
    ghost var k := 0;
    var c := first;
    index, runLen := 0, 0;
    while true
      invariant v.Valid() && k < |cl| && c == cl[k] && v.fat == old(v.fat) && v.heap == old(v.heap)
      invariant index == k * spc * 16 <= |es| && runLen == RunLength(es, index)
      invariant NoRun(es, index, count)
      decreases |cl| - k
    {
      found, index, runLen := ScanCluster(v, c, count, index, runLen, cl, k);
      if found {
        last := c;
        return;
      }
      last := c;
      var nx := v.FatNext(c);
      if Ends(nx) {
        break;
      }
      c := nx;
      k := k + 1;
    }
  }

  /** The links of a directory lead to its next cluster and end only at its last. */
  lemma LinksOfDir(v: Volume, first: nat, cl: seq<nat>)
    requires v.Valid() && DirOk(v, first, cl)
    ensures forall i :: 0 <= i < |cl| ==> v.g.IsData(cl[i]) && cl[i] < |v.fat|
    ensures forall i :: 0 <= i < |cl| - 1 ==> v.fat[cl[i]] == cl[i + 1] && !Ends(v.fat[cl[i]])
  {
    hide Matches;
    RowsOfChain(v, cl);
    forall i | 0 <= i < |cl|
      ensures v.g.IsData(cl[i]) && cl[i] < |v.fat|
    {
      assert cl[i] in cl;
    }
    forall i | 0 <= i < |cl| - 1
      ensures v.fat[cl[i]] == cl[i + 1] && !Ends(v.fat[cl[i]])
    {
      assert cl[i + 1] == v.fat[cl[i]] && cl[i + 1] in cl;
    }
  }

  /** The sectors of one cluster, with the run length carried in and out. */
  method ScanCluster(v: Volume, c: nat, count: nat, index0: nat, runLen0: nat, ghost cl: seq<nat>, ghost k: nat)
    returns (found: bool, index: nat, runLen: nat)
    requires v.Valid() && Rows(v.heap, cl, v.g.spc) && k < |cl| && cl[k] == c && v.g.IsData(c) && count >= 1
    requires index0 == k * v.g.spc * 16 <= |Entries(v.heap, cl, v.g.spc)|
    requires runLen0 == RunLength(Entries(v.heap, cl, v.g.spc), index0)
    requires NoRun(Entries(v.heap, cl, v.g.spc), index0, count)
    ensures var es := Entries(v.heap, cl, v.g.spc);
            if found then
              && index + count <= |es| && (forall j :: index <= j < index + count ==> Free(es[j]))
              && NoRun(es, index + count - 1, count)
            else
              && index == (k + 1) * v.g.spc * 16 <= |es| && runLen == RunLength(es, index)
              && NoRun(es, index, count)
  {
    hide Matches, Entries;
    var spc := v.g.spc;
    ghost var es := Entries(v.heap, cl, spc);
    MulStep(k, |cl|, spc);
    assert (k + 1) * spc == k * spc + spc;
    index, runLen := index0, runLen0;
    for s := 0 to spc
      invariant index == (k * spc + s) * 16 <= |es| && runLen == RunLength(es, index)
      invariant NoRun(es, index, count)
    {
      var sec := v.ReadSector(c, s);
      for e := 0 to DIR_ENTRIES_PER_SEC
        invariant index == (k * spc + s) * 16 + e <= |es| && runLen == RunLength(es, index)
        invariant NoRun(es, index, count)
      {
        EntryInSector(v.heap, cl, spc, k, s, e);
        var t := sec[e * 32];
        assert es[index][0] == t;
        runLen := if t == TYPE_EOD || t < 0x80 then runLen + 1 else 0;
        if runLen >= count {
          index := index - (count - 1);
          return true, index, runLen;
        }
        index := index + 1;
      }
    }
    found := false;
  }

  /** No `count` free entries in a row, and more clusters needed to get them at the end than there
    * are free.
    */
  ghost predicate Cramped(es: seq<Entry>, count: nat, per: nat, free: nat)
    requires per >= 1
  {
    NoRun(es, |es|, count) && RunLength(es, |es|) < count && CeilDiv(count - RunLength(es, |es|), per) > free
  }

  /** The same of the directory whose clusters are `cl`. */
  ghost predicate CrampedDir(heap: seq<seq<Sector>>, cl: seq<nat>, spc: nat, count: nat, free: nat) {
    spc >= 1 && Rows(heap, cl, spc) && Cramped(Entries(heap, cl, spc), count, spc * 16, free)
  }

  /** A run that was found is one. */
  lemma RunIsThere(es: seq<Entry>, index: nat, count: nat)
    requires index + count <= |es| && forall j :: index <= j < index + count ==> Free(es[j])
    ensures !NoRun(es, |es|, count)
  {
    RunAtLeast(es, index, index + count);
  }

  /** With a free cluster left, only a set longer than a cluster is cramped. */
  lemma CrampedIsLong(es: seq<Entry>, count: nat, per: nat, free: nat)
    requires per >= 1 && Cramped(es, count, per, free) && free >= 1
    ensures count > per
  {
    OneClusterEnough(count - RunLength(es, |es|), per);
  }

  /** A 255-character name in 512-byte clusters: nineteen entries need two clusters, and a single
    * free one is taken in vain when the directory has no free entry.
    */
  lemma LongNameCramped(es: seq<Entry>)
    requires forall i :: 0 <= i < |es| ==> !Free(es[i])
    ensures 2 + NameEntries(255) == 19 && Cramped(es, 19, 16, 1)
  {
    assert forall i :: 0 <= i <= |es| ==> RunLength(es, i) == 0;
  }

  /** Find `count` consecutive free entries, extending the directory by zeroed clusters if
    * there are none. That fails exactly when the directory is cramped; the clusters that were
    * free are linked to it all the same, and it lists what it did.
    */
  method FindFree(v: Volume, first: nat, count: nat, ghost cl: seq<nat>)
    returns (ok: bool, index: nat, added: nat, ghost cl': seq<nat>)
    requires v.Valid() && DirOk(v, first, cl) && count >= 1
    requires Tidy(DirEntries(v, first, cl), 0)
    modifies v`disk, v`fat, v`heap, v`used, v`nextFree, v`fatCache, v`fatCacheLba, v`fatCacheValid
    ensures v.Valid() && DirOk(v, first, cl') && cl <= cl'
    ensures Tidy(DirEntries(v, first, cl'), 0)
    ensures List(DirEntries(v, first, cl'), 0) == old(List(DirEntries(v, first, cl), 0))
    ensures ok ==> |cl'| == |cl| + added && RoomAt(DirEntries(v, first, cl'), index, count)
    ensures old(DirEntries(v, first, cl)) <= DirEntries(v, first, cl')
    ensures v.g.spc >= 1 && (!ok <==> Cramped(old(DirEntries(v, first, cl)), count, v.g.spc * 16, old(v.Supply())))
    ensures !ok ==> |cl'| == |cl| + old(v.Supply()) && v.Full()
    ensures DirFrame(old(v.fat), old(v.heap), old(v.used), cl, v.fat, v.heap, v.used, cl')
  {
    hide Matches, Chain, Kept, DirOk, Entries, Rows, Tidy, List, RunLength, NoRun, Deliverable;
    DirInRange(v, first, cl);
    DirLength(v, first, cl);
    ghost var es := DirEntries(v, first, cl);
    var found, at, runLen, last := ScanForRun(v, first, count, cl);
    if found {
      FoundRoom(es, at, count);
      RunIsThere(es, at, count);
      return true, at, 0, cl;
    }
    var perCluster := v.g.spc * DIR_ENTRIES_PER_SEC;
    var needMore := count - runLen;
    var addCl := CeilDiv(needMore, perCluster);
    CeilDivBounds(needMore, perCluster);
    OneClusterEnough(needMore, perCluster);
    ghost var grown;
    ok, cl', grown := ExtendDir(v, first, last, addCl, cl);
    index := at - runLen;
    added := addCl;
    ghost var z := ZeroEntries(Times(grown, perCluster));
    EndMarkersAppended(es, z, 0);
    if ok {
      RoomAtEnd(es, z, count, runLen);
    }
  }

  /** `count` free entries from `a` on, with no end marker before them. */
  ghost predicate RoomAt(es: seq<Entry>, a: nat, count: nat) {
    && a + count <= |es|
    && (forall j :: a <= j < a + count ==> Free(es[j]))
    && forall j :: 0 <= j < a ==> es[j][0] != TYPE_EOD
  }

  lemma FoundRoom(es: seq<Entry>, a: nat, count: nat)
    requires Tidy(es, 0) && count >= 1 && a + count <= |es| && NoRun(es, a + count - 1, count)
    requires forall j :: a <= j < a + count ==> Free(es[j])
    ensures RoomAt(es, a, count)
  {
    forall j | 0 <= j < a
      ensures es[j][0] != TYPE_EOD
    {
      FirstRunBeforeEnd(es, a, count, j);
    }
  }

  lemma RoomAtEnd(es: seq<Entry>, z: seq<Entry>, count: nat, run: nat)
    requires Tidy(es, 0) && run == RunLength(es, |es|) && run < count <= run + |z|
    requires forall i, j :: 0 <= i < |z| && 0 <= j < 32 ==> z[i][j] == 0
    ensures RoomAt(es + z, |es| - run, count)
  {
    hide Tidy;
    forall j | 0 <= j < |es| - run
      ensures es[j][0] != TYPE_EOD
    {
      LastRunBeforeEnd(es, j);
    }
  }

  lemma OneClusterEnough(n: nat, per: nat)
    requires 1 <= n && per >= 1
    ensures n <= Times(CeilDiv(n, per), per)
    ensures n <= per ==> CeilDiv(n, per) == 1
  {
    CeilDivBounds(n, per);
    if n <= per {
      CeilDivUnique(n, per, 1);
    }
  }

  // ---- committing an open file's metadata ----

  /** The entries of a set after its Stream Extension. */
  method ReadRest(v: Volume, dirCluster: nat, fileIndex: nat, scount: nat, ghost cl: seq<nat>) returns (rest: seq<Entry>)
    requires v.Valid() && DirOk(v, dirCluster, cl) && scount >= 1 && fileIndex + 1 + scount <= |cl| * v.g.spc * 16
    modifies v`fatCache, v`fatCacheLba, v`fatCacheValid
    ensures v.Valid() && DirOk(v, dirCluster, cl) && DirEntries(v, dirCluster, cl) == old(DirEntries(v, dirCluster, cl))
    ensures fileIndex + 1 + scount <= |DirEntries(v, dirCluster, cl)|
    ensures rest == DirEntries(v, dirCluster, cl)[fileIndex + 2..fileIndex + 1 + scount]
  {
    hide Matches, DirOk, Entries;
    ghost var es := DirEntries(v, dirCluster, cl);
    DirLength(v, dirCluster, cl);
    rest := [];
    for i := 1 to scount
      invariant v.Valid() && DirOk(v, dirCluster, cl) && DirEntries(v, dirCluster, cl) == es
      invariant rest == es[fileIndex + 2..fileIndex + 1 + i]
    {
      var ent := ReadEntry(v, dirCluster, fileIndex + 1 + i, cl);
      rest := rest + [ent];
    }
  }

  /** The new File and Stream entries for the metadata of `f`, with the set's checksum. */
  method PatchEntries(v: Volume, f: File, fileIndex: nat, ghost cl: seq<nat>, ghost x: Listed)
    returns (fileent: Entry, stream: Entry)
    requires v.Valid() && DirOk(v, f.dirCluster, cl) && fileIndex == x.at
    requires Tidy(DirEntries(v, f.dirCluster, cl), 0) && x in List(DirEntries(v, f.dirCluster, cl), 0)
    modifies v`fatCache, v`fatCacheLba, v`fatCacheValid
    ensures v.Valid() && DirOk(v, f.dirCluster, cl) && DirEntries(v, f.dirCluster, cl) == old(DirEntries(v, f.dirCluster, cl))
    ensures x.at + x.count <= |DirEntries(v, f.dirCluster, cl)| && x.count >= 3
    ensures var s := DirEntries(v, f.dirCluster, cl)[x.at..x.at + x.count];
            [fileent, stream] + s[2..] == Patched(s, f.first, f.size, f.valid, f.contiguous)
  {
    hide Matches, DirChain, Entries, Tidy, List, ValidSet, Parse, Patched, PatchedStream;
    ghost var es := DirEntries(v, f.dirCluster, cl);
    ListAtSet(es, x);
    DirLength(v, f.dirCluster, cl);
    ghost var s := es[x.at..x.at + x.count];
    ValidSetShape(s);
    fileent := ReadEntry(v, f.dirCluster, fileIndex, cl);
    stream := ReadEntry(v, f.dirCluster, fileIndex + 1, cl);
    assert fileent == s[0] && stream == s[1];
    if fileent[0] != TYPE_FILE || stream[0] != TYPE_STREAM {
      assert false;
    }
    var scount := fileent[1];
    stream := PatchedStream(stream, f.first, f.size, f.valid, f.contiguous);
    var rest := ReadRest(v, f.dirCluster, fileIndex, scount, cl);
    assert rest == s[2..];
    var fileSet: seq<Entry> := [fileent, stream] + rest;
    var csum := EntrySetChecksum(fileSet);
    PatchedIs(s, fileSet, f.first, f.size, f.valid, f.contiguous);
    fileent := PutEntry(fileent, 2, Le16(csum));
  }

  /** The listing `l'` is `l` with `x` replaced by the sets `mid`. */
  ghost predicate Swapped(l: seq<Listed>, l': seq<Listed>, x: Listed, mid: seq<Listed>) {
    exists before, after :: l == before + [x] + after && l' == before + mid + after
  }

  /** Writing the patched File and Stream entries patches the listed set. */
  lemma PatchListed(es: seq<Entry>, x: Listed, fileent: Entry, stream: Entry, first: nat, size: nat, valid: nat, contiguous: bool)
    requires Tidy(es, 0) && x in List(es, 0) && x.at + x.count <= |es| && x.count >= 3
    requires first < 0x1_0000_0000 && size < 0x1_0000_0000_0000_0000 && valid < 0x1_0000_0000_0000_0000
    requires var s := es[x.at..x.at + x.count]; [fileent, stream] + s[2..] == Patched(s, first, size, valid, contiguous)
    ensures var es' := Overwrite(Overwrite(es, x.at + 1, [stream]), x.at, [fileent]);
            var y := x.(info := x.info.(first := first, size := size, valid := valid, contiguous := contiguous));
            Tidy(es', 0) && Swapped(List(es, 0), List(es', 0), x, [y])
  {
    hide Tidy, List, Patched, Parse, ValidSet, Overwrite;
    ListAtSet(es, x);
    var s := es[x.at..x.at + x.count];
    var t := Patched(s, first, size, valid, contiguous);
    ValidSetShape(s);
    PatchedParses(s, first, size, valid, contiguous);
    PatchedValid(s, first, size, valid, contiguous);
    assert t[0] == fileent && t[1] == stream;
    HeadRewritten(es, x.at, s, t);
    var before, after := SetRewritten(es, x, t);
  }

  /** Commit size, valid length, first cluster and NoFatChain flag of `f` into its entry
    * set: the set is rewritten in place with those fields and a matching checksum.
    */
  method EntryMetaCommit(v: Volume, f: File, ghost cl: seq<nat>, ghost x: Listed) returns (r: int)
    requires v.Valid() && DirOk(v, f.dirCluster, cl) && f.setOffset == x.at * ENTRY_BYTES
    requires Tidy(DirEntries(v, f.dirCluster, cl), 0) && x in List(DirEntries(v, f.dirCluster, cl), 0)
    requires f.valid < 0x1_0000_0000_0000_0000 && f.size < 0x1_0000_0000_0000_0000 && f.first < 0x1_0000_0000
    modifies v`disk, v`heap, v`fatCache, v`fatCacheLba, v`fatCacheValid
    ensures r == 0 && v.Valid() && DirOk(v, f.dirCluster, cl) && OnlyChanged(old(v.heap), v.heap, cl)
    ensures Tidy(DirEntries(v, f.dirCluster, cl), 0)
    ensures Swapped(old(List(DirEntries(v, f.dirCluster, cl), 0)), List(DirEntries(v, f.dirCluster, cl), 0), x,
                    [x.(info := x.info.(first := f.first, size := f.size, valid := f.valid, contiguous := f.contiguous))])
  {
    hide Matches, DirChain, Entries, Tidy, List, Patched, Overwrite, Swapped;
    ghost var es := DirEntries(v, f.dirCluster, cl);
    DirLength(v, f.dirCluster, cl);
    var fileIndex := f.setOffset / ENTRY_BYTES;
    var fileent, stream := PatchEntries(v, f, fileIndex, cl, x);
    PatchListed(es, x, fileent, stream, f.first, f.size, f.valid, f.contiguous);
    WriteEntry(v, f.dirCluster, fileIndex + 1, stream, cl);
    WriteEntry(v, f.dirCluster, fileIndex, fileent, cl);
    r := 0;
  }
}
