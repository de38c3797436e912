/** The open, modify, flush cycle of a file: the session acts on the bytes the entry
  * describes, and the flush makes the entry describe the bytes the session left.
  */
module ExfatUpdate {
  import opened Arith
  import opened Bytes
  import opened ExfatVolume
  import opened ExfatContents
  import opened ExfatFile
  import opened ExfatNames
  import opened ExfatEntrySet
  import opened ExfatDirectory
  import opened ExfatDirVolume
  import opened ExfatTree
  import opened ExfatSteps
  import opened ExfatTreeLaws
  import opened ExfatNamespace
  import opened ExfatUnlink
  import Runs = ExfatRuns

  /** The clusters of a listed file. */
  function ClustersOf(t: Tree, x: Listed): seq<nat> {
    if x.info.first in t.chains then t.chains[x.info.first] else []
  }

  /** The bytes a listed file shows. */
  ghost function FileBytes(heap: seq<seq<Sector>>, spc: nat, t: Tree, x: Listed): seq<byte>
    requires Rows(heap, ClustersOf(t, x), spc) && x.info.valid <= x.info.size <= |ClustersOf(t, x)| * spc * 512
  {
    Visible(ChainBytes(heap, ClustersOf(t, x), spc), x.info.valid, x.info.size)
  }

  /** Clusters of the volume that are not those of the chain `k`. */
  ghost function Rest(t: Tree, k: nat, fixed: set<nat>): set<nat> {
    Owned(t.chains - {k}) + fixed
  }

  lemma HaveOfEntry(first: nat, size: nat, n: nat, spc: nat)
    requires spc >= 1 && n == (if first < 2 then 0 else Max(1, CeilDiv(size, spc * 512))) < 0x1_0000_0000
    requires first < 2 ==> size == 0
    ensures n == Have(first, size, spc * 512) && size <= n * spc * 512
  {
    CeilDivBounds(size, spc * 512);
    if first >= 2 {
      MulMonotone(CeilDiv(size, spc * 512), n, spc * 512);
    }
    SizedDir(n, spc);
  }

  /** A handle opened on a listed file owns the clusters of its chain. */
  lemma OpenedFile(v: Volume, f: File, t: Tree, fixed: set<nat>, leaked: set<nat>, d: nat, x: Listed)
    requires FsOk(v, t, fixed, leaked) && d in t.dirs && d in t.lists && x in t.lists[d] && !x.info.isDir
    requires f.first == x.info.first && f.size == x.info.size && f.valid == x.info.valid && f.contiguous == x.info.contiguous
    requires f.cl == ClustersOf(t, x)
    ensures FileOk(v, f)
    ensures Rows(v.heap, ClustersOf(t, x), v.g.spc) && x.info.valid <= x.info.size <= |ClustersOf(t, x)| * v.g.spc * 512
    ensures Contents(v, f) == FileBytes(v.heap, v.g.spc, t, x)
    ensures x.info.first < 2 ==> x.info.first !in t.chains
    ensures x.info.first !in t.dirs && (x.info.first >= 2 ==> x.info.first in t.chains)
  {
    hide Matches, Accounted, Held, CeilDiv, NamesApart, LeadsToRoot, Chain, Have, Visible, ChainBytes, Rows;
    var cb := v.g.spc * 512;
    assert EntryOk(t, cb, d, x);
    SmallChains(t, cb);
    if x.info.first >= 2 {
      ChainOfEntry(v, t, fixed, leaked, d, x);
    }
    EmptyChain(v.g, v.fat, v.used, x.info.first, x.info.contiguous);
    ChainFitsVolume(v, f);
    HaveOfEntry(f.first, f.size, |f.cl|, v.g.spc);
  }

  /** The clusters of every listed file hold its bytes. */
  lemma ReadableInTree(v: Volume, t: Tree, fixed: set<nat>, leaked: set<nat>, d: nat, x: Listed)
    requires FsOk(v, t, fixed, leaked) && d in t.lists && x in t.lists[d] && !x.info.isDir
    ensures Readable(v.heap, v.g.spc, t, x)
  {
    hide Matches, Accounted, Held, CeilDiv, NamesApart, LeadsToRoot, Chain, Have, Rows;
    var cb, cl := v.g.spc * 512, ClustersOf(t, x);
    assert EntryOk(t, cb, d, x);
    SmallChains(t, cb);
    if x.info.first >= 2 {
      ChainOfEntry(v, t, fixed, leaked, d, x);
    }
    EmptyChain(v.g, v.fat, v.used, x.info.first, x.info.contiguous);
    RowsOfEntry(v, x.info.first, x.info.contiguous, cl);
    HaveOfEntry(x.info.first, x.info.size, |cl|, v.g.spc);
  }

  lemma RowsOfEntry(v: Volume, first: nat, contiguous: bool, cl: seq<nat>)
    requires v.Valid() && Chain(v.g, v.fat, v.used, first, contiguous, cl)
    ensures |cl| < FAT_BAD && v.g.spc >= 1 && Rows(v.heap, cl, v.g.spc)
  {
    hide Matches;
    RowsOfChain(v, cl);
    ChainFits(v.g, cl);
  }

  lemma EmptyChain(g: Geometry, fat: seq<nat>, used: set<nat>, first: nat, contiguous: bool)
    ensures first < 2 ==> Chain(g, fat, used, first, contiguous, [])
  {
  }

  lemma ChainFitsVolume(v: Volume, f: File)
    requires v.Valid() && Chain(v.g, v.fat, v.used, f.first, f.contiguous, f.cl)
    ensures |f.cl| < FAT_BAD && v.g.spc >= 1 && Rows(v.heap, f.cl, v.g.spc)
  {
    RowsOfEntry(v, f.first, f.contiguous, f.cl);
  }

  lemma SmallChains(t: Tree, cb: nat)
    requires cb >= 1 && TreeOk(t, cb)
    ensures forall k :: k in t.chains ==> k >= 2
    ensures forall k :: k in t.dirs ==> k >= 2
  {
    hide EntryOk, NamesApart, LeadsToRoot;
    forall k | k in t.chains
      ensures k >= 2
    {
      if k != t.root {
        assert k in t.home && HomeOk(t, k);
      }
    }
  }

  /** The volume as the open file sees it: its own clusters and the rest. */
  lemma SessionStart(v: Volume, f: File, t: Tree, fixed: set<nat>, leaked: set<nat>, d: nat, x: Listed)
    requires FsOk(v, t, fixed, leaked) && d in t.dirs && d in t.lists && x in t.lists[d] && !x.info.isDir
    requires f.first == x.info.first && f.size == x.info.size && f.valid == x.info.valid && f.contiguous == x.info.contiguous
    requires f.cl == ClustersOf(t, x) && !f.isDir
    ensures Runs.SystemOk(v, {f}, Rest(t, x.info.first, fixed), leaked)
    ensures v.used == Elems(f.cl) + Rest(t, x.info.first, fixed) + leaked
  {
    hide Matches, Held, CeilDiv, NamesApart, LeadsToRoot, Chain, Have, FileBytes, Visible, Rows, Contents, EntryOk, HomeOk;
    OpenedFile(v, f, t, fixed, leaked, d, x);
    var k := x.info.first;
    OneOwner(f);
    if k in t.chains {
      OwnedSplit(t.chains, k);
      OwnedApart(t.chains, k);
    } else {
      assert t.chains - {k} == t.chains;
    }
  }

  lemma OneOwner(f: File)
    ensures Runs.Owned({f}) == Elems(f.cl)
  {
  }

  // ---- what the session leaves ----

  /** The accounts after a session: the file's clusters and those lost are the only new ones. */
  lemma AccountsAfterSession(chains: map<nat, seq<nat>>, fixed: set<nat>, leaked: set<nat>, used0: set<nat>,
                             k: nat, m: nat, cl: seq<nat>, leaked': set<nat>)
    requires Accounted(used0, chains, fixed, leaked)
    requires var rest := Owned(chains - {k}) + fixed; Elems(cl) !! rest && Elems(cl) !! leaked' && rest !! leaked'
    requires if m < 2 then cl == [] else m !in chains - {k}
    ensures Accounted(Elems(cl) + Owned(chains - {k}) + fixed + leaked',
                      if m >= 2 then (chains - {k})[m := cl] else chains - {k}, fixed, leaked')
  {
    var rest := chains - {k};
    var base := Owned(rest) + fixed + leaked';
    RestAccounted(chains, fixed, leaked, used0, k, leaked');
    if m >= 2 {
      AccountsAfterChange(base, rest, fixed, leaked', m, [], cl, {}, Elems(cl) + base);
      assert leaked' + {} == leaked';
      assert Elems(cl) + base == Elems(cl) + Owned(rest) + fixed + leaked';
    } else {
      assert Elems(cl) + Owned(rest) + fixed + leaked' == base;
    }
  }

  lemma RestAccounted(chains: map<nat, seq<nat>>, fixed: set<nat>, leaked: set<nat>, used0: set<nat>, k: nat, leaked': set<nat>)
    requires Accounted(used0, chains, fixed, leaked) && Owned(chains - {k}) + fixed !! leaked'
    ensures Accounted(Owned(chains - {k}) + fixed + leaked', chains - {k}, fixed, leaked')
  {
    if k in chains {
      OwnedSplit(chains, k);
    } else {
      assert chains - {k} == chains;
    }
  }

  /** The tree after a session whose handle is to be committed as `y`; the listing is still old. */
  function Pending(t: Tree, d: nat, x: Listed, y: Listed, cl: seq<nat>): Tree
    requires d in t.lists
  {
    Rehomed(t, d, t.lists[d], x, y, cl)
  }

  /** The chains of the tree that are not the file's are held after the session. */
  lemma OthersAfterSession(g: Geometry, fat0: seq<nat>, used0: set<nat>, heap0: seq<seq<Sector>>, t: Tree,
                           fat: seq<nat>, used: set<nat>, heap: seq<seq<Sector>>, t': Tree, k: nat, fixed: set<nat>, leaked: set<nat>)
    requires Held(g, fat0, used0, heap0, t) && Accounted(used0, t.chains, fixed, leaked) && k !in t.dirs
    requires Kept(fat0, heap0, fat, heap, Rest(t, k, fixed) + leaked) && Rest(t, k, fixed) + leaked <= used
    requires t'.dirs == t.dirs && t'.lists == t.lists
    requires forall m :: m in t.chains - {k} ==> m in t'.chains && t'.chains[m] == t.chains[m]
    requires forall m :: m in t.chains - {k} && m in t.home ==> m in t'.home && t'.home[m] == t.home[m]
    ensures forall m :: m in t.chains - {k} ==> ChainHeld(g, fat, used, heap, t', m)
  {
    hide ChainHeld, Kept;
    forall m | m in t.chains - {k}
      ensures ChainHeld(g, fat, used, heap, t', m)
    {
      OwnedHas(t.chains - {k}, m);
      assert (t.chains - {k})[m] == t.chains[m];
      HomeOfChain(g, fat0, used0, heap0, t, m);
      ChainStillHeld(g, fat0, used0, heap0, t, fat, used, heap, t', m, Rest(t, k, fixed) + leaked);
    }
  }

  lemma HomeOfChain(g: Geometry, fat: seq<nat>, used: set<nat>, heap: seq<seq<Sector>>, t: Tree, m: nat)
    requires Held(g, fat, used, heap, t) && m in t.chains
    ensures ChainHeld(g, fat, used, heap, t, m) && (m in t.dirs ==> m in t.lists) && (m !in t.dirs ==> m in t.home)
  {
  }

  lemma HeadOf(g: Geometry, fat: seq<nat>, used: set<nat>, heap: seq<seq<Sector>>, t: Tree, m: nat)
    requires m in t.chains && ChainHeld(g, fat, used, heap, t, m)
    ensures t.chains[m] != [] && t.chains[m][0] == m
  {
    hide Tidy, List, Entries, Rows, Distinct, Linked;
  }

  /** A first cluster that none of the rest owns is no other chain's. */
  lemma FreshHead(g: Geometry, fat: seq<nat>, used: set<nat>, heap: seq<seq<Sector>>, t: Tree, k: nat, m: nat)
    requires Held(g, fat, used, heap, t) && m !in Owned(t.chains - {k})
    ensures m !in t.chains - {k}
  {
    hide ChainHeld;
    forall n | n in t.chains - {k}
      ensures n in Owned(t.chains - {k})
    {
      HomeOfChain(g, fat, used, heap, t, n);
      HeadOf(g, fat, used, heap, t, n);
      OwnedHas(t.chains - {k}, n);
      assert n in Elems((t.chains - {k})[n]);
    }
  }

  /** The volume holds the tree in which the clusters `cl` replace the file's. */
  lemma SessionHeld(v: Volume, cl: seq<nat>, fat0: seq<nat>, used0: set<nat>, heap0: seq<seq<Sector>>, t: Tree,
                    fixed: set<nat>, leaked: set<nat>, leaked': set<nat>, d: nat, x: Listed, y: Listed)
    requires v.Valid() && Held(v.g, fat0, used0, heap0, t) && Accounted(used0, t.chains, fixed, leaked)
    requires d in t.lists && x.info.first !in t.dirs && leaked <= leaked'
    requires Chain(v.g, v.fat, v.used, y.info.first, y.info.contiguous, cl)
    requires Sharing(v.used, Rest(t, x.info.first, fixed), cl, leaked')
    requires Kept(fat0, heap0, v.fat, v.heap, Rest(t, x.info.first, fixed) + leaked)
    requires forall k :: k in t.chains ==> k >= 2
    ensures Stored(v, Pending(t, d, x, y, cl), fixed, leaked')
    ensures y.info.first >= 2 ==> y.info.first !in t.chains - {x.info.first} && y.info.first !in t.dirs
  {
    hide Matches, Kept, DirHeld, Accounted, Distinct, Linked;
    var k, m, t' := x.info.first, y.info.first, Pending(t, d, x, y, cl);
    if m >= 2 {
      assert m in Elems(cl);
      FreshHead(v.g, fat0, used0, heap0, t, k, m);
    }
    OthersAfterSession(v.g, fat0, used0, heap0, t, v.fat, v.used, v.heap, t', k, fixed, leaked);
    AccountsAfterSession(t.chains, fixed, leaked, used0, k, m, cl, leaked');
    assert v.used == Elems(cl) + Owned(t.chains - {k}) + fixed + leaked';
    assert t'.lists == t.lists;
    forall n | n in t'.chains
      ensures ChainHeld(v.g, v.fat, v.used, v.heap, t', n)
    {
      if n != m {
        assert n in t.chains - {k};
      }
    }
  }

  /** The clusters in use are those of the rest, those of `cl`, and those lost. */
  ghost predicate Sharing(used: set<nat>, rest: set<nat>, cl: seq<nat>, leaked: set<nat>) {
    Elems(cl) !! rest && Elems(cl) !! leaked && rest !! leaked && used == Elems(cl) + rest + leaked
  }

  /** What the entry says once the handle is committed. */
  ghost function CommittedBy(x: Listed, f: File): Listed
    reads f
  {
    Committed(x, f.first, f.size, f.valid, f.contiguous)
  }

  /** The metadata of a handle describes the clusters it owns. */
  lemma HandleDescribes(v: Volume, f: File, t: Tree, d: nat, x: Listed)
    requires FileOk(v, f) && v.Valid() && !x.info.isDir
    requires f.first >= 2 ==> f.first == x.info.first || f.first !in t.chains
    ensures Describes(t, v.g.spc * 512, x, CommittedBy(x, f), f.cl)
    ensures f.valid < 0x1_0000_0000_0000_0000 && f.size < 0x1_0000_0000_0000_0000 && f.first < 0x1_0000_0000
  {
    hide Matches, CeilDiv, Have, Rows, Distinct, Linked;
    HaveExact(v, f);
    ChainBytesBound(v, f.cl);
    SizedDir(|f.cl|, v.g.spc);
    HandleFirst(v, f);
  }

  lemma HandleFirst(v: Volume, f: File)
    requires v.Valid() && Chain(v.g, v.fat, v.used, f.first, f.contiguous, f.cl)
    ensures f.first < 0x1_0000_0000
  {
    CountBelow(v.g);
    if f.first >= 2 {
      assert f.cl[0] in f.cl;
    }
  }

  /** `t'` is `t` with entry `x` of directory `d` updated to `y`, which owns the clusters `cl`. */
  ghost predicate EntryReplaced(t: Tree, t': Tree, d: nat, x: Listed, y: Listed, cl: seq<nat>) {
    && d in t.lists && d in t'.lists && Swapped(t.lists[d], t'.lists[d], x, [y])
    && t' == Rehomed(t, d, t'.lists[d], x, y, cl)
    && y.info.name == x.info.name && y.info.isDir == x.info.isDir && y.at == x.at && y.count == x.count
  }

  /** Flush the handle: the entry then describes the clusters and the bytes of the session. */
  method Flush(v: Volume, f: File, ghost t: Tree, ghost fixed: set<nat>, ghost leaked: set<nat>, ghost x: Listed)
    returns (ghost t': Tree, ghost y: Listed)
    requires f.dirty && FileOk(v, f) && 1 <= v.g.spc <= 0x1_0000 && TreeOk(t, v.g.spc * 512)
    requires f.dirCluster in t.dirs && f.dirCluster in t.lists && x in t.lists[f.dirCluster] && !x.info.isDir
    requires f.setOffset == x.at * ENTRY_BYTES
    requires Stored(v, Pending(t, f.dirCluster, x, CommittedBy(x, f), f.cl), fixed, leaked)
    requires f.first >= 2 ==> f.first !in t.chains - {x.info.first} && f.first !in t.dirs
    modifies v`disk, v`heap, v`fatCache, v`fatCacheLba, v`fatCacheValid, f`dirty
    ensures FsOk(v, t', fixed, leaked) && !f.dirty && EntryReplaced(t, t', f.dirCluster, x, y, f.cl) && y == CommittedBy(x, f)
    ensures FilesKept(Pending(t, f.dirCluster, x, y, f.cl), old(v.heap), v.heap)
  {
    hide Matches, Held, Accounted, Describes, Chain, Rows, Have, FilesKept, Swapped, TreeOk;
    ghost var d := f.dirCluster;
    y := CommittedBy(x, f);
    ghost var tm := Pending(t, d, x, y, f.cl);
    HandleDescribes(v, f, t, d, x);
    ghost var l := CommitEntry(v, f, x, tm, fixed, leaked);
    t' := Rehomed(t, d, l, x, y, f.cl);
    assert t' == Relisted(tm, d, l);
    EntryUpdated(t, v.g.spc * 512, d, l, x, y, f.cl);
    f.dirty := false;
  }

  // ---- a handle with nothing to commit ----

  lemma PendingNothing(t: Tree, cb: nat, d: nat, x: Listed)
    requires cb >= 1 && TreeOk(t, cb) && d in t.dirs && d in t.lists && x in t.lists[d] && !x.info.isDir
    ensures Pending(t, d, x, x, ClustersOf(t, x)) == t
  {
    hide NamesApart, LeadsToRoot, CeilDiv, HomeOk;
    SmallChains(t, cb);
    assert EntryOk(t, cb, d, x);
    var k := x.info.first;
    var t' := Pending(t, d, x, x, ClustersOf(t, x));
    assert t'.chains == t.chains && t'.lists == t.lists && t'.home == t.home;
  }

  /** The clusters a clean handle took before the volume filled up. */
  function Taken(cl: seq<nat>, cl0: seq<nat>): set<nat> {
    Elems(cl) - Elems(cl0)
  }

  /** The file's own chain after a session that left nothing to commit. */
  lemma CleanChain(g: Geometry, fat0: seq<nat>, used0: set<nat>, fat: seq<nat>, used: set<nat>,
                   first0: nat, contiguous0: bool, cl0: seq<nat>, first: nat, contiguous: bool, cl: seq<nat>)
    requires Chain(g, fat0, used0, first0, contiguous0, cl0) && Chain(g, fat, used, first, contiguous, cl)
    requires (cl == cl0 || cl0 == []) && (contiguous ==> contiguous0) && |fat| == |fat0|
    ensures Chain(g, fat, used, first0, contiguous0, cl0)
  {
    if cl0 != [] {
      forall i | 0 <= i < |cl0| - 1
        ensures cl0[i] < |fat| && cl0[i + 1] == if contiguous0 then cl0[i] + 1 else fat[cl0[i]]
      {
        assert cl0[i + 1] == if contiguous0 then cl0[i] + 1 else fat0[cl0[i]];
      }
    }
  }

  /** Without a flush the tree is as before, and so are the file's bytes. */
  lemma CleanSession(v: Volume, cl: seq<nat>, fat0: seq<nat>, used0: set<nat>, heap0: seq<seq<Sector>>, t: Tree,
                     fixed: set<nat>, leaked: set<nat>, leaked': set<nat>, d: nat, x: Listed)
    requires v.Valid() && Held(v.g, fat0, used0, heap0, t) && Accounted(used0, t.chains, fixed, leaked)
    requires v.g.spc >= 1 && TreeOk(t, v.g.spc * 512) && d in t.dirs && d in t.lists && x in t.lists[d] && !x.info.isDir
    requires x.info.first !in t.dirs && leaked <= leaked'
    requires cl == ClustersOf(t, x) || ClustersOf(t, x) == []
    requires Chain(v.g, v.fat, v.used, x.info.first, x.info.contiguous, ClustersOf(t, x))
    requires Sharing(v.used, Rest(t, x.info.first, fixed), cl, leaked')
    requires Kept(fat0, heap0, v.fat, v.heap, Rest(t, x.info.first, fixed) + leaked)
    ensures Stored(v, t, fixed, leaked' + Taken(cl, ClustersOf(t, x)))
  {
    hide Matches, Kept, Held, Accounted, Chain, TreeOk;
    var cb, cl0 := v.g.spc * 512, ClustersOf(t, x);
    PendingNothing(t, cb, d, x);
    SmallChains(t, cb);
    assert Sharing(v.used, Rest(t, x.info.first, fixed), cl0, leaked' + Taken(cl, cl0));
    SessionHeld(v, cl0, fat0, used0, heap0, t, fixed, leaked, leaked' + Taken(cl, cl0), d, x, x);
  }

  // ---- the whole cycle ----

  /** The clusters of `x` hold its bytes. */
  ghost predicate Readable(heap: seq<seq<Sector>>, spc: nat, t: Tree, x: Listed) {
    Rows(heap, ClustersOf(t, x), spc) && x.info.valid <= x.info.size <= |ClustersOf(t, x)| * spc * 512
  }

  /** Flushing moves no byte of the file. */
  lemma BytesAfterFlush(v: Volume, f: File, heap1: seq<seq<Sector>>, t: Tree, t': Tree, d: nat, x: Listed, y: Listed)
    requires v.g.spc >= 1 && EntryReplaced(t, t', d, x, y, f.cl) && y == CommittedBy(x, f)
    requires f.first < 2 <==> f.cl == []
    requires forall k :: k in t.chains ==> k >= 2
    requires f.first !in t.dirs
    requires FilesKept(Pending(t, d, x, y, f.cl), heap1, v.heap)
    requires Rows(heap1, f.cl, v.g.spc) && f.valid <= f.size <= |f.cl| * v.g.spc * 512
    ensures ClustersOf(t', y) == f.cl && Readable(v.heap, v.g.spc, t', y)
    ensures FileBytes(v.heap, v.g.spc, t', y) == Visible(ChainBytes(heap1, f.cl, v.g.spc), f.valid, f.size)
  {
    hide Swapped, ChainBytes, Visible;
    var tm := Pending(t, d, x, y, f.cl);
    if f.cl != [] {
      assert f.first in tm.chains && tm.chains[f.first] == f.cl && f.first !in tm.dirs;
      assert SameSectors(heap1, v.heap, f.cl);
    }
    forall i | 0 <= i < |f.cl|
      ensures v.heap[f.cl[i]] == heap1[f.cl[i]]
    {
      assert f.cl[i] in f.cl;
    }
    ChainUntouched(heap1, v.heap, f.cl, v.g.spc);
  }

  lemma KeptSizes(fat: seq<nat>, heap: seq<seq<Sector>>, fat': seq<nat>, heap': seq<seq<Sector>>, kept: set<nat>)
    requires Kept(fat, heap, fat', heap', kept)
    ensures |fat'| == |fat| && |heap'| == |heap|
  {
  }

  lemma HeadRange(g: Geometry, fat: seq<nat>, used: set<nat>, first: nat, contiguous: bool, cl: seq<nat>)
    requires Chain(g, fat, used, first, contiguous, cl)
    ensures first < 2 <==> cl == []
  {
  }

  lemma FilesOfPending(t: Tree, d: nat, x: Listed, y: Listed, cl: seq<nat>, heap: seq<seq<Sector>>, heap': seq<seq<Sector>>)
    requires d in t.lists && FilesKept(Pending(t, d, x, y, cl), heap, heap')
    requires y.info.first >= 2 ==> y.info.first !in t.chains - {x.info.first}
    requires x.info.first !in t.dirs
    ensures FilesKept(Released(t, x.info.first), heap, heap')
  {
    var t1, t2 := Released(t, x.info.first), Pending(t, d, x, y, cl);
    forall m | m in t1.chains && m !in t1.dirs
      ensures SameSectors(heap, heap', t1.chains[m])
    {
      assert m in t2.chains && m !in t2.dirs && t2.chains[m] == t1.chains[m];
    }
  }

  /** A clean handle shows the bytes its entry describes. */
  lemma CleanBytes(v: Volume, f: File, t: Tree, d: nat, x: Listed)
    requires FileOk(v, f) && TreeOk(t, v.g.spc * 512) && d in t.dirs && d in t.lists && x in t.lists[d] && !x.info.isDir
    requires Untouched(f.size, f.valid, f.cl, x.info.size, x.info.valid, ClustersOf(t, x))
    requires Chain(v.g, v.fat, v.used, x.info.first, x.info.contiguous, ClustersOf(t, x))
    ensures Readable(v.heap, v.g.spc, t, x) && FileBytes(v.heap, v.g.spc, t, x) == Contents(v, f)
    ensures EntryReplaced(t, t, d, x, x, ClustersOf(t, x))
  {
    hide NamesApart, LeadsToRoot, HomeOk, ChainBytes, Have, Linked, Distinct, CeilDiv;
    assert EntryOk(t, v.g.spc * 512, d, x);
    PendingNothing(t, v.g.spc * 512, d, x);
    assert Swapped(t.lists[d], t.lists[d], x, [x]) by { SwappedSelf(t.lists[d], x); }
  }

  lemma SwappedSelf(l: seq<Listed>, x: Listed)
    requires x in l
    ensures Swapped(l, l, x, [x])
  {
    var i :| 0 <= i < |l| && l[i] == x;
    assert l == l[..i] + [x] + l[i + 1..];
  }

  /** End a session: flush if due. */
  method EndSession(v: Volume, f: File, ghost fat0: seq<nat>, ghost used0: set<nat>, ghost heap0: seq<seq<Sector>>,
                    ghost t: Tree, ghost fixed: set<nat>, ghost leaked: set<nat>, ghost lost: set<nat>, ghost x: Listed)
    returns (ghost t': Tree, ghost y: Listed, ghost leaked': set<nat>)
    requires Held(v.g, fat0, used0, heap0, t) && Accounted(used0, t.chains, fixed, leaked)
    requires 1 <= v.g.spc <= 0x1_0000 && TreeOk(t, v.g.spc * 512)
    requires f.dirCluster in t.dirs && f.dirCluster in t.lists && x in t.lists[f.dirCluster] && !x.info.isDir
    requires f.setOffset == x.at * ENTRY_BYTES && x.info.first !in t.dirs && leaked <= lost
    requires Chain(v.g, fat0, used0, x.info.first, x.info.contiguous, ClustersOf(t, x))
    requires Runs.SystemOk(v, {f}, Rest(t, x.info.first, fixed), lost)
    requires Kept(fat0, heap0, v.fat, v.heap, Rest(t, x.info.first, fixed) + leaked)
    requires Runs.FlushDue(Runs.Meta(false, x.info.size, x.info.valid, x.info.contiguous, ClustersOf(t, x)), Runs.MetaOf(f))
    modifies v`disk, v`heap, v`fatCache, v`fatCacheLba, v`fatCacheValid, f`dirty
    ensures FsOk(v, t', fixed, leaked') && leaked' == lost + (if old(f.dirty) then {} else Taken(f.cl, ClustersOf(t, x)))
    ensures FileOk(v, f) && Readable(v.heap, v.g.spc, t', y) && FileBytes(v.heap, v.g.spc, t', y) == old(Contents(v, f))
    ensures EntryReplaced(t, t', f.dirCluster, x, y, ClustersOf(t', y))
    ensures FilesKept(Released(t, x.info.first), old(v.heap), v.heap)
  {
    hide Matches, Kept, Held, Accounted, Chain, TreeOk, Rows, Have, Visible, ChainBytes, FilesKept, EntryReplaced;
    ghost var d, k := f.dirCluster, x.info.first;
    OneOwner(f);
    SmallChains(t, v.g.spc * 512);
    ghost var heap1 := v.heap;
    FilesKeptSelf(Released(t, k), heap1);
    if f.dirty {
      y, leaked' := CommittedBy(x, f), lost;
      SessionHeld(v, f.cl, fat0, used0, heap0, t, fixed, leaked, lost, d, x, y);
      ghost var bytes := Contents(v, f);
      t', y := Flush(v, f, t, fixed, lost, x);
      HeadRange(v.g, v.fat, v.used, f.first, f.contiguous, f.cl);
      BytesAfterFlush(v, f, heap1, t, t', d, x, y);
      FilesOfPending(t, d, x, y, f.cl, heap1, v.heap);
    } else {
      t', y, leaked' := t, x, lost + Taken(f.cl, ClustersOf(t, x));
      KeptSizes(fat0, heap0, v.fat, v.heap, Rest(t, k, fixed) + leaked);
      CleanChain(v.g, fat0, used0, v.fat, v.used, k, x.info.contiguous, ClustersOf(t, x), f.first, f.contiguous, f.cl);
      CleanSession(v, f.cl, fat0, used0, heap0, t, fixed, leaked, lost, d, x);
      CleanBytes(v, f, t, d, x);
    }
  }

  /** What a session on an open file does. */
  ghost predicate Session(start: Runs.Flat, end: Runs.Flat, f: File, ops: seq<Runs.Op>, log: seq<Runs.Event>, cb: nat)
    requires cb >= 1
  {
    && |log| == |ops| && (forall i :: 0 <= i < |ops| ==> log[i].file == f && log[i].op == ops[i])
    && Runs.Faithful(map[f := start], log, cb) && end == Runs.After(start, log, f)
  }

  /** An operation of a session and its outcome. */
  datatype Done = Done(op: Runs.Op, fits: bool, ok: bool, out: seq<byte>)

  function FlatAfter(s: Runs.Flat, done: seq<Done>): Runs.Flat {
    if done == [] then s
    else
      var p, e := FlatAfter(s, done[..|done| - 1]), done[|done| - 1];
      if e.ok then Runs.FlatStep(p, e.op) else p
  }

  /** The session was one on a flat file. */
  ghost predicate FlatSession(start: Runs.Flat, end: Runs.Flat, ops: seq<Runs.Op>, done: seq<Done>, cb: nat)
    requires cb >= 1
  {
    && |done| == |ops| && end == FlatAfter(start, done)
    && forall i :: 0 <= i < |ops| ==> DoneAt(start, ops, done, cb, i)
  }

  ghost predicate DoneAt(start: Runs.Flat, ops: seq<Runs.Op>, done: seq<Done>, cb: nat, i: nat)
    requires i < |ops| == |done| && cb >= 1
  {
    var s := FlatAfter(start, done[..i]);
    && done[i].op == ops[i] && done[i].fits == Runs.Fits(s.pos, ops[i], cb) && (done[i].ok ==> done[i].fits)
    && done[i].out == if done[i].ok then Runs.FlatOutput(s, ops[i]) else []
  }

  /** An operation that was issued did not succeed. */
  predicate SomeFailed(done: seq<Done>) {
    exists i :: 0 <= i < |done| && done[i].fits && !done[i].ok
  }

  function Plain(log: seq<Runs.Event>): (done: seq<Done>)
    ensures |done| == |log|
    ensures forall i :: 0 <= i < |log| ==> done[i] == Done(log[i].op, log[i].fits, log[i].ok, log[i].out)
  {
    seq(|log|, i requires 0 <= i < |log| => Done(log[i].op, log[i].fits, log[i].ok, log[i].out))
  }

  lemma {:induction false} PlainAfter(s: Runs.Flat, log: seq<Runs.Event>, f: File)
    requires forall i :: 0 <= i < |log| ==> log[i].file == f
    ensures FlatAfter(s, Plain(log)) == Runs.After(s, log, f)
  {
    hide Runs.FlatStep;
    if log != [] {
      var front := log[..|log| - 1];
      PlainAfter(s, front, f);
      assert Plain(log)[..|log| - 1] == Plain(front);
    }
  }

  lemma SessionIsFlat(start: Runs.Flat, end: Runs.Flat, f: File, ops: seq<Runs.Op>, log: seq<Runs.Event>, cb: nat)
    requires cb >= 1 && Session(start, end, f, ops, log, cb)
    ensures FlatSession(start, end, ops, Plain(log), cb) && (SomeFailed(Plain(log)) <==> !Runs.NoneFailed(log))
  {
    hide Runs.After, FlatAfter, Runs.FlatOutput, Runs.Fits;
    PlainAfter(start, log, f);
    forall i | 0 <= i < |ops|
      ensures DoneAt(start, ops, Plain(log), cb, i)
    {
      assert Runs.FaithfulAt(map[f := start], log, cb, i);
      assert Plain(log)[..i] == Plain(log[..i]);
      PlainAfter(start, log[..i], f);
    }
  }

  /** Open the file and perform the operations. */
  method OpenAndRun(v: Volume, w: Where, ops: seq<Runs.Op>, ghost t: Tree, ghost fixed: set<nat>, ghost leaked: set<nat>, ghost x: Listed)
    returns (f: File, log: seq<Runs.Event>, ghost lost: set<nat>)
    requires FsOk(v, t, fixed, leaked) && w.dirCluster in t.dirs && w.dirCluster in t.lists && x in t.lists[w.dirCluster]
    requires w == WhereOf(w.dirCluster, x) && !w.isDir
    modifies v
    ensures fresh(f) && f.dirCluster == w.dirCluster && f.setOffset == x.at * ENTRY_BYTES && x.info.first !in t.dirs
    ensures Runs.SystemOk(v, {f}, Rest(t, x.info.first, fixed), lost)
    ensures leaked <= lost && (Runs.NoneFailed(log) ==> lost == leaked && (f.dirty || f.cl == ClustersOf(t, x)))
    ensures Kept(old(v.fat), old(v.heap), v.fat, v.heap, Rest(t, x.info.first, fixed) + leaked)
    ensures old(Chain(v.g, v.fat, v.used, x.info.first, x.info.contiguous, ClustersOf(t, x)))
    ensures Runs.FlushDue(Runs.Meta(false, x.info.size, x.info.valid, x.info.contiguous, ClustersOf(t, x)), Runs.MetaOf(f))
    ensures old(Readable(v.heap, v.g.spc, t, x))
    ensures Session(Runs.Flat(old(FileBytes(v.heap, v.g.spc, t, x)), 0), Runs.View(v, f), f, ops, log, v.g.spc * 512)
  {
    hide Matches, Kept, Held, Accounted, Chain, TreeOk, Rows, Have, Visible, ChainBytes, Runs.Faithful, Runs.After;
    f := new File(w.first, w.size, w.valid, w.contiguous, w.isDir, w.dirCluster, w.setIndex * ENTRY_BYTES, ClustersOf(t, x));
    ghost var k := w.first;
    OpenedFile(v, f, t, fixed, leaked, w.dirCluster, x);
    SessionStart(v, f, t, fixed, leaked, w.dirCluster, x);
    ghost var start;
    log, lost, start := Runs.Run(v, {f}, seq(|ops|, i requires 0 <= i < |ops| => (f, ops[i])), Rest(t, k, fixed), leaked);
    assert start == map[f := start[f]];
  }

  /** Open the file, perform the operations, flush. */
  method UpdateFile(v: Volume, w: Where, ops: seq<Runs.Op>, ghost t: Tree, ghost fixed: set<nat>, ghost leaked: set<nat>, ghost x: Listed)
    returns (f: File, log: seq<Runs.Event>, ghost t': Tree, ghost y: Listed, ghost leaked': set<nat>)
    requires FsOk(v, t, fixed, leaked) && w.dirCluster in t.dirs && w.dirCluster in t.lists && x in t.lists[w.dirCluster]
    requires w == WhereOf(w.dirCluster, x) && !w.isDir
    modifies v
    ensures FsOk(v, t', fixed, leaked') && leaked <= leaked' && (Runs.NoneFailed(log) ==> leaked' == leaked)
    ensures old(Readable(v.heap, v.g.spc, t, x)) && Readable(v.heap, v.g.spc, t', y)
    ensures Session(Runs.Flat(old(FileBytes(v.heap, v.g.spc, t, x)), 0), Runs.Flat(FileBytes(v.heap, v.g.spc, t', y), f.pos), f, ops, log, v.g.spc * 512)
    ensures EntryReplaced(t, t', w.dirCluster, x, y, ClustersOf(t', y))
    ensures FilesKept(Released(t, x.info.first), old(v.heap), v.heap)
  {
    hide Matches, Kept, Held, Accounted, Chain, TreeOk, Rows, Have, FileBytes, FilesKept, EntryReplaced, Session, Contents, FileOk;
    ghost var fat0, used0, heap0, k := v.fat, v.used, v.heap, w.first;
    ghost var lost;
    f, log, lost := OpenAndRun(v, w, ops, t, fixed, leaked, x);
    ghost var heap1 := v.heap;
    FilesOfRest(t, k, fixed, leaked, used0, fat0, heap0, v.fat, heap1);
    t', y, leaked' := EndSession(v, f, fat0, used0, heap0, t, fixed, leaked, lost, x);
    FilesKeptThen(Released(t, k), Released(t, k), heap0, heap1, v.heap);
  }

  lemma FilesOfRest(t: Tree, k: nat, fixed: set<nat>, leaked: set<nat>, used0: set<nat>,
                    fat: seq<nat>, heap: seq<seq<Sector>>, fat': seq<nat>, heap': seq<seq<Sector>>)
    requires Kept(fat, heap, fat', heap', Rest(t, k, fixed) + leaked)
    ensures FilesKept(Released(t, k), heap, heap')
  {
    var t1 := Released(t, k);
    forall m | m in t1.chains && m !in t1.dirs
      ensures SameSectors(heap, heap', t1.chains[m])
    {
      OwnedHas(t.chains - {k}, m);
      assert forall c :: c in t1.chains[m] ==> c in Elems(t1.chains[m]);
    }
  }
}
