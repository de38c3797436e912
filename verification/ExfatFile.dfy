/** Open exFAT files: the handle, chain extension, and the read, write and truncate
  * operations, proved to act on the file's bytes as on one flat sequence with a cursor.
  */
module ExfatFile {
  import opened Arith
  import opened Bytes
  import opened ExfatScan
  import opened ExfatVolume
  import opened ExfatContents

  const ERR_IS_DIR: int := -1
  const ERR_NO_SPACE: int := -4
  const ERR_IO: int := -2

  /** The open-file cursor. `cl` is the chain of clusters the file owns, in order. */
  class File {
    var first: nat
    var size: nat
    var valid: nat
    var pos: nat
    var dirCluster: nat
    var setOffset: nat
    var contiguous: bool
    var isDir: bool
    var dirty: bool
    ghost var cl: seq<nat>

    constructor (first: nat, size: nat, valid: nat, contiguous: bool, isDir: bool, dirCluster: nat, setOffset: nat, ghost cl: seq<nat>)
      ensures this.first == first && this.size == size && this.valid == valid && this.contiguous == contiguous
      ensures this.isDir == isDir && this.dirCluster == dirCluster && this.setOffset == setOffset && this.cl == cl
      ensures pos == 0 && !dirty
    {
      this.first, this.size, this.valid, this.pos := first, size, valid, 0;
      this.dirCluster, this.setOffset := dirCluster, setOffset;
      this.contiguous, this.isDir, this.dirty := contiguous, isDir, false;
      this.cl := cl;
    }
  }

  /** `cl` is a chain of distinct allocated data clusters starting at `first`. */
  ghost predicate Chain(g: Geometry, fat: seq<nat>, used: set<nat>, first: nat, contiguous: bool, cl: seq<nat>) {
    && (first < 2 <==> cl == [])
    && (cl != [] ==> cl[0] == first)
    && (forall c :: c in cl ==> g.IsData(c) && c in used)
    && Distinct(cl)
    && Linked(fat, contiguous, cl)
  }

  /** Clusters a file of `size` bytes owns: none without a first cluster, else at least one. */
  function Have(first: nat, size: nat, cb: nat): nat
    requires cb >= 1
  {
    if first < 2 then 0
    else if CeilDiv(size, cb) % 0x1_0000_0000 == 0 then 1
    else CeilDiv(size, cb) % 0x1_0000_0000
  }

  /** Clusters for a byte count, rounded up in 64 bits and cut to 32. */
  function Need(end: nat, cb: nat): nat
    requires cb >= 1
  {
    CeilDiv(end, cb) % 0x1_0000_0000
  }

  /** The cluster count is exact precisely when it fits in 32 bits. */
  lemma NeedExact(end: nat, cb: nat)
    requires cb >= 1
    ensures Need(end, cb) * cb >= end <==> CeilDiv(end, cb) < 0x1_0000_0000
    ensures CeilDiv(end, cb) < 0x1_0000_0000 ==> Need(end, cb) == CeilDiv(end, cb)
  {
    CeilDivBounds(end, cb);
    var q, r := CeilDiv(end, cb), Need(end, cb);
    if q >= 0x1_0000_0000 {
      MulMonotone(r, q - 1, cb);
    }
  }

  /** The count does not fit 32 bits. */
  predicate Wraps(end: nat, cb: nat)
    requires cb >= 1
  {
    CeilDiv(end, cb) >= 0x1_0000_0000
  }

  /** One byte at offset 2^44 of a volume with 4096-byte clusters: the count wraps to one cluster,
    * so with one free cluster neither a write nor a truncate to there is refused.
    */
  lemma NeedWraps()
    ensures Wraps(0x1000_0000_0001, 4096) && Need(0x1000_0000_0001, 4096) == 1
    ensures Need(0x1000_0000_0001, 4096) * 4096 < 0x1000_0000_0001
  {
  }

  ghost predicate FileOk(v: Volume, f: File)
    reads v, f
  {
    && Chain(v.g, v.fat, v.used, f.first, f.contiguous, f.cl)
    && v.g.spc >= 1
    && Rows(v.heap, f.cl, v.g.spc)
    && f.valid <= f.size <= |f.cl| * v.g.spc * 512
    && |f.cl| == Have(f.first, f.size, v.g.spc * 512)
  }

  /** The file as the flat byte sequence a caller sees. */
  ghost function Contents(v: Volume, f: File): seq<byte>
    requires FileOk(v, f)
    reads v, f
  {
    Visible(ChainBytes(v.heap, f.cl, v.g.spc), f.valid, f.size)
  }

  /** The links and sectors of the clusters in `kept` are the same. */
  ghost predicate Kept(fat: seq<nat>, heap: seq<seq<Sector>>, fat': seq<nat>, heap': seq<seq<Sector>>, kept: set<nat>) {
    && |fat| == |fat'| && |heap| == |heap'|
    && forall c :: c in kept ==> c < |fat| && fat'[c] == fat[c] && c < |heap| && heap'[c] == heap[c]
  }

  // ---- facts about chains ----

  lemma {:induction false} DistinctFits(cl: seq<nat>, s: set<nat>)
    requires Distinct(cl) && Elems(cl) <= s
    ensures |cl| <= |s|
  {
    if cl != [] {
      var n := |cl| - 1;
      ElemsPrefix(cl, n);
      assert cl[..n + 1] == cl;
      DistinctFits(cl[..n], s - {cl[n]});
    }
  }

  /** A chain is no longer than the volume has clusters. */
  lemma ChainFits(g: Geometry, cl: seq<nat>)
    requires Distinct(cl) && forall c :: c in cl ==> g.IsData(c)
    ensures |cl| <= g.count
  {
    DistinctFits(cl, Clusters(g.count));
  }

  lemma RowsOfChain(v: Volume, cl: seq<nat>)
    requires v.Valid() && forall c :: c in cl ==> v.g.IsData(c)
    ensures v.g.spc >= 1 && v.g.count + 2 < FAT_BAD
    ensures Rows(v.heap, cl, v.g.spc)
    ensures |v.fat| == v.g.count + 2 == |v.heap|
  {
    CountBelow(v.g);
    forall i | 0 <= i < |cl|
      ensures v.g.IsData(cl[i])
    {
      assert cl[i] in cl;
    }
  }

  lemma CeilDivAtMost(size: nat, cb: nat, n: nat)
    requires cb >= 1 && size <= n * cb
    ensures CeilDiv(size, cb) <= n
  {
    CeilDivBounds(size, cb);
    if CeilDiv(size, cb) > n {
      MulMonotone(n, CeilDiv(size, cb) - 1, cb);
    }
  }

  /** What `Have` computes for a well-formed file, without wrap-around. */
  lemma HaveExact(v: Volume, f: File)
    requires v.Valid() && FileOk(v, f)
    ensures f.first < 2 ==> |f.cl| == 0 && f.size == 0
    ensures f.first >= 2 ==> |f.cl| == Max(1, CeilDiv(f.size, v.g.spc * 512))
    ensures CeilDiv(f.size, v.g.spc * 512) <= |f.cl| <= v.g.count < FAT_BAD - 2
  {
    hide Matches;
    ChainFits(v.g, f.cl);
    RowsOfChain(v, f.cl);
    CeilDivAtMost(f.size, v.g.spc * 512, |f.cl|);
  }

  // ---- walking and extending a chain ----

  /** Cluster number `idx` of an open file. */
  method ClusterForIndex(v: Volume, f: File, idx: nat) returns (c: nat)
    requires v.Valid() && Chain(v.g, v.fat, v.used, f.first, f.contiguous, f.cl) && idx < |f.cl|
    modifies v`fatCache, v`fatCacheLba, v`fatCacheValid
    ensures v.Valid() && c == f.cl[idx]
  {
    hide Matches;
    c := f.first;
    if f.contiguous {
      ContiguousAt(v.fat, f.cl, idx);
      return c + idx;
    }
    for i := 0 to idx
      invariant v.Valid() && c == f.cl[i]
    {
      assert f.cl[i] in f.cl && f.cl[i + 1] in f.cl;
      c := v.FatNext(c);
    }
  }

  lemma {:induction false} ContiguousAt(fat: seq<nat>, cl: seq<nat>, i: nat)
    requires Linked(fat, true, cl) && i < |cl|
    ensures cl[i] == cl[0] + i
  {
    if i > 0 {
      ContiguousAt(fat, cl, i - 1);
      assert cl[i - 1 + 1] == cl[i - 1] + 1;
    }
  }

  /** Lay FAT links over a contiguous run of clusters. */
  method LayLinks(v: Volume, first: nat, ghost cl: seq<nat>, have: nat)
    requires v.Valid() && Chain(v.g, v.fat, v.used, first, true, cl) && |cl| == have
    modifies v`disk, v`fat, v`fatCache
    ensures v.Valid() && Chain(v.g, v.fat, v.used, first, false, cl)
    ensures Kept(old(v.fat), v.heap, v.fat, v.heap, v.used - Elems(cl))
  {
    hide Matches;
    RowsOfChain(v, cl);
    forall j | 0 <= j < have
      ensures cl[j] == first + j && v.g.IsData(cl[j])
    {
      ContiguousAt(v.fat, cl, j);
      assert cl[j] in cl;
    }
    assert v.g.count + 2 < FAT_BAD by { MatchesValid(v.g, v.disk, v.fat, v.used, v.heap); }
    KeptSelf(v);
    var i := 0;
    while i + 1 < have
      invariant v.Valid() && |v.fat| == |old(v.fat)|
      invariant forall j :: 0 <= j < i && j + 1 < have ==> v.fat[cl[j]] == cl[j + 1]
      invariant Kept(old(v.fat), v.heap, v.fat, v.heap, v.used - Elems(cl))
    {
      assert cl[i] in cl;
      v.FatSet(first + i, first + i + 1);
      i := i + 1;
    }
  }

  lemma KeptSelf(v: Volume)
    requires v.Valid()
    ensures Kept(v.fat, v.heap, v.fat, v.heap, v.used)
    ensures 0 !in v.used
  {
    assert forall c :: c in v.used ==> v.g.IsCluster(c);
  }

  /** A fresh cluster linked after the last one extends the chain. */
  lemma ChainAppend(g: Geometry, fat: seq<nat>, used: set<nat>, first: nat, cl: seq<nat>, nc: nat, fat': seq<nat>)
    requires |fat| == g.count + 2
    requires Chain(g, fat, used, first, false, cl) && cl != []
    requires g.IsData(nc) && nc !in used
    requires cl[|cl| - 1] < |fat| && fat' == fat[nc := FAT_EOC][cl[|cl| - 1] := nc]
    ensures Chain(g, fat', used + {nc}, first, false, cl + [nc])
    ensures fat'[nc] == FAT_EOC
  {
    var cl' := cl + [nc];
    var n := |cl|;
    forall i | 0 <= i < n
      ensures cl'[i] == cl[i] && cl[i] in cl && cl[i] != nc
    {
    }
    forall i | 0 <= i < n
      ensures cl'[i + 1] == fat'[cl'[i]]
    {
      if i < n - 1 {
        assert cl[i] != cl[n - 1];
        assert cl[i + 1] == fat[cl[i]];
      }
    }
    assert Linked(fat', false, cl');
    forall c | c in cl'
      ensures g.IsData(c) && c in used + {nc}
    {
    }
  }

  /** Rewriting links outside a chain, or its end link, keeps the chain. */
  lemma ChainKept(g: Geometry, fat: seq<nat>, used: set<nat>, first: nat, contiguous: bool, cl: seq<nat>,
                  c: nat, value: nat, used': set<nat>)
    requires Chain(g, fat, used, first, contiguous, cl)
    requires c < |fat| && (c in cl ==> c == cl[|cl| - 1]) && Elems(cl) <= used'
    ensures Chain(g, fat[c := value], used', first, contiguous, cl)
  {
    var fat' := fat[c := value];
    forall i | 0 <= i < |cl| - 1
      ensures cl[i] < |fat'| && cl[i + 1] == if contiguous then cl[i] + 1 else fat'[cl[i]]
    {
      assert cl[i] in cl && cl[i] != cl[|cl| - 1];
    }
    assert forall x :: x in cl ==> x in Elems(cl);
  }

  /** Find the last cluster of a chain and mark it as the end. */
  method SealEnd(v: Volume, first: nat, have: nat, ghost cl: seq<nat>) returns (last: nat)
    requires v.Valid() && Chain(v.g, v.fat, v.used, first, false, cl) && |cl| == have > 0
    modifies v`disk, v`fat, v`fatCache, v`fatCacheLba, v`fatCacheValid
    ensures v.Valid() && Chain(v.g, v.fat, v.used, first, false, cl)
    ensures last == cl[have - 1] && last < |old(v.fat)| && v.fat == old(v.fat)[last := FAT_EOC]
  {
    hide Matches;
    RowsOfChain(v, cl);
    last := first;
    for i := 1 to have
      invariant v.Valid() && v.fat == old(v.fat) && last == cl[i - 1]
    {
      assert cl[i - 1] in cl && cl[i - 1 + 1] == v.fat[cl[i - 1]];
      last := v.FatNext(last);
    }
    assert last in cl;
    ChainKept(v.g, v.fat, v.used, first, false, cl, last, FAT_EOC, v.used);
    v.FatSet(last, FAT_EOC);
  }

  /** Ensure the file owns at least `need` clusters, extending the chain as required. A
    * contiguous file becomes a FAT chain on the first extension. Returns the cluster
    * count, or 0 when the volume is full: the clusters taken by then stay marked in the
    * bitmap, without an owner.
    */
  method EnsureClusters(v: Volume, f: File, need: nat) returns (n: nat)
    requires v.Valid() && FileOk(v, f) && need > 0
    modifies v, f`first, f`contiguous, f`cl
    ensures v.Valid() && v.heap == old(v.heap)
    ensures Chain(v.g, v.fat, v.used, f.first, f.contiguous, f.cl)
    ensures Kept(old(v.fat), v.heap, v.fat, v.heap, old(v.used) - Elems(old(f.cl)))
    ensures old(f.cl) <= f.cl && Elems(f.cl) * old(v.used) <= Elems(old(f.cl))
    ensures n >= need ==> n == |f.cl| == Max(|old(f.cl)|, need) && v.used == old(v.used) + Elems(f.cl)
    ensures n >= need && f.cl != old(f.cl) ==> !f.contiguous && f.cl != [] && f.cl[|f.cl| - 1] < |v.fat| && v.fat[f.cl[|f.cl| - 1]] == FAT_EOC
    ensures n < need ==> FileOk(v, f) && old(v.used) <= v.used && v.Full()
    ensures n < need ==> f.cl == old(f.cl) || old(f.cl) == []
    ensures n < need <==> need > |old(f.cl)| + old(v.Supply())
    ensures f.contiguous ==> old(f.contiguous)
  {
    hide Matches, Linked, Distinct, Kept, Deliverable;
    HaveExact(v, f);
    ChainInRange(v, f.first, f.contiguous, f.cl);
    KeptSelf(v);
    ghost var fat0, kept := v.fat, v.used - Elems(f.cl);
    KeptFewer(fat0, v.heap, fat0, v.used, kept);
    var have := Have(f.first, f.size, v.g.spc * 512);
    if need <= have {
      return have;
    }
    if f.contiguous && have > 1 {
      LayLinks(v, f.first, f.cl, have);
    }
    ShortLinks(v.fat, f.cl);
    f.contiguous := false;
    var last := 0;
    if have > 0 {
      ghost var fat1 := v.fat;
      last := SealEnd(v, f.first, have, f.cl);
      assert last in Elems(f.cl);
      assert Kept(fat0, v.heap, fat1, v.heap, kept);
      assert forall c :: 0 <= c < |v.fat| && c != last ==> v.fat[c] == fat1[c];
      KeptStep(fat0, fat1, v.fat, v.heap, kept, last, last);
    }
    ghost var fat2 := v.fat;
    n := AppendClusters(v, f, have, need, last);
    KeptTrans(fat0, fat2, v.fat, v.heap, kept);
    RowsOfChain(v, f.cl);
    if n == 0 && have == 0 {
      CeilDivBounds(f.size, v.g.spc * 512);
    }
  }

  /** The allocation loop of `EnsureClusters`. */
  method AppendClusters(v: Volume, f: File, have: nat, need: nat, last0: nat) returns (n: nat)
    requires v.Valid() && !f.contiguous && have == |f.cl| < need
    requires Chain(v.g, v.fat, v.used, f.first, false, f.cl)
    requires (last0 == 0 <==> have == 0) && (have > 0 ==> last0 == f.cl[have - 1])
    modifies v, f`first, f`cl
    ensures v.Valid() && v.heap == old(v.heap)
    ensures Chain(v.g, v.fat, v.used, f.first, false, f.cl)
    ensures Kept(old(v.fat), v.heap, v.fat, v.heap, old(v.used) - Elems(old(f.cl)))
    ensures old(f.cl) <= f.cl && Elems(f.cl) * old(v.used) <= Elems(old(f.cl))
    ensures n == 0 || n == need
    ensures n == need ==> |f.cl| == need && v.used == old(v.used) + Elems(f.cl)
    ensures n == need ==> f.cl[need - 1] < |v.fat| && v.fat[f.cl[need - 1]] == FAT_EOC
    ensures n == 0 ==> old(v.used) <= v.used && v.Full()
    ensures n == 0 ==> f.cl == old(f.cl) || (old(f.cl) == [] && |f.cl| == 1)
    ensures n == 0 <==> need - have > old(v.Supply())
  {
    hide Matches, Chain, Linked, Deliverable, Distinct;
    ChainInRange(v, f.first, f.contiguous, f.cl);
    KeptSelf(v);
    var last := last0;
    ghost var built := f.cl;
    for i := have to need
      invariant v.Valid() && v.heap == old(v.heap) && f.cl == old(f.cl) && !f.contiguous
      invariant |built| == i && old(f.cl) <= built
      invariant (last == 0 <==> i == 0) && (i > 0 ==> last == built[i - 1])
      invariant Chain(v.g, v.fat, v.used, f.first, false, built)
      invariant v.used == old(v.used) + Elems(built)
      invariant Elems(built) * old(v.used) <= Elems(old(f.cl))
      invariant Kept(old(v.fat), v.heap, v.fat, v.heap, old(v.used) - Elems(old(f.cl)))
      invariant i > have ==> last < |v.fat| && v.fat[last] == FAT_EOC
      invariant old(v.Supply()) == i - have + v.Supply()
    {
      ghost var fat0, kept := v.fat, old(v.used) - Elems(old(f.cl));
      assert i > 0 ==> last in Elems(built);
      var nc := LinkFresh(v, f, last, built);
      if nc == 0 {
        KeepPrefix(v, f, built, have);
        f.cl := if have == 0 && i > 0 then built[..1] else f.cl;
        return 0;
      }
      ElemsAppend(built, nc);
      KeptStep(old(v.fat), fat0, v.fat, v.heap, kept, nc, last);
      built := built + [nc];
      last := nc;
    }
    f.cl := built;
    n := need;
  }

  /** Take a free cluster and link it after the last one of `built`. */
  method LinkFresh(v: Volume, f: File, last: nat, ghost built: seq<nat>) returns (nc: nat)
    requires v.Valid() && !f.contiguous
    requires Chain(v.g, v.fat, v.used, f.first, false, built)
    requires (last == 0 <==> built == []) && (built != [] ==> last == built[|built| - 1])
    modifies v, f`first
    ensures v.Valid() && v.heap == old(v.heap) && |v.fat| == |old(v.fat)|
    ensures nc == 0 ==> v.fat == old(v.fat) && v.used == old(v.used) && f.first == old(f.first)
    ensures if nc == 0 then v.Full() && v.Supply() == old(v.Supply()) else old(v.Supply()) == 1 + v.Supply()
    ensures nc != 0 ==> v.g.IsData(nc) && nc !in old(v.used) && v.used == old(v.used) + {nc}
    ensures nc != 0 ==> Chain(v.g, v.fat, v.used, f.first, false, built + [nc])
    ensures nc != 0 ==> nc < |v.fat| && v.fat[nc] == FAT_EOC
    ensures forall c :: 0 <= c < |v.fat| && c != nc && c != last ==> v.fat[c] == old(v.fat)[c]
  {
    hide Matches;
    RowsOfChain(v, built);
    nc := v.AllocCluster();
    if nc == 0 {
      return;
    }
    ghost var fat0 := v.fat;
    v.FatSet(nc, FAT_EOC);
    if last == 0 {
      f.first := nc;
      ChainOne(v.g, v.fat, v.used, nc);
      assert built + [nc] == [nc];
    } else {
      assert last in built;
      v.FatSet(last, nc);
      ChainAppend(v.g, fat0, old(v.used), f.first, built, nc, v.fat);
    }
  }

  lemma ShortLinks(fat: seq<nat>, cl: seq<nat>)
    ensures |cl| <= 1 ==> Linked(fat, false, cl)
  {
  }

  lemma KeptFewer(fat: seq<nat>, heap: seq<seq<Sector>>, fat1: seq<nat>, kept: set<nat>, fewer: set<nat>)
    requires Kept(fat, heap, fat1, heap, kept) && fewer <= kept
    ensures Kept(fat, heap, fat1, heap, fewer)
  {
  }

  lemma KeptTrans(fat: seq<nat>, fat1: seq<nat>, fat2: seq<nat>, heap: seq<seq<Sector>>, kept: set<nat>)
    requires Kept(fat, heap, fat1, heap, kept) && Kept(fat1, heap, fat2, heap, kept)
    ensures Kept(fat, heap, fat2, heap, kept)
  {
  }

  lemma KeptStep(fat: seq<nat>, fat1: seq<nat>, fat2: seq<nat>, heap: seq<seq<Sector>>, kept: set<nat>, a: nat, b: nat)
    requires Kept(fat, heap, fat1, heap, kept) && |fat2| == |fat1|
    requires forall c :: 0 <= c < |fat2| && c != a && c != b ==> fat2[c] == fat1[c]
    requires a !in kept && b !in kept
    ensures Kept(fat, heap, fat2, heap, kept)
  {
  }

  lemma ChainInRange(v: Volume, first: nat, contiguous: bool, cl: seq<nat>)
    requires v.Valid() && Chain(v.g, v.fat, v.used, first, contiguous, cl)
    ensures Elems(cl) <= v.used && v.used == v.used + Elems(cl)
    ensures |v.fat| == v.g.count + 2 == |v.heap| && v.g.spc >= 1
    ensures Rows(v.heap, cl, v.g.spc)
  {
    RowsOfChain(v, cl);
  }

  lemma ChainOne(g: Geometry, fat: seq<nat>, used: set<nat>, c: nat)
    requires g.IsData(c) && c in used
    ensures Chain(g, fat, used, c, false, [c])
  {
  }

  /** Clusters linked after the file's own stay out of the file. */
  lemma KeepPrefix(v: Volume, f: File, built: seq<nat>, have: nat)
    requires Chain(v.g, v.fat, v.used, f.first, false, built) && have == |f.cl| && f.cl <= built
    ensures have > 0 ==> Chain(v.g, v.fat, v.used, f.first, false, f.cl)
    ensures have == 0 && built != [] ==> Chain(v.g, v.fat, v.used, f.first, false, built[..1])
  {
    if have > 0 {
      ChainTake(v.g, v.fat, v.used, f.first, false, built, have);
      assert built[..have] == f.cl;
    } else if built != [] {
      ChainTake(v.g, v.fat, v.used, f.first, false, built, 1);
    }
  }

  lemma ChainTake(g: Geometry, fat: seq<nat>, used: set<nat>, first: nat, contiguous: bool, cl: seq<nat>, n: nat)
    requires Chain(g, fat, used, first, contiguous, cl) && 0 < n <= |cl|
    ensures Chain(g, fat, used, first, contiguous, cl[..n])
  {
    var p := cl[..n];
    assert forall i :: 0 <= i < n ==> p[i] == cl[i] && cl[i] in cl;
    forall i | 0 <= i < n - 1
      ensures p[i] < |fat| && p[i + 1] == if contiguous then p[i] + 1 else fat[p[i]]
    {
      assert cl[i + 1] == if contiguous then cl[i] + 1 else fat[cl[i]];
    }
  }

  // ---- reading and writing the bytes of a chain ----

  /** The cluster number and the offset inside it, a shift and a mask by the cluster size. */
  function ClusterIndex(pos: nat, cb: nat): nat
    requires cb >= 1
  {
    pos / cb
  }

  function InCluster(pos: nat, cb: nat): (r: nat)
    requires cb >= 1
    ensures r < cb
  {
    pos % cb
  }

  /** A position inside the chain falls in one of its clusters. */
  lemma Locate(pos: nat, n: nat, spc: nat)
    requires spc >= 1 && pos < n * spc * 512
    ensures var k, s := ClusterIndex(pos, spc * 512), InCluster(pos, spc * 512) / 512;
            && k < n && s < spc && InCluster(pos, spc * 512) % 512 == pos % 512
            && pos == (k * spc + s) * 512 + pos % 512
  {
    SplitPosition(pos, spc);
    SectorIndex(pos / 512, n, spc);
  }

  /** `heap` is `heap0` with the bytes `data` stored at `pos` of the chain `cl`. */
  ghost predicate BytesStored(heap0: seq<seq<Sector>>, heap: seq<seq<Sector>>, cl: seq<nat>, spc: nat, pos: nat, data: seq<byte>) {
    && Rows(heap0, cl, spc) && Rows(heap, cl, spc) && |heap| == |heap0|
    && pos + |data| <= |ChainBytes(heap0, cl, spc)|
    && ChainBytes(heap, cl, spc) == Put(ChainBytes(heap0, cl, spc), pos, data)
    && forall c :: 0 <= c < |heap| && c !in cl ==> heap[c] == heap0[c]
  }

  lemma StoredNothing(heap: seq<seq<Sector>>, cl: seq<nat>, spc: nat, pos: nat, n: nat)
    requires Rows(heap, cl, spc) && pos + n <= |cl| * spc * 512
    ensures BytesStored(heap, heap, cl, spc, pos, [])
  {
    assert Put(ChainBytes(heap, cl, spc), pos, []) == ChainBytes(heap, cl, spc);
  }

  /** One more sector stored. */
  lemma StoredMore(heap0: seq<seq<Sector>>, heap: seq<seq<Sector>>, cl: seq<nat>, spc: nat, pos: nat, data: seq<byte>,
                   k: nat, s: nat, off: nat, more: seq<byte>)
    requires BytesStored(heap0, heap, cl, spc, pos, data) && Distinct(cl)
    requires k < |cl| && s < spc && off + |more| <= 512
    requires pos + |data| == (k * spc + s) * 512 + off
    ensures cl[k] < |heap| && s < |heap[cl[k]]|
    ensures BytesStored(heap0, HeapPut(heap, cl[k], s, Put(heap[cl[k]][s], off, more)), cl, spc, pos, data + more)
  {
    var b0 := ChainBytes(heap0, cl, spc);
    var sec: Sector := Put(heap[cl[k]][s], off, more);
    var heap' := HeapPut(heap, cl[k], s, sec);
    ChunkWritten(heap, cl, spc, k, s, off, more, sec);
    BytesLength(heap0, cl, spc);
    BytesLength(heap, cl, spc);
    PutPut(b0, pos, data, more);
    assert cl[k] in cl;
    assert forall c :: 0 <= c < |heap| && c !in cl ==> heap'[c] == heap[c];
  }

  /** Store `buf` into the chain at `pos`, sector by sector. */
  method StoreBytes(v: Volume, f: File, pos: nat, buf: seq<byte>)
    requires v.Valid() && Chain(v.g, v.fat, v.used, f.first, f.contiguous, f.cl) && v.g.spc >= 1
    requires Rows(v.heap, f.cl, v.g.spc) && pos + |buf| <= |f.cl| * v.g.spc * 512
    modifies v`disk, v`heap, v`fatCache, v`fatCacheLba, v`fatCacheValid
    ensures v.Valid() && BytesStored(old(v.heap), v.heap, f.cl, v.g.spc, pos, buf)
  {
    hide Matches, BytesStored, Linked, Rows;
    var spc := v.g.spc;
    var n := |buf|;
    var done := 0;
    StoredNothing(v.heap, f.cl, spc, pos, n);
    assert buf[..0] == [];
    while done < n
      invariant done <= n
      invariant v.Valid() && BytesStored(old(v.heap), v.heap, f.cl, spc, pos, buf[..done])
      decreases n - done
    {
      Locate(pos + done, |f.cl|, spc);
      var k := ClusterIndex(pos + done, spc * 512);
      var cluster := ClusterForIndex(v, f, k);
      var sec := InCluster(pos + done, spc * 512) / 512;
      var off := InCluster(pos + done, spc * 512) % 512;
      done := StoreInCluster(v, f, pos, buf, done, k, cluster, sec, off, old(v.heap));
    }
    assert buf[..n] == buf;
  }

  /** The sectors of one cluster, from sector `sec0` and byte `off0` on. */
  method StoreInCluster(v: Volume, f: File, pos: nat, buf: seq<byte>, done0: nat, k: nat, cluster: nat, sec0: nat, off0: nat,
                        ghost heap0: seq<seq<Sector>>)
    returns (done: nat)
    requires v.Valid() && Chain(v.g, v.fat, v.used, f.first, f.contiguous, f.cl)
    requires done0 < |buf| && BytesStored(heap0, v.heap, f.cl, v.g.spc, pos, buf[..done0])
    requires k < |f.cl| && f.cl[k] == cluster && sec0 < v.g.spc && off0 < 512
    requires pos + done0 == (k * v.g.spc + sec0) * 512 + off0
    modifies v`disk, v`heap
    ensures v.Valid() && done0 < done <= |buf|
    ensures BytesStored(heap0, v.heap, f.cl, v.g.spc, pos, buf[..done])
  {
    hide Matches, BytesStored, Linked, Rows;
    var spc := v.g.spc;
    var n := |buf|;
    var sec, off := sec0, off0;
    done := done0;
    assert cluster in f.cl;
    while sec < spc && done < n
      invariant done0 <= done <= n && sec <= spc && off < 512
      invariant done == done0 ==> sec < spc
      invariant sec < spc && done < n ==> pos + done == (k * spc + sec) * 512 + off
      invariant v.Valid() && BytesStored(heap0, v.heap, f.cl, spc, pos, buf[..done])
      decreases spc - sec
    {
      var chunk := Min(512 - off, n - done);
      var data := buf[done..done + chunk];
      StoredMore(heap0, v.heap, f.cl, spc, pos, buf[..done], k, sec, off, data);
      PutChunk(v, cluster, sec, off, data);
      assert buf[..done] + data == buf[..done + chunk];
      done := done + chunk;
      off := 0;
      sec := sec + 1;
    }
  }

  /** Store `data` at byte `off` of one sector: a whole sector is written outright, a
    * partial one is read first.
    */
  method PutChunk(v: Volume, cluster: nat, s: nat, off: nat, data: seq<byte>)
    requires v.Valid() && v.g.IsData(cluster) && s < v.g.spc && off + |data| <= 512
    requires cluster < |v.heap| && s < |v.heap[cluster]|
    modifies v`disk, v`heap
    ensures v.Valid()
    ensures v.heap == HeapPut(old(v.heap), cluster, s, Put(old(v.heap[cluster][s]), off, data))
  {
    hide Matches;
    var tmp := ZERO_SECTOR;
    if off != 0 || |data| != 512 {
      tmp := v.ReadSector(cluster, s);
    }
    assert Put(tmp, off, data) == Put(v.heap[cluster][s], off, data);
    v.WriteSector(cluster, s, Put(tmp, off, data));
  }

  lemma BytesLength(heap: seq<seq<Sector>>, cl: seq<nat>, spc: nat)
    requires Rows(heap, cl, spc)
    ensures |ChainBytes(heap, cl, spc)| == |cl| * spc * 512
  {
  }

  // ---- read ----

  /** What a read means for a flat byte sequence. */
  function FlatRead(c: seq<byte>, pos: nat, n: nat): seq<byte> {
    if pos >= |c| then [] else c[pos..Min(pos + n, |c|)]
  }

  /** The bytes of one sector as the reader delivers them, zeros past ValidDataLength. */
  function Deliver(tmp: Sector, off: nat, chunk: nat, abspos: nat, valid: nat): (r: seq<byte>)
    requires off + chunk <= 512
    ensures |r| == chunk
  {
    if abspos >= valid then Zeros(chunk)
    else if abspos + chunk > valid then tmp[off..off + (valid - abspos)] + Zeros(chunk - (valid - abspos))
    else tmp[off..off + chunk]
  }

  lemma DeliverIsVisible(chain: seq<byte>, valid: nat, size: nat, tmp: Sector, j: nat, off: nat, chunk: nat)
    requires valid <= size && valid <= |chain| && off + chunk <= 512
    requires j * 512 + 512 <= |chain| && chain[j * 512..j * 512 + 512] == tmp
    requires j * 512 + off + chunk <= size
    ensures Deliver(tmp, off, chunk, j * 512 + off, valid) ==
            Visible(chain, valid, size)[j * 512 + off..j * 512 + off + chunk]
  {
    var base := j * 512;
    var l, r := Deliver(tmp, off, chunk, base + off, valid), Visible(chain, valid, size)[base + off..base + off + chunk];
    assert forall i :: 0 <= i < 512 ==> tmp[i] == chain[base + i];
    forall i | 0 <= i < chunk
      ensures l[i] == r[i]
    {
      assert r[i] == if base + off + i < valid then chain[base + off + i] else 0;
    }
  }

  /** Read up to `n` bytes at the cursor. */
  method Read(v: Volume, f: File, n: nat) returns (r: int, buf: seq<byte>)
    requires v.Valid() && FileOk(v, f)
    modifies v`fatCache, v`fatCacheLba, v`fatCacheValid, f`pos
    ensures v.Valid() && FileOk(v, f) && Contents(v, f) == old(Contents(v, f))
    ensures f.isDir ==> r == ERR_IS_DIR && f.pos == old(f.pos)
    ensures !f.isDir ==> r == |buf| && buf == FlatRead(Contents(v, f), old(f.pos), n) && f.pos == old(f.pos) + |buf|
  {
    hide Matches, Linked, Visible, ChainBytes;
    buf := [];
    if f.isDir {
      return ERR_IS_DIR, buf;
    }
    if f.pos >= f.size {
      return 0, buf;
    }
    var want := Min(n, f.size - f.pos);
    var spc := v.g.spc;
    ghost var content := Contents(v, f);
    assert |content| == f.size by { BytesLength(v.heap, f.cl, spc); }
    var done := 0;
    while done < want
      invariant done == |buf| <= want && v.Valid() && FileOk(v, f)
      invariant f.pos == old(f.pos) && Contents(v, f) == content
      invariant buf == content[f.pos..f.pos + done]
      decreases want - done
    {
      Locate(f.pos + done, |f.cl|, spc);
      var k := ClusterIndex(f.pos + done, spc * 512);
      var cluster := ClusterForIndex(v, f, k);
      var sec := InCluster(f.pos + done, spc * 512) / 512;
      var off := InCluster(f.pos + done, spc * 512) % 512;
      buf := ReadInCluster(v, f, want, buf, k, cluster, sec, off);
      done := |buf|;
    }
    f.pos := f.pos + done;
    r := done;
  }

  method ReadInCluster(v: Volume, f: File, want: nat, buf0: seq<byte>, k: nat, cluster: nat, sec0: nat, off0: nat)
    returns (buf: seq<byte>)
    requires v.Valid() && FileOk(v, f) && |buf0| < want && f.pos + want <= f.size == |Contents(v, f)|
    requires buf0 == Contents(v, f)[f.pos..f.pos + |buf0|]
    requires k < |f.cl| && f.cl[k] == cluster && sec0 < v.g.spc && off0 < 512
    requires f.pos + |buf0| == (k * v.g.spc + sec0) * 512 + off0
    ensures |buf0| < |buf| <= want
    ensures buf == Contents(v, f)[f.pos..f.pos + |buf|]
  {
    hide Matches, FileOk, Contents, Deliver;
    var spc := v.g.spc;
    var sec, off := sec0, off0;
    var done := |buf0|;
    buf := buf0;
    ghost var content := Contents(v, f);
    while sec < spc && done < want
      invariant |buf0| <= done == |buf| <= want && sec <= spc && off < 512
      invariant done == |buf0| ==> sec < spc
      invariant sec < spc && done < want ==> f.pos + done == (k * spc + sec) * 512 + off
      invariant f.pos + done <= |content| && buf == content[f.pos..f.pos + done]
      decreases spc - sec
    {
      var chunk := Min(512 - off, want - done);
      FileCluster(v, f, k);
      var tmp := v.ReadSector(cluster, sec);
      SectorDelivers(v, f, k, sec, off, chunk, tmp);
      buf := buf + Deliver(tmp, off, chunk, f.pos + done, f.valid);
      SliceMore(content, f.pos, done, chunk);
      done := done + chunk;
      off := 0;
      sec := sec + 1;
    }
  }

  lemma FileCluster(v: Volume, f: File, k: nat)
    requires FileOk(v, f) && k < |f.cl|
    ensures v.g.IsData(f.cl[k])
  {
    assert f.cl[k] in f.cl;
  }

  lemma SliceMore(c: seq<byte>, p: nat, n: nat, m: nat)
    requires p + n + m <= |c|
    ensures c[p..p + n] + c[p + n..p + n + m] == c[p..p + n + m]
  {
  }

  /** A sector of the file delivers its slice of the contents. */
  lemma SectorDelivers(v: Volume, f: File, k: nat, s: nat, off: nat, chunk: nat, tmp: Sector)
    requires FileOk(v, f) && k < |f.cl| && s < v.g.spc && off + chunk <= 512
    requires tmp == v.heap[f.cl[k]][s] && (k * v.g.spc + s) * 512 + off + chunk <= f.size
    ensures |Contents(v, f)| == f.size
    ensures var p := (k * v.g.spc + s) * 512 + off;
            Deliver(tmp, off, chunk, p, f.valid) == Contents(v, f)[p..p + chunk]
  {
    hide Deliver;
    SectorSlice(v.heap, f.cl, v.g.spc, k, s);
    DeliverIsVisible(ChainBytes(v.heap, f.cl, v.g.spc), f.valid, f.size, tmp, k * v.g.spc + s, off, chunk);
  }

  // ---- write ----

  /** Zero the gap below the cursor, then store the data. */
  method FillAndStore(v: Volume, f: File, buf: seq<byte>)
    requires v.Valid() && Chain(v.g, v.fat, v.used, f.first, f.contiguous, f.cl) && v.g.spc >= 1
    requires Rows(v.heap, f.cl, v.g.spc) && Max(f.valid, f.pos + |buf|) <= |f.cl| * v.g.spc * 512
    modifies v`disk, v`heap, v`fatCache, v`fatCacheLba, v`fatCacheValid, f`valid
    ensures v.Valid() && f.valid == Max(old(f.valid), f.pos)
    ensures Rows(v.heap, f.cl, v.g.spc) && |v.heap| == |old(v.heap)|
    ensures forall c :: 0 <= c < |v.heap| && c !in f.cl ==> v.heap[c] == old(v.heap)[c]
    ensures ChainBytes(v.heap, f.cl, v.g.spc) ==
            Put(GapFilled(old(ChainBytes(v.heap, f.cl, v.g.spc)), old(f.valid), f.pos), f.pos, buf)
  {
    hide Matches, Chain, Linked, Distinct, ChainBytes;
    BytesLength(v.heap, f.cl, v.g.spc);
    if f.pos > f.valid {
      StoreBytes(v, f, f.valid, Zeros(f.pos - f.valid));
      f.valid := f.pos;
    }
    BytesLength(v.heap, f.cl, v.g.spc);
    StoreBytes(v, f, f.pos, buf);
  }

  /** Extending a chain leaves the file's bytes in place. */
  lemma ChainBytesGrow(heap: seq<seq<Sector>>, cl0: seq<nat>, cl: seq<nat>, spc: nat)
    requires Rows(heap, cl, spc) && cl0 <= cl
    ensures Rows(heap, cl0, spc)
    ensures ChainBytes(heap, cl0, spc) <= ChainBytes(heap, cl, spc)
    ensures |ChainBytes(heap, cl0, spc)| == |cl0| * spc * 512 && |ChainBytes(heap, cl, spc)| == |cl| * spc * 512
  {
    assert cl[..|cl0|] == cl0;
    ChainPrefix(heap, cl, |cl0|, spc);
  }

  lemma VisiblePrefix(b0: seq<byte>, b1: seq<byte>, valid: nat, size: nat)
    requires b0 <= b1 && valid <= size && valid <= |b0|
    ensures Visible(b1, valid, size) == Visible(b0, valid, size)
  {
    assert b0[..valid] == b1[..valid];
  }

  /** The cluster count after a write is again the one computed from the size. */
  lemma HaveAfterWrite(first0: nat, first: nat, size: nat, end: nat, cb: nat, have: nat, n: nat)
    requires cb >= 1 && end > 0 && CeilDiv(end, cb) < 0x1_0000_0000 && CeilDiv(size, cb) < 0x1_0000_0000
    requires have == Have(first0, size, cb) && (first0 < 2 ==> size == 0) && first >= 2
    requires n == Max(have, Need(end, cb))
    ensures n == Have(first, Max(size, end), cb) && end <= n * cb && size <= n * cb
  {
    hide CeilDiv;
    CeilDivPositive(end, cb);
    if size <= end {
      CeilDivMonotone(size, end, cb);
    } else {
      CeilDivMonotone(end, size, cb);
    }
    CoversAll(end, cb, n);
    CoversAll(size, cb, n);
  }

  lemma CeilDivPositive(n: nat, cb: nat)
    requires cb >= 1
    ensures n > 0 <==> CeilDiv(n, cb) >= 1
  {
    CeilDivBounds(n, cb);
  }

  lemma CoversAll(size: nat, cb: nat, n: nat)
    requires cb >= 1 && CeilDiv(size, cb) <= n
    ensures size <= n * cb
  {
    CeilDivBounds(size, cb);
    MulMonotone(CeilDiv(size, cb), n, cb);
  }

  lemma KeptHeap(fat0: seq<nat>, heap0: seq<seq<Sector>>, fat1: seq<nat>, heap1: seq<seq<Sector>>, kept: set<nat>, cl: seq<nat>)
    requires Kept(fat0, heap0, fat1, heap0, kept) && Elems(cl) !! kept && |heap1| == |heap0|
    requires forall c :: 0 <= c < |heap0| && c !in cl ==> heap1[c] == heap0[c]
    ensures Kept(fat0, heap0, fat1, heap1, kept)
  {
    assert forall c :: c in kept ==> c !in cl;
  }

  lemma ElemsOfPrefix(a: seq<nat>, b: seq<nat>)
    requires a <= b
    ensures Elems(a) <= Elems(b)
  {
    assert forall i :: 0 <= i < |a| ==> a[i] == b[i];
  }

  lemma SetsApart(a: set<nat>, u: set<nat>, b: set<nat>)
    requires a * u <= b
    ensures a !! u - b
  {
    assert forall x :: x in a && x in u ==> x in a * u;
  }

  /** A write into clusters the file already owns. */
  method WriteCovered(v: Volume, f: File, buf: seq<byte>)
    requires v.Valid() && Chain(v.g, v.fat, v.used, f.first, f.contiguous, f.cl) && v.g.spc >= 1
    requires Rows(v.heap, f.cl, v.g.spc) && buf != []
    requires f.valid <= f.size && Max(f.size, f.pos + |buf|) <= |f.cl| * v.g.spc * 512
    requires |f.cl| == Have(f.first, Max(f.size, f.pos + |buf|), v.g.spc * 512)
    modifies v`disk, v`heap, v`fatCache, v`fatCacheLba, v`fatCacheValid, f`size, f`valid, f`pos, f`dirty
    ensures v.Valid() && FileOk(v, f)
    ensures Contents(v, f) ==
            FlatWrite(old(Visible(ChainBytes(v.heap, f.cl, v.g.spc), f.valid, f.size)), old(f.pos), buf)
    ensures f.pos == old(f.pos) + |buf| && |v.heap| == |old(v.heap)| && f.dirty
    ensures forall c :: 0 <= c < |v.heap| && c !in f.cl ==> v.heap[c] == old(v.heap)[c]
  {
    hide Matches, Linked, Distinct, Visible, ChainBytes, Rows, FlatWrite, Have, CeilDiv, Elems, GapFilled;
    ghost var b1 := ChainBytes(v.heap, f.cl, v.g.spc);
    BytesLength(v.heap, f.cl, v.g.spc);
    FillAndStore(v, f, buf);
    WriteIsFlat(b1, b1, old(f.valid), f.size, f.pos, buf);
    var end := f.pos + |buf|;
    if end > f.valid { f.valid := end; }
    if end > f.size { f.size := end; }
    f.pos := end;
    f.dirty := true;
  }

  /** A handle that needs no flush: its metadata is as before, but for a cluster an empty
    * file may have taken before the volume filled up.
    */
  ghost predicate Untouched(size: nat, valid: nat, cl: seq<nat>, size0: nat, valid0: nat, cl0: seq<nat>) {
    size == size0 && valid == valid0 && (cl == cl0 || cl0 == [])
  }

  /** The chain ends at its last link, so that a walk past its clusters fails. */
  ghost predicate Sealed(v: Volume, f: File)
    reads v, f
  {
    !f.contiguous && f.cl != [] && f.cl[|f.cl| - 1] < |v.fat| && Ends(v.fat[f.cl[|f.cl| - 1]])
  }

  lemma SealedByEnd(v: Volume, f: File)
    requires !f.contiguous && f.cl != [] && f.cl[|f.cl| - 1] < |v.fat| && v.fat[f.cl[|f.cl| - 1]] == FAT_EOC
    ensures Sealed(v, f)
  {
  }

  /** The bytes of a chain too short for a write of `buf` at `pos`: zeros from ValidDataLength up
    * to the cursor and the data from there on, as far as the chain goes.
    */
  ghost function CutShort(b: seq<byte>, valid: nat, pos: nat, buf: seq<byte>): seq<byte>
    requires valid <= |b| < pos + |buf|
  {
    if pos > |b| then GapFilled(b, valid, |b|) else Put(GapFilled(b, valid, pos), pos, buf[..|b| - pos])
  }

  /** What a write that stops at the end of the chain `cl` leaves: its bytes, its result and the valid length. */
  ghost predicate Stopped(spc: nat, heap0: seq<seq<Sector>>, heap: seq<seq<Sector>>, cl: seq<nat>, valid0: nat, pos: nat,
                          buf: seq<byte>, r: int, valid: nat)
  {
    && Rows(heap0, cl, spc) && Rows(heap, cl, spc)
    && var n := |ChainBytes(heap0, cl, spc)|;
    && valid0 <= n < pos + |buf|
    && ChainBytes(heap, cl, spc) == CutShort(ChainBytes(heap0, cl, spc), valid0, pos, buf)
    && r == (if pos < n then n - pos else ERR_IO)
    && valid == (if pos <= n then Max(valid0, pos) else valid0)
  }

  /** A write that starts past the chain leaves what a reader sees. */
  lemma StoppedUnseen(b: seq<byte>, valid: nat, size: nat, pos: nat, buf: seq<byte>)
    requires valid <= size && valid <= |b| < pos
    ensures |CutShort(b, valid, pos, buf)| == |b|
    ensures Visible(CutShort(b, valid, pos, buf), valid, size) == Visible(b, valid, size)
  {
    assert CutShort(b, valid, pos, buf)[..valid] == b[..valid];
  }

  /** The walk to the cluster behind the last one of a file: a chain that ends stops it. */
  method WalkPast(v: Volume, f: File, n: nat) returns (ok: bool)
    requires v.Valid() && Chain(v.g, v.fat, v.used, f.first, f.contiguous, f.cl) && n == |f.cl| > 0
    modifies v`fatCache, v`fatCacheLba, v`fatCacheValid
    ensures v.Valid() && (ok <==> !Sealed(v, f))
  {
    hide Matches;
    RowsOfChain(v, f.cl);
    if f.contiguous {
      return true;
    }
    var c := f.first;
    for i := 0 to n
      invariant v.Valid() && (i < n ==> c == f.cl[i]) && (i == n ==> !Sealed(v, f))
    {
      assert f.cl[i] in f.cl && (i + 1 < n ==> f.cl[i + 1] in f.cl);
      c := v.FatNext(c);
      if Ends(c) {
        return false;
      }
    }
    ok := true;
  }

  /** A write past the end of a chain that ends: it stops there, with an error if no byte of the
    * data was stored. The length and the cursor stay.
    */
  method WriteSealed(v: Volume, f: File, buf: seq<byte>, n: nat) returns (r: int)
    requires v.Valid() && Chain(v.g, v.fat, v.used, f.first, f.contiguous, f.cl) && v.g.spc >= 1
    requires Rows(v.heap, f.cl, v.g.spc) && n == |f.cl| * v.g.spc * 512 && f.valid <= n < f.pos + |buf|
    modifies v`disk, v`heap, v`fatCache, v`fatCacheLba, v`fatCacheValid, f`valid
    ensures v.Valid() && |v.heap| == |old(v.heap)|
    ensures Stopped(v.g.spc, old(v.heap), v.heap, f.cl, old(f.valid), f.pos, buf, r, f.valid)
    ensures forall c :: 0 <= c < |v.heap| && c !in f.cl ==> v.heap[c] == old(v.heap)[c]
  {
    hide Matches, Chain, Linked, Distinct, ChainBytes, Rows;
    BytesLength(v.heap, f.cl, v.g.spc);
    if f.pos <= n {
      FillAndStore(v, f, buf[..n - f.pos]);
      r := if f.pos < n then n - f.pos else ERR_IO;
    } else {
      StoreBytes(v, f, f.valid, Zeros(n - f.valid));
      assert n == f.valid ==> Put(old(ChainBytes(v.heap, f.cl, v.g.spc)), f.valid, []) == old(ChainBytes(v.heap, f.cl, v.g.spc));
      r := ERR_IO;
    }
  }

  /** Where a write whose count wrapped puts its zeros and its data when the walk can leave the chain: what
    * the links hold, or the neighbours of a run, decides which sectors of the heap it meets and where
    * it stops, be they another file's or the bitmap's.
    */
  method WriteAstray(v: Volume, f: File, buf: seq<byte>) returns (r: int)
    modifies v`disk, v`fatCache, v`fatCacheLba, v`fatCacheValid, f`size, f`valid, f`pos, f`dirty
    ensures |v.disk| == |old(v.disk)|
    ensures forall lba :: 0 <= lba < v.g.heapLba && lba < |v.disk| ==> v.disk[lba] == old(v.disk)[lba]
    ensures r == ERR_IO || 0 <= r <= |buf|
  {
    var more: int := *;
    for i := 0 to Max(0, more)
      invariant |v.disk| == |old(v.disk)|
      invariant forall lba :: 0 <= lba < v.g.heapLba && lba < |v.disk| ==> v.disk[lba] == old(v.disk)[lba]
    {
      var lba: nat := *;
      var sec: Sector := *;
      if v.g.heapLba <= lba < |v.disk| {
        v.disk := v.disk[lba := sec];
      }
    }
    v.fatCache, v.fatCacheLba, v.fatCacheValid := *, *, *;
    f.size, f.valid, f.pos, f.dirty := *, *, *, *;
    r := *;
    if r < 0 || r > |buf| {
      r := ERR_IO;
    }
  }

  /** A write to clusters that do not reach its end. */
  method WriteOnward(v: Volume, f: File, buf: seq<byte>, n: nat) returns (r: int)
    requires v.Valid() && Chain(v.g, v.fat, v.used, f.first, f.contiguous, f.cl) && v.g.spc >= 1
    requires Rows(v.heap, f.cl, v.g.spc) && n == |f.cl| > 0
    requires f.valid <= n * v.g.spc * 512 < f.pos + |buf| && buf != [] && f.valid <= f.size
    modifies v`disk, v`heap, v`fatCache, v`fatCacheLba, v`fatCacheValid, f`size, f`valid, f`pos, f`dirty
    ensures r == ERR_IO || 0 <= r <= |buf|
    ensures Sealed(v, f) == old(Sealed(v, f))
    ensures Sealed(v, f) ==>
              && v.Valid() && Stopped(v.g.spc, old(v.heap), v.heap, f.cl, old(f.valid), old(f.pos), buf, r, f.valid)
              && f.size == old(f.size) && f.pos == old(f.pos) && f.dirty == old(f.dirty)
              && |v.heap| == |old(v.heap)| && forall c :: 0 <= c < |v.heap| && c !in f.cl ==> v.heap[c] == old(v.heap)[c]
    ensures Sealed(v, f) && r == ERR_IO && f.valid == old(f.valid) ==>
              && Rows(v.heap, f.cl, v.g.spc) && Rows(old(v.heap), f.cl, v.g.spc)
              && |ChainBytes(old(v.heap), f.cl, v.g.spc)| == |ChainBytes(v.heap, f.cl, v.g.spc)| >= f.valid
              && Visible(ChainBytes(v.heap, f.cl, v.g.spc), f.valid, f.size) == Visible(ChainBytes(old(v.heap), f.cl, v.g.spc), f.valid, f.size)
  {
    hide Matches, Linked, Distinct, Visible, ChainBytes, Rows, Elems, CutShort;
    var ok := WalkPast(v, f, n);
    if ok {
      r := WriteAstray(v, f, buf);
      return;
    }
    BytesLength(v.heap, f.cl, v.g.spc);
    ghost var b := ChainBytes(v.heap, f.cl, v.g.spc);
    if f.pos > |b| {
      StoppedUnseen(b, f.valid, f.size, f.pos, buf);
    } else if f.pos == |b| == f.valid {
      StoppedAtEnd(b, f.valid, buf);
    }
    r := WriteSealed(v, f, buf, n * v.g.spc * 512);
  }

  /** A chain full of valid bytes has no room for one more. */
  lemma StoppedAtEnd(b: seq<byte>, pos: nat, buf: seq<byte>)
    requires pos == |b| && buf != []
    ensures CutShort(b, pos, pos, buf) == b
  {
    assert Put(b, pos, []) == b;
  }

  lemma RowOf(v: Volume, c: nat)
    requires v.Valid() && v.g.IsCluster(c)
    ensures c < |v.heap| && c < |v.fat| == |v.heap| && |v.heap[c]| == v.g.spc >= 1
  {
  }

  /** A write whose end wraps the cluster count. No volume can hold it; it is refused for lack of
    * space exactly when even the wrapped count asks for more clusters than there are. A chain that
    * ends keeps it inside the file's own clusters.
    */
  method WriteWrapped(v: Volume, f: File, buf: seq<byte>) returns (r: int)
    requires v.Valid() && FileOk(v, f) && !f.isDir && buf != [] && Wraps(f.pos + |buf|, v.g.spc * 512)
    modifies v, f`first, f`size, f`valid, f`pos, f`contiguous, f`dirty, f`cl
    ensures r == ERR_NO_SPACE <==>
              Max(1, Need(old(f.pos) + |buf|, v.g.spc * 512)) > |old(f.cl)| + old(v.Supply())
    ensures r != ERR_NO_SPACE ==> |f.cl| * (v.g.spc * 512) < old(f.pos) + |buf|
    ensures r == ERR_NO_SPACE ==> v.Valid() && FileOk(v, f) && Contents(v, f) == old(Contents(v, f)) && f.pos == old(f.pos)
    ensures r == ERR_NO_SPACE ==> old(f.cl) <= f.cl && old(v.used) <= v.used && Elems(f.cl) * old(v.used) <= Elems(old(f.cl))
    ensures r == ERR_NO_SPACE ==> v.Full() && f.dirty == old(f.dirty)
    ensures r == ERR_NO_SPACE ==> Kept(old(v.fat), old(v.heap), v.fat, v.heap, old(v.used) - Elems(old(f.cl)))
    ensures r == ERR_NO_SPACE ==> Untouched(f.size, f.valid, f.cl, old(f.size), old(f.valid), old(f.cl)) && (f.contiguous ==> old(f.contiguous))
    ensures r != ERR_NO_SPACE && f.cl != old(f.cl) ==> Sealed(v, f)
    ensures r != ERR_NO_SPACE && Sealed(v, f) ==>
              && v.Valid() && Chain(v.g, v.fat, v.used, f.first, f.contiguous, f.cl)
              && Stopped(v.g.spc, old(v.heap), v.heap, f.cl, old(f.valid), old(f.pos), buf, r, f.valid)
              && f.size == old(f.size) && f.pos == old(f.pos) && f.dirty == old(f.dirty)
              && old(f.cl) <= f.cl && v.used == old(v.used) + Elems(f.cl) && Elems(f.cl) * old(v.used) <= Elems(old(f.cl))
              && Kept(old(v.fat), old(v.heap), v.fat, v.heap, old(v.used) - Elems(old(f.cl)))
              && (r == ERR_IO && f.cl == old(f.cl) && f.valid == old(f.valid) ==> FileOk(v, f) && Contents(v, f) == old(Contents(v, f)))
  {
    hide Matches, Linked, Distinct, Visible, ChainBytes, Kept, Rows, Have, Need, CeilDiv, Elems, Deliverable, CutShort, Stopped, Sealed;
    var spc := v.g.spc;
    ghost var heap0, cl0, fat0, used0 := v.heap, f.cl, v.fat, v.used;
    HaveExact(v, f);
    var end := f.pos + |buf|;
    var need := Max(1, Need(end, spc * 512));
    var n := EnsureClusters(v, f, need);
    ChainInRange(v, f.first, f.contiguous, f.cl);
    ChainBytesGrow(v.heap, cl0, f.cl, spc);
    VisiblePrefix(ChainBytes(heap0, cl0, spc), ChainBytes(v.heap, f.cl, spc), f.valid, f.size);
    BytesOfClusters(|f.cl|, spc);
    if n < need {
      return ERR_NO_SPACE;
    }
    ChainIsData(v, f.first, f.contiguous, f.cl);
    ChainFits(v.g, f.cl);
    TooFar(end, spc * 512, |f.cl|);
    if f.cl != cl0 {
      SealedByEnd(v, f);
    }
    r := WriteOnward(v, f, buf, n);
    SetsApart(Elems(f.cl), used0, Elems(cl0));
    if Sealed(v, f) {
      KeptHeap(fat0, heap0, v.fat, v.heap, used0 - Elems(cl0), f.cl);
    }
  }

  lemma ChainIsData(v: Volume, first: nat, contiguous: bool, cl: seq<nat>)
    requires Chain(v.g, v.fat, v.used, first, contiguous, cl)
    ensures Distinct(cl) && forall c :: c in cl ==> v.g.IsData(c)
  {
  }

  /** No chain of a volume reaches a wrapped end. */
  lemma TooFar(end: nat, cb: nat, n: nat)
    requires cb >= 1 && Wraps(end, cb) && n < 0x1_0000_0000 - 1
    ensures n * cb < end
  {
    CeilDivBounds(end, cb);
    MulMonotone(n, CeilDiv(end, cb) - 1, cb);
  }

  /** The end of the write does not wrap the cluster count, or space ran out. */
  predicate Served(v: Volume, end: nat, r: int)
    requires v.g.spc >= 1
    reads v
  {
    !Wraps(end, v.g.spc * 512) || r == ERR_NO_SPACE
  }

  /** Write `buf` at the cursor: a flat write, or no effect on the bytes when the volume fills up,
    * as long as the cluster count for its end does not wrap. If that wraps, it is refused only when
    * there is too little space for the wrapped count; else the chain does not reach the end of the
    * write. One that ends at its last link keeps the write inside the file's own clusters; otherwise
    * nothing is promised of the bytes on the disk.
    */
  method Write(v: Volume, f: File, buf: seq<byte>) returns (r: int)
    requires v.Valid() && FileOk(v, f)
    modifies v, f`first, f`size, f`valid, f`pos, f`contiguous, f`dirty, f`cl
    ensures v.g.spc >= 1
    ensures if f.isDir then r == ERR_IS_DIR else r == |buf| || r == ERR_NO_SPACE || (buf != [] && Wraps(old(f.pos) + |buf|, v.g.spc * 512))
    ensures !f.isDir && buf != [] && Wraps(old(f.pos) + |buf|, v.g.spc * 512) ==>
              && (r == ERR_NO_SPACE <==> Max(1, Need(old(f.pos) + |buf|, v.g.spc * 512)) > |old(f.cl)| + old(v.Supply()))
              && (r != ERR_NO_SPACE ==> |f.cl| * (v.g.spc * 512) < old(f.pos) + |buf|)
              && (r != ERR_NO_SPACE && f.cl != old(f.cl) ==> Sealed(v, f))
              && (r != ERR_NO_SPACE && Sealed(v, f) ==>
                    && v.Valid() && Chain(v.g, v.fat, v.used, f.first, f.contiguous, f.cl)
                    && Stopped(v.g.spc, old(v.heap), v.heap, f.cl, old(f.valid), old(f.pos), buf, r, f.valid)
                    && f.size == old(f.size) && f.pos == old(f.pos) && f.dirty == old(f.dirty)
                    && old(f.cl) <= f.cl && v.used == old(v.used) + Elems(f.cl) && Elems(f.cl) * old(v.used) <= Elems(old(f.cl))
                    && Kept(old(v.fat), old(v.heap), v.fat, v.heap, old(v.used) - Elems(old(f.cl)))
                    && (r == ERR_IO && f.cl == old(f.cl) && f.valid == old(f.valid) ==> FileOk(v, f) && Contents(v, f) == old(Contents(v, f))))
    ensures f.isDir || buf == [] || Served(v, old(f.pos) + |buf|, r) ==>
              && v.Valid() && FileOk(v, f)
              && Contents(v, f) == (if r == |buf| then FlatWrite(old(Contents(v, f)), old(f.pos), buf) else old(Contents(v, f)))
              && f.pos == (if r == |buf| then old(f.pos) + |buf| else old(f.pos))
              && (r == |buf| ==> v.used == old(v.used) + Elems(f.cl))
              && old(f.cl) <= f.cl && old(v.used) <= v.used && Elems(f.cl) * old(v.used) <= Elems(old(f.cl))
              && (r == ERR_NO_SPACE ==> v.Full())
              && Kept(old(v.fat), old(v.heap), v.fat, v.heap, old(v.used) - Elems(old(f.cl)))
              && (old(f.dirty) ==> f.dirty) && (f.dirty || Untouched(f.size, f.valid, f.cl, old(f.size), old(f.valid), old(f.cl)))
              && (f.contiguous ==> old(f.contiguous)) && (r != ERR_NO_SPACE ==> f.dirty || f.cl == old(f.cl))
  {
    assert v.g.spc >= 1;
    hide Matches, Linked, Distinct, Visible, ChainBytes, Kept, Rows, Have, CeilDiv, Elems, FlatWrite, Deliverable, Need, Chain, Stopped, Sealed;
    if f.isDir || buf == [] || !Wraps(f.pos + |buf|, v.g.spc * 512) {
      r := WriteWithin(v, f, buf);
    } else {
      r := WriteWrapped(v, f, buf);
    }
  }

  /** A write whose end does not wrap the cluster count. */
  method WriteWithin(v: Volume, f: File, buf: seq<byte>) returns (r: int)
    requires v.Valid() && FileOk(v, f)
    requires f.isDir || buf == [] || !Wraps(f.pos + |buf|, v.g.spc * 512)
    modifies v, f`first, f`size, f`valid, f`pos, f`contiguous, f`dirty, f`cl
    ensures v.Valid() && FileOk(v, f)
    ensures if f.isDir then r == ERR_IS_DIR else r == |buf| || r == ERR_NO_SPACE
    ensures Contents(v, f) == if r == |buf| then FlatWrite(old(Contents(v, f)), old(f.pos), buf) else old(Contents(v, f))
    ensures f.pos == if r == |buf| then old(f.pos) + |buf| else old(f.pos)
    ensures r == |buf| ==> v.used == old(v.used) + Elems(f.cl)
    ensures old(f.cl) <= f.cl && old(v.used) <= v.used && Elems(f.cl) * old(v.used) <= Elems(old(f.cl))
    ensures r == ERR_NO_SPACE ==> v.Full()
    ensures Kept(old(v.fat), old(v.heap), v.fat, v.heap, old(v.used) - Elems(old(f.cl)))
    ensures (old(f.dirty) ==> f.dirty) && (f.dirty || Untouched(f.size, f.valid, f.cl, old(f.size), old(f.valid), old(f.cl)))
    ensures f.contiguous ==> old(f.contiguous)
    ensures r != ERR_NO_SPACE ==> f.dirty || f.cl == old(f.cl)
  {
    hide Matches, Linked, Distinct, Visible, ChainBytes, Kept, Rows, Have, CeilDiv, Elems;
    if f.isDir || buf == [] {
      ghost var kept := v.used - Elems(f.cl);
      ChainInRange(v, f.first, f.contiguous, f.cl);
      KeptSelf(v);
      KeptFewer(v.fat, v.heap, v.fat, v.used, kept);
      return if f.isDir then ERR_IS_DIR else 0;
    }
    r := WriteData(v, f, buf);
  }

  method WriteData(v: Volume, f: File, buf: seq<byte>) returns (r: int)
    requires v.Valid() && FileOk(v, f) && !f.isDir && buf != []
    requires CeilDiv(f.pos + |buf|, v.g.spc * 512) < 0x1_0000_0000
    modifies v, f`first, f`size, f`valid, f`pos, f`contiguous, f`dirty, f`cl
    ensures v.Valid() && FileOk(v, f) && (r == |buf| || r == ERR_NO_SPACE)
    ensures Contents(v, f) == if r == |buf| then FlatWrite(old(Contents(v, f)), old(f.pos), buf) else old(Contents(v, f))
    ensures f.pos == if r == |buf| then old(f.pos) + |buf| else old(f.pos)
    ensures r == |buf| ==> v.used == old(v.used) + Elems(f.cl)
    ensures old(f.cl) <= f.cl && old(v.used) <= v.used && Elems(f.cl) * old(v.used) <= Elems(old(f.cl))
    ensures r == ERR_NO_SPACE ==> v.Full()
    ensures Kept(old(v.fat), old(v.heap), v.fat, v.heap, old(v.used) - Elems(old(f.cl)))
    ensures (old(f.dirty) ==> f.dirty) && (f.dirty || Untouched(f.size, f.valid, f.cl, old(f.size), old(f.valid), old(f.cl)))
    ensures f.contiguous ==> old(f.contiguous)
    ensures r == |buf| ==> f.dirty
  {
    hide Matches, Linked, Distinct, Visible, ChainBytes, Kept, Rows, FlatWrite, Have, Need, CeilDiv, Elems, Deliverable;
    var spc := v.g.spc;
    ghost var heap0, cl0, fat0 := v.heap, f.cl, v.fat;
    HaveExact(v, f);
    var end := f.pos + |buf|;
    var need := Need(end, spc * 512);
    CeilDivBounds(end, spc * 512);
    NeedExact(end, spc * 512);
    HaveAfterWrite(f.first, Max(2, f.first), f.size, end, spc * 512, |f.cl|, Max(|f.cl|, need));
    var n := EnsureClusters(v, f, need);
    ChainInRange(v, f.first, f.contiguous, f.cl);
    ChainBytesGrow(v.heap, cl0, f.cl, spc);
    VisiblePrefix(ChainBytes(heap0, cl0, spc), ChainBytes(v.heap, f.cl, spc), f.valid, f.size);
    if n < need {
      return ERR_NO_SPACE;
    }
    BytesOfClusters(|f.cl|, spc);
    HaveSameFirst(Max(2, old(f.first)), f.first, Max(f.size, end), spc * 512);
    WriteCovered(v, f, buf);
    SetsApart(Elems(f.cl), old(v.used), Elems(cl0));
    KeptHeap(fat0, heap0, v.fat, v.heap, old(v.used) - Elems(cl0), f.cl);
    r := |buf|;
  }

  lemma BytesOfClusters(n: nat, spc: nat)
    ensures n * (spc * 512) == n * spc * 512
  {
  }

  lemma HaveSameFirst(first: nat, first': nat, size: nat, cb: nat)
    requires cb >= 1 && first >= 2 && first' >= 2
    ensures Have(first, size, cb) == Have(first', size, cb)
  {
  }

  // ---- truncate ----

  /** Free a run of neighbouring clusters. */
  method FreeRun(v: Volume, first: nat, count: nat, ghost cl: seq<nat>)
    requires v.Valid() && |cl| == count && (forall c :: c in cl ==> v.g.IsData(c))
    requires forall i :: 0 <= i < count ==> cl[i] == first + i
    modifies v`disk, v`used, v`nextFree
    ensures v.Valid() && v.used == old(v.used) - Elems(cl)
  {
    hide Matches;
    for i := 0 to count
      invariant v.Valid() && v.used == old(v.used) - Elems(cl[..i])
    {
      assert cl[i] in cl;
      v.FreeCluster(first + i);
      ElemsPrefix(cl, i);
    }
    assert cl[..count] == cl;
  }

  lemma DistinctSplit(cl: seq<nat>, n: nat)
    requires Distinct(cl) && n <= |cl|
    ensures Elems(cl) == Elems(cl[..n]) + Elems(cl[n..]) && Elems(cl[..n]) !! Elems(cl[n..])
  {
    assert cl == cl[..n] + cl[n..];
    ElemsConcat(cl[..n], cl[n..]);
  }

  /** The tail of a chain is linked and disjoint from what stays. */
  lemma TailOfChain(g: Geometry, fat: seq<nat>, used: set<nat>, first: nat, contiguous: bool, cl: seq<nat>, n: nat)
    requires Chain(g, fat, used, first, contiguous, cl) && n <= |cl|
    ensures forall c :: c in cl[n..] ==> g.IsData(c)
    ensures Linked(fat, contiguous, cl[n..])
    ensures Elems(cl) == Elems(cl[..n]) + Elems(cl[n..]) && Elems(cl[..n]) !! Elems(cl[n..])
  {
    hide Distinct;
    DistinctSplit(cl, n);
    var t := cl[n..];
    assert forall i :: 0 <= i < |t| ==> t[i] == cl[n + i] && cl[n + i] in cl;
    forall i | 0 <= i < |t| - 1
      ensures t[i] < |fat| && t[i + 1] == if contiguous then t[i] + 1 else fat[t[i]]
    {
      assert cl[n + i + 1] == if contiguous then cl[n + i] + 1 else fat[cl[n + i]];
    }
  }

  lemma ChainSmaller(g: Geometry, fat: seq<nat>, used: set<nat>, first: nat, contiguous: bool, cl: seq<nat>, used': set<nat>)
    requires Chain(g, fat, used, first, contiguous, cl) && Elems(cl) <= used'
    ensures Chain(g, fat, used', first, contiguous, cl)
  {
    assert forall c :: c in cl ==> c in Elems(cl);
  }

  /** Free every cluster of a file. */
  method ReleaseAll(v: Volume, f: File, have: nat)
    requires v.Valid() && Chain(v.g, v.fat, v.used, f.first, f.contiguous, f.cl) && |f.cl| == have > 0
    modifies v`disk, v`used, v`nextFree, v`fatCache, v`fatCacheLba, v`fatCacheValid, f`first, f`cl
    ensures v.Valid() && f.first == 0 && f.cl == []
    ensures v.used == old(v.used) - Elems(old(f.cl))
  {
    hide Matches;
    if f.contiguous {
      forall i | 0 <= i < have
        ensures f.cl[i] == f.first + i
      {
        ContiguousAt(v.fat, f.cl, i);
      }
      FreeRun(v, f.first, have, f.cl);
    } else {
      v.FreeChain(f.first, have, f.cl);
    }
    f.first := 0;
    f.cl := [];
  }

  /** Keep the first `need` clusters of a file and free the rest. */
  method ReleaseTail(v: Volume, f: File, need: nat, have: nat)
    requires v.Valid() && Chain(v.g, v.fat, v.used, f.first, f.contiguous, f.cl) && 0 < need < |f.cl| == have
    modifies v, f`cl
    ensures v.Valid() && v.heap == old(v.heap) && f.cl == old(f.cl)[..need]
    ensures Chain(v.g, v.fat, v.used, f.first, f.contiguous, f.cl)
    ensures v.used == old(v.used) - Elems(old(f.cl)[need..])
    ensures Kept(old(v.fat), v.heap, v.fat, v.heap, old(v.used) - Elems(old(f.cl)))
    ensures !f.contiguous ==> f.cl[need - 1] < |v.fat| && v.fat[f.cl[need - 1]] == FAT_EOC
  {
    hide Matches, Linked, Distinct, Kept;
    ghost var keep, tail, fat0 := f.cl[..need], f.cl[need..], v.fat;
    ghost var kept := v.used - Elems(f.cl);
    ChainInRange(v, f.first, f.contiguous, f.cl);
    KeptSelf(v);
    KeptFewer(v.fat, v.heap, v.fat, v.used, kept);
    TailOfChain(v.g, v.fat, v.used, f.first, f.contiguous, f.cl, need);
    ChainTake(v.g, v.fat, v.used, f.first, f.contiguous, f.cl, need);
    var keepLast := ClusterForIndex(v, f, need - 1);
    assert keepLast == keep[need - 1];
    if f.contiguous {
      CutRun(v, f, need, have, keepLast, keep, tail);
    } else {
      CutChain(v, f, need, have, keepLast, keep, tail);
      KeptStep(fat0, fat0, v.fat, v.heap, kept, keepLast, keepLast);
    }
    f.cl := keep;
  }

  method CutRun(v: Volume, f: File, need: nat, have: nat, keepLast: nat, ghost keep: seq<nat>, ghost tail: seq<nat>)
    requires v.Valid() && f.contiguous && 0 < need < |f.cl| == have
    requires f.cl == keep + tail && |keep| == need && keepLast == keep[need - 1]
    requires Linked(v.fat, true, f.cl) && Chain(v.g, v.fat, v.used, f.first, true, keep)
    requires Elems(keep) !! Elems(tail) && forall c :: c in tail ==> v.g.IsData(c)
    modifies v`disk, v`used, v`nextFree
    ensures v.Valid() && Chain(v.g, v.fat, v.used, f.first, true, keep)
    ensures v.used == old(v.used) - Elems(tail)
  {
    hide Matches, Linked, Chain, Distinct;
    forall i | 0 <= i < have - need
      ensures tail[i] == keepLast + 1 + i
    {
      ContiguousAt(v.fat, f.cl, need - 1);
      ContiguousAt(v.fat, f.cl, need + i);
    }
    assert Elems(keep) <= v.used by { ChainInRange(v, f.first, true, keep); }
    FreeRun(v, keepLast + 1, have - need, tail);
    ChainSmaller(v.g, v.fat, old(v.used), f.first, true, keep, v.used);
  }

  method CutChain(v: Volume, f: File, need: nat, have: nat, keepLast: nat, ghost keep: seq<nat>, ghost tail: seq<nat>)
    requires v.Valid() && !f.contiguous && 0 < need < |f.cl| == have
    requires f.cl == keep + tail && |keep| == need && keepLast == keep[need - 1]
    requires Linked(v.fat, false, f.cl) && Linked(v.fat, false, tail) && Chain(v.g, v.fat, v.used, f.first, false, keep)
    requires Elems(keep) !! Elems(tail) && forall c :: c in tail ==> v.g.IsData(c)
    modifies v
    ensures v.Valid() && v.heap == old(v.heap) && Chain(v.g, v.fat, v.used, f.first, false, keep)
    ensures v.used == old(v.used) - Elems(tail)
    ensures keepLast < |old(v.fat)| && v.fat == old(v.fat)[keepLast := FAT_EOC]
  {
    hide Matches, Linked, Chain, Distinct;
    ghost var fat0 := v.fat;
    ChainInRange(v, f.first, false, keep);
    assert keepLast in Elems(keep) && v.g.IsCluster(keepLast) by { UsedInRange(v, keepLast); }
    var firstFree := v.FatNext(keepLast);
    assert firstFree == tail[0] by { NextInChain(v.fat, f.cl, need - 1); }
    v.FatSet(keepLast, FAT_EOC);
    ChainKept(v.g, fat0, v.used, f.first, false, keep, keepLast, FAT_EOC, v.used);
    LinkedElsewhere(fat0, tail, keepLast, FAT_EOC);
    v.FreeChain(firstFree, have - need, tail);
    ChainSmaller(v.g, v.fat, old(v.used), f.first, false, keep, v.used);
  }

  lemma UsedInRange(v: Volume, c: nat)
    requires v.Valid() && c in v.used
    ensures v.g.IsCluster(c)
  {
  }

  lemma NextInChain(fat: seq<nat>, cl: seq<nat>, i: nat)
    requires Linked(fat, false, cl) && i + 1 < |cl|
    ensures cl[i] < |fat| && fat[cl[i]] == cl[i + 1]
  {
  }

  lemma LinkedElsewhere(fat: seq<nat>, cl: seq<nat>, c: nat, value: nat)
    requires Linked(fat, false, cl) && c < |fat| && c !in cl
    ensures Linked(fat[c := value], false, cl)
  {
    forall i | 0 <= i < |cl| - 1
      ensures cl[i] < |fat| && cl[i + 1] == fat[c := value][cl[i]]
    {
      assert cl[i] in cl;
    }
  }

  lemma HaveAfterShrink(first: nat, size: nat, length: nat, cb: nat, have: nat)
    requires cb >= 1 && length <= size && CeilDiv(size, cb) < 0x1_0000_0000
    requires have == Have(first, size, cb) && (first < 2 ==> size == 0)
    ensures CeilDiv(length, cb) < 0x1_0000_0000 && Need(length, cb) <= have
    ensures first >= 2 && Need(length, cb) > 0 ==> Have(first, length, cb) == Need(length, cb)
    ensures Need(length, cb) == 0 <==> length == 0
    ensures length <= Need(length, cb) * cb
  {
    CeilDivMonotone(length, size, cb);
    CeilDivBounds(length, cb);
    CeilDivBounds(size, cb);
  }

  lemma ResizeVisible(b0: seq<byte>, b1: seq<byte>, valid: nat, size: nat, n: nat)
    requires valid <= size && valid <= |b0| && (b0 <= b1 || b1 <= b0) && Min(valid, n) <= |b1|
    ensures Visible(b1, Min(valid, n), n) == FlatResize(Visible(b0, valid, size), n)
  {
    ResizeIsFlat(b0, b1, valid, size, n);
  }

  lemma ElemsEnds(cl: seq<nat>)
    ensures cl[0..] == cl && Elems(cl[|cl|..]) == {}
  {
  }

  /** Extend the file to `length` bytes: DataLength advances, ValidDataLength does not. */
  method Grow(v: Volume, f: File, length: nat) returns (r: int)
    requires v.Valid() && FileOk(v, f) && length > f.size
    requires CeilDiv(length, v.g.spc * 512) < 0x1_0000_0000
    modifies v, f`first, f`size, f`contiguous, f`dirty, f`cl
    ensures v.Valid() && FileOk(v, f) && (r == 0 || r == ERR_NO_SPACE)
    ensures Contents(v, f) == if r == 0 then FlatResize(old(Contents(v, f)), length) else old(Contents(v, f))
    ensures r == 0 ==> v.used == old(v.used) + Elems(f.cl)
    ensures old(v.used) <= v.used && old(f.cl) <= f.cl && Elems(f.cl) * old(v.used) <= Elems(old(f.cl))
    ensures r == ERR_NO_SPACE ==> v.Full()
    ensures v.heap == old(v.heap) && Kept(old(v.fat), v.heap, v.fat, v.heap, old(v.used) - Elems(old(f.cl)))
    ensures (old(f.dirty) ==> f.dirty) && (f.dirty || Untouched(f.size, f.valid, f.cl, old(f.size), old(f.valid), old(f.cl)))
    ensures f.contiguous ==> old(f.contiguous)
    ensures r == 0 ==> f.dirty
  {
    hide Matches, Linked, Distinct, Visible, ChainBytes, Kept, Rows, FlatResize, Need, CeilDiv, Elems, Deliverable;
    var spc := v.g.spc;
    ghost var cl0, b0 := f.cl, ChainBytes(v.heap, f.cl, spc);
    ghost var kept := v.used - Elems(f.cl);
    HaveExact(v, f);
    ChainInRange(v, f.first, f.contiguous, f.cl);
    KeptSelf(v);
    KeptFewer(v.fat, v.heap, v.fat, v.used, kept);
    var need := Need(length, spc * 512);
    var have := Have(f.first, f.size, spc * 512);
    NeedExact(length, spc * 512);
    HaveAfterWrite(f.first, Max(2, f.first), f.size, length, spc * 512, have, Max(have, need));
    if need > have {
      var n := EnsureClusters(v, f, need);
      ChainInRange(v, f.first, f.contiguous, f.cl);
      ChainBytesGrow(v.heap, cl0, f.cl, spc);
      VisiblePrefix(b0, ChainBytes(v.heap, f.cl, spc), f.valid, f.size);
      if n < need {
        return ERR_NO_SPACE;
      }
    }
    ChainInRange(v, f.first, f.contiguous, f.cl);
    ChainBytesGrow(v.heap, cl0, f.cl, spc);
    BytesOfClusters(|f.cl|, spc);
    ResizeVisible(b0, ChainBytes(v.heap, f.cl, spc), f.valid, f.size, length);
    f.size := length;
    f.dirty := true;
    r := 0;
  }

  /** Free the clusters beyond the first `need`, if there are any. */
  method ReleaseBeyond(v: Volume, f: File, need: nat, have: nat)
    requires v.Valid() && Chain(v.g, v.fat, v.used, f.first, f.contiguous, f.cl) && |f.cl| == have >= need
    modifies v, f`first, f`cl
    ensures v.Valid() && Chain(v.g, v.fat, v.used, f.first, f.contiguous, f.cl)
    ensures f.cl == old(f.cl)[..need] && v.used == old(v.used) - Elems(old(f.cl)[need..])
    ensures v.heap == old(v.heap) && Kept(old(v.fat), v.heap, v.fat, v.heap, old(v.used) - Elems(old(f.cl)))
  {
    hide Matches, Kept, Elems;
    ghost var kept := v.used - Elems(f.cl);
    ElemsEnds(f.cl);
    KeptSelf(v);
    KeptFewer(v.fat, v.heap, v.fat, v.used, kept);
    if need < have {
      if need == 0 {
        ReleaseAll(v, f, have);
      } else {
        ReleaseTail(v, f, need, have);
      }
    }
  }

  /** Cut the file to `length` bytes and free the clusters beyond it. */
  method Shrink(v: Volume, f: File, length: nat)
    requires v.Valid() && FileOk(v, f) && length <= f.size
    modifies v, f`first, f`size, f`valid, f`dirty, f`cl
    ensures v.Valid() && FileOk(v, f) && f.cl <= old(f.cl)
    ensures Contents(v, f) == FlatResize(old(Contents(v, f)), length)
    ensures v.used == old(v.used) - Elems(old(f.cl)[|f.cl|..])
    ensures v.heap == old(v.heap) && Kept(old(v.fat), v.heap, v.fat, v.heap, old(v.used) - Elems(old(f.cl)))
    ensures f.dirty
  {
    hide Matches, Linked, Distinct, Visible, ChainBytes, Kept, Rows, FlatResize, Need, CeilDiv, Elems;
    var spc := v.g.spc;
    ghost var cl0, b0 := f.cl, ChainBytes(v.heap, f.cl, spc);
    HaveExact(v, f);
    var need := Need(length, spc * 512);
    var have := Have(f.first, f.size, spc * 512);
    HaveAfterShrink(f.first, f.size, length, spc * 512, have);
    ReleaseBeyond(v, f, need, have);
    ChainInRange(v, f.first, f.contiguous, f.cl);
    ChainBytesGrow(v.heap, f.cl, cl0, spc);
    BytesOfClusters(|f.cl|, spc);
    ResizeVisible(b0, ChainBytes(v.heap, f.cl, spc), f.valid, f.size, length);
    f.size := length;
    if f.valid > length {
      f.valid := length;
    }
    f.dirty := true;
  }

  /** Extend the file to a length that wraps the cluster count: with room for the wrapped count it
    * claims bytes that none of its clusters hold.
    */
  method GrowWrapped(v: Volume, f: File, length: nat) returns (r: int)
    requires v.Valid() && FileOk(v, f) && !f.isDir && Wraps(length, v.g.spc * 512)
    modifies v, f`first, f`size, f`contiguous, f`dirty, f`cl
    ensures v.Valid() && (r == 0 || r == ERR_NO_SPACE) && v.heap == old(v.heap)
    ensures r == ERR_NO_SPACE <==> Need(length, v.g.spc * 512) > |old(f.cl)| + old(v.Supply())
    ensures r == 0 ==> f.size == length && |f.cl| * (v.g.spc * 512) < length
    ensures r == ERR_NO_SPACE ==> FileOk(v, f) && Contents(v, f) == old(Contents(v, f))
    ensures r == ERR_NO_SPACE ==> old(f.cl) <= f.cl && old(v.used) <= v.used && Elems(f.cl) * old(v.used) <= Elems(old(f.cl))
    ensures r == ERR_NO_SPACE ==> v.Full()
    ensures r == ERR_NO_SPACE ==> Kept(old(v.fat), old(v.heap), v.fat, v.heap, old(v.used) - Elems(old(f.cl)))
    ensures r == ERR_NO_SPACE ==> (old(f.dirty) ==> f.dirty) && (f.contiguous ==> old(f.contiguous))
    ensures r == ERR_NO_SPACE ==> Untouched(f.size, f.valid, f.cl, old(f.size), old(f.valid), old(f.cl))
  {
    hide Matches, Linked, Distinct, Visible, ChainBytes, Kept, Rows, FlatResize, Need, CeilDiv, Elems, Deliverable;
    var spc := v.g.spc;
    ghost var cl0, b0 := f.cl, ChainBytes(v.heap, f.cl, spc);
    HaveExact(v, f);
    var need := Need(length, spc * 512);
    var have := Have(f.first, f.size, spc * 512);
    if need > have {
      var n := EnsureClusters(v, f, need);
      ChainInRange(v, f.first, f.contiguous, f.cl);
      ChainBytesGrow(v.heap, cl0, f.cl, spc);
      VisiblePrefix(b0, ChainBytes(v.heap, f.cl, spc), f.valid, f.size);
      if n < need {
        return ERR_NO_SPACE;
      }
    }
    ChainIsData(v, f.first, f.contiguous, f.cl);
    ChainFits(v.g, f.cl);
    TooFar(length, spc * 512, |f.cl|);
    f.size := length;
    f.dirty := true;
    r := 0;
  }

  /** Set the file's length: a flat resize, or no effect when the volume fills up. After a length
    * that wraps the cluster count the file is well-formed exactly when it was refused, and that is
    * when there is too little space for the wrapped count.
    */
  method Ftrunc(v: Volume, f: File, length: nat) returns (r: int)
    requires v.Valid() && FileOk(v, f)
    modifies v, f`first, f`size, f`valid, f`contiguous, f`dirty, f`cl
    ensures v.Valid() && v.g.spc >= 1 && v.heap == old(v.heap)
    ensures if f.isDir then r == ERR_IS_DIR else r == 0 || (r == ERR_NO_SPACE && length > old(f.size))
    ensures FileOk(v, f) <==> f.isDir || Served(v, length, r)
    ensures !f.isDir && Wraps(length, v.g.spc * 512) ==>
              (r == ERR_NO_SPACE <==> Need(length, v.g.spc * 512) > |old(f.cl)| + old(v.Supply()))
    ensures f.isDir || Served(v, length, r) ==>
              && Contents(v, f) == (if r == 0 then FlatResize(old(Contents(v, f)), length) else old(Contents(v, f)))
              && (r == 0 ==> v.used == old(v.used) - Elems(old(f.cl)) + Elems(f.cl))
              && (r < 0 ==> old(v.used) <= v.used)
              && (r == ERR_NO_SPACE ==> v.Full())
              && Elems(f.cl) * old(v.used) <= Elems(old(f.cl))
              && Kept(old(v.fat), old(v.heap), v.fat, v.heap, old(v.used) - Elems(old(f.cl)))
              && (old(f.dirty) ==> f.dirty) && (f.dirty || Untouched(f.size, f.valid, f.cl, old(f.size), old(f.valid), old(f.cl)))
              && (f.contiguous ==> old(f.contiguous)) && (r != ERR_NO_SPACE ==> f.dirty || f.cl == old(f.cl))
  {
    hide Matches, Linked, Distinct, Visible, ChainBytes, Kept, Rows, FlatResize, CeilDiv, Have, Deliverable, Need, Chain, Elems;
    if f.isDir || !Wraps(length, v.g.spc * 512) {
      r := FtruncWithin(v, f, length);
    } else {
      WrapsGrow(v, f, length);
      r := GrowWrapped(v, f, length);
      if r == 0 {
        SizeCovered(v, f);
      }
    }
  }

  /** A length that wraps is beyond every file's size. */
  lemma WrapsGrow(v: Volume, f: File, length: nat)
    requires v.Valid() && FileOk(v, f) && Wraps(length, v.g.spc * 512)
    ensures length > f.size
  {
    hide Matches, CeilDiv;
    HaveExact(v, f);
    BytesOfClusters(|f.cl|, v.g.spc);
    TooFar(length, v.g.spc * 512, |f.cl|);
  }

  lemma SizeCovered(v: Volume, f: File)
    ensures FileOk(v, f) ==> f.size <= |f.cl| * (v.g.spc * 512)
  {
    if FileOk(v, f) {
      BytesOfClusters(|f.cl|, v.g.spc);
    }
  }

  /** Set the length of a file, if it does not wrap the cluster count. */
  method FtruncWithin(v: Volume, f: File, length: nat) returns (r: int)
    requires v.Valid() && FileOk(v, f) && (f.isDir || !Wraps(length, v.g.spc * 512))
    modifies v, f`first, f`size, f`valid, f`contiguous, f`dirty, f`cl
    ensures v.Valid() && FileOk(v, f)
    ensures if f.isDir then r == ERR_IS_DIR else r == 0 || (r == ERR_NO_SPACE && length > old(f.size))
    ensures Contents(v, f) == if r == 0 then FlatResize(old(Contents(v, f)), length) else old(Contents(v, f))
    ensures r == 0 ==> v.used == old(v.used) - Elems(old(f.cl)) + Elems(f.cl)
    ensures r < 0 ==> old(v.used) <= v.used
    ensures r == ERR_NO_SPACE ==> v.Full()
    ensures Elems(f.cl) * old(v.used) <= Elems(old(f.cl))
    ensures v.heap == old(v.heap) && Kept(old(v.fat), v.heap, v.fat, v.heap, old(v.used) - Elems(old(f.cl)))
    ensures (old(f.dirty) ==> f.dirty) && (f.dirty || Untouched(f.size, f.valid, f.cl, old(f.size), old(f.valid), old(f.cl)))
    ensures f.contiguous ==> old(f.contiguous)
    ensures r != ERR_NO_SPACE ==> f.dirty || f.cl == old(f.cl)
  {
    hide Matches, Linked, Visible, ChainBytes, Kept, Rows, FlatResize, CeilDiv, Have;
    ghost var cl0, used0 := f.cl, v.used;
    ChainInRange(v, f.first, f.contiguous, f.cl);
    if f.isDir {
      KeptSelf(v);
      KeptFewer(v.fat, v.heap, v.fat, v.used, v.used - Elems(f.cl));
      return ERR_IS_DIR;
    }
    if length > f.size {
      r := Grow(v, f, length);
      assert f.cl[..|cl0|] == cl0;
      DistinctSplit(f.cl, |cl0|);
    } else {
      Shrink(v, f, length);
      assert f.cl == cl0[..|f.cl|];
      DistinctSplit(cl0, |f.cl|);
      r := 0;
    }
  }
}
