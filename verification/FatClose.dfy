/** Closing a written FAT32 file: the last cluster flushed, unneeded clusters trimmed, the
  * directory entry repointed, and only then the content it replaces freed. And whole saves, from
  * the open to the close, seen by the directory and by every other chain of the volume.
  */
module FatClose {
  import opened Arith
  import opened Bytes
  import opened FatTable
  import opened FatClusters
  import opened FatChains
  import opened FatFiles
  import opened FatWrite
  import opened FatNames
  import opened FatSlots
  import opened FatDirectory
  import opened FatDirOps
  import opened FatDirMap
  import ExfatNames

  // ---- trimming ----

  /** Cutting a chain after `n` clusters leaves its head and frees its tail. */
  lemma CutChain(links: seq<nat>, limit: nat, first: nat, cl: seq<nat>, n: nat)
    requires Chain(links, limit, first, cl) && 1 <= n < |cl|
    ensures var links1 := links[cl[n - 1] := FAT32_EOC];
            && Chain(links1, limit, first, cl[..n]) && Chain(links1, limit, cl[n], cl[n..])
            && Elems(cl[..n]) !! Elems(cl[n..])
  {
    var links1 := links[cl[n - 1] := FAT32_EOC];
    var tail := cl[n..];
    forall i | 0 <= i < |tail|
      ensures links1[tail[i]] == links[tail[i]]
    {
      assert tail[i] == cl[n + i];
    }
    forall i | 0 <= i < |tail| - 1
      ensures links1[tail[i]] == tail[i + 1]
    {
      assert tail[i + 1] == cl[n + i + 1];
    }
  }

  lemma FreedSame(links: seq<nat>, cl: seq<nat>)
    requires forall i :: 0 <= i < |cl| ==> cl[i] < |links|
    ensures SameBut(links, Freed(links, cl), Elems(cl))
  {
  }

  /** End the chain at its `needed`-th cluster `c` and free the rest, which starts at `tail`. */
  method CutTail(v: Fat32, c: nat, tail: nat, ghost first: nat, ghost needed: nat, ghost cl: seq<nat>)
    requires v.Valid() && InRange(v.Links()) && Chain(v.Links(), v.total + 2, first, cl)
    requires 1 <= needed < |cl| && c == cl[needed - 1] && tail == cl[needed]
    modifies v.fat
    ensures v.Valid() && InRange(v.Links()) && Chain(v.Links(), v.total + 2, first, cl[..needed])
    ensures SameBut(old(v.Links()), v.Links(), Elems(cl))
    ensures forall d :: d in cl[needed..] ==> d < |v.Links()| && v.Links()[d] == FREE
  {
    hide LinksOf, Chain, InRange, Freed;
    ghost var links, limit := v.Links(), v.total + 2;
    ChainShape(links, limit, first, cl);
    CutChain(links, limit, first, cl, needed);
    v.SetLink(c, FAT32_EOC);
    EndMarked(links, c);
    ghost var links1 := v.Links();
    ChainShape(links1, limit, tail, cl[needed..]);
    v.FreeChain(tail, cl[needed..]);
    FreedSame(links1, cl[needed..]);
    ChainKept(links1, v.Links(), limit, first, cl[..needed], Elems(cl[needed..]));
    TailOfChain(links, links1, v.Links(), cl, needed, c);
    FreedAll(links1, cl[needed..]);
  }

  /** Free the clusters after the first `needed` of the chain. */
  method Trim(v: Fat32, f: Fd, needed: nat, ghost cl: seq<nat>)
    requires FdOk(v, f, cl) && f.first >= 2 && 1 <= needed < |cl| && f.chainLen == |cl|
    modifies v.fat, f`chainLen, f`chainLast
    ensures v.Valid() && InRange(v.Links()) && Chain(v.Links(), v.total + 2, f.first, cl[..needed])
    ensures SameBut(old(v.Links()), v.Links(), Elems(cl)) && f.chainLen == needed && f.chainLast == cl[needed - 1]
    ensures forall c :: c in cl[needed..] ==> c < |v.Links()| && v.Links()[c] == FREE
  {
    hide LinksOf, Chain, InRange;
    NotMarkers(v, f, cl);
    ChainShape(v.Links(), v.total + 2, f.first, cl);
    var c := f.first;
    var i := 1;
    while i < needed
      invariant 1 <= i <= needed && c == cl[i - 1] && v.Valid() && v.Links() == old(v.Links())
    {
      var next := NeighbourAt(v, c, f.first, cl, i - 1);
      if next < 2 || IsEoc(next) {
        break;
      }
      c := next;
      i := i + 1;
    }
    var tail := NeighbourAt(v, c, f.first, cl, needed - 1);
    if tail >= 2 && !IsEoc(tail) {
      CutTail(v, c, tail, f.first, needed, cl);
    }
    f.chainLen := needed;
    f.chainLast := c;
  }

  lemma FreedAll(links: seq<nat>, cl: seq<nat>)
    requires forall i :: 0 <= i < |cl| ==> cl[i] < |links|
    ensures forall c :: c in cl ==> c < |links| && Freed(links, cl)[c] == FREE
  {
  }

  lemma EndMarked(links: seq<nat>, c: nat)
    requires InRange(links) && c < |links|
    ensures InRange(links[c := FAT32_EOC])
  {
  }

  lemma NotMarkers(v: Fat32, f: Fd, cl: seq<nat>)
    requires FdOk(v, f, cl)
    ensures forall i :: 0 <= i < |cl| ==> 2 <= cl[i] && !IsEoc(cl[i])
  {
  }

  lemma TailOfChain(links: seq<nat>, links1: seq<nat>, links2: seq<nat>, cl: seq<nat>, n: nat, c: nat)
    requires 1 <= n < |cl| && c == cl[n - 1] < |links| && links1 == links[c := FAT32_EOC] && SameBut(links1, links2, Elems(cl[n..]))
    ensures SameBut(links, links2, Elems(cl))
  {
  }

  /** The bytes stay within the clusters that are kept. */
  lemma HeadHolds(data: seq<seq<byte>>, bpc: nat, cl: seq<nat>, n: nat, bytes: seq<byte>)
    requires bpc >= 1 && OnDisk(data, bpc, cl) && n <= |cl| && OnFlat(FlatOf(data, bpc, cl), bytes) && |bytes| <= n * bpc
    ensures OnDisk(data, bpc, cl[..n]) && OnFlat(FlatOf(data, bpc, cl[..n]), bytes)
  {
    assert cl == cl[..n] + cl[n..];
    FlatExtended(data, bpc, cl[..n], cl[n..]);
    FlatLength(data, bpc, cl[..n]);
  }

  // ---- closing ----

  /** The chain from `first` holds the bytes, on the disk. */
  ghost predicate Saved(links: seq<nat>, limit: nat, data: seq<seq<byte>>, bpc: nat, first: nat, cl: seq<nat>, bytes: seq<byte>) {
    && Chain(links, limit, first, cl) && OnDisk(data, bpc, cl)
    && OnFlat(FlatOf(data, bpc, cl), bytes) && |bytes| <= |cl| * bpc
  }

  /** Clusters the file needs: one at least. */
  function NeededClusters(size: nat, bpc: nat): (n: nat)
    requires bpc >= 1
    ensures n >= 1
  {
    Max(1, CeilDiv(size, bpc))
  }

  /** Flush what is staged and trim the clusters the file does not need. */
  method FlushAndTrim(v: Fat32, f: Fd, failures: nat, ghost cl: seq<nat>, ghost bytes: seq<byte>)
    returns (flushOk: bool, didWrite: bool, ghost cl': seq<nat>, ghost held: seq<byte>)
    requires Streaming(v, f, cl, bytes) && |bytes| + v.store.bpc <= 0x1_0000_0000
    modifies v.fat, v.store, f`cur, f`curIdx, f`wpCluster, f`wpIdx, f`bufDirty, f`bufPos, f`bufValid, f`bufStart, f`chainLen, f`chainLast
    ensures v.Valid() && InRange(v.Links()) && Chain(v.Links(), v.total + 2, f.first, cl') && cl' <= cl
    ensures SameBut(old(v.Links()), v.Links(), Elems(cl)) && OnlyChain(old(v.store.data), v.store.data, cl)
    ensures flushOk <==> !old(f.bufDirty) || failures < FLUSH_RETRIES
    ensures f.size <= |bytes| && Saved(v.Links(), v.total + 2, v.store.data, v.store.bpc, f.first, cl', held)
    ensures if flushOk then held == bytes[..f.size] else HeldBefore(old(v.store.data), v.store.bpc, cl, held, f.size)
    ensures flushOk && old(f.bufDirty) && old(f.chainLen) > 0 ==> |cl'| == Min(|cl|, NeededClusters(f.size, v.store.bpc))
    ensures didWrite == old(f.bufDirty) && (cl' == [] <==> cl == [])
  {
    hide LinksOf, Chain, InRange, FlatOf, Staging, OnDisk, OnFlat, CursorOk, NeededClusters, OnlyFirst, HeldBefore;
    flushOk, didWrite, cl', held := true, false, cl, bytes[..f.size];
    ghost var links0, data0 := v.Links(), v.store.data;
    DirtyHasChain(v, f, cl, bytes);
    ghost var k := StagedIndex(f.offset, f.bufPos, v.store.bpc);
    NothingStored(data0, cl, k + 1);
    if f.bufDirty {
      flushOk := FlushWrite(v, f, failures, cl, bytes);
      didWrite := true;
    } else {
      NothingStaged(v, f, cl, bytes);
    }
    FirstOnly(data0, v.store.data, cl, k + 1);
    if !flushOk {
      held := HeldNow(v, f, cl, bytes);
    }
    if flushOk {
      HeadOfBytes(FlatOf(v.store.data, v.store.bpc, cl), bytes, f.size);
    }
    if flushOk && didWrite && f.first >= 2 {
      var needed := NeededClusters(f.size, v.store.bpc);
      NeededCovers(f.size, v.store.bpc, |cl|);
      if f.chainLen > needed {
        cl' := cl[..needed];
        Trim(v, f, needed, cl);
        HeadHolds(v.store.data, v.store.bpc, cl, needed, bytes[..f.size]);
      }
    }
  }

  /** The first `n` bytes of a chain. */
  ghost predicate HeldBefore(data: seq<seq<byte>>, bpc: nat, cl: seq<nat>, held: seq<byte>, n: nat) {
    OnDisk(data, bpc, cl) && n <= |FlatOf(data, bpc, cl)| && held == FlatOf(data, bpc, cl)[..n]
  }

  /** What the chain of a handle holds of its file. */
  lemma HeldNow(v: Fat32, f: Fd, cl: seq<nat>, bytes: seq<byte>) returns (held: seq<byte>)
    requires Streaming(v, f, cl, bytes)
    ensures HeldBefore(v.store.data, v.store.bpc, cl, held, f.size)
    ensures Saved(v.Links(), v.total + 2, v.store.data, v.store.bpc, f.first, cl, held)
  {
    hide LinksOf, Chain, FlatOf, Staging;
    FlatLength(v.store.data, v.store.bpc, cl);
    held := FlatOf(v.store.data, v.store.bpc, cl)[..f.size];
  }

  /** The disk holds the first bytes of what it holds. */
  lemma HeadOfBytes(flat: seq<byte>, bytes: seq<byte>, n: nat)
    requires n <= |bytes|
    ensures OnFlat(flat, bytes) ==> OnFlat(flat, bytes[..n])
  {
  }

  lemma DirtyHasChain(v: Fat32, f: Fd, cl: seq<nat>, bytes: seq<byte>)
    requires WriteOk(v, f, cl, bytes)
    ensures f.bufDirty ==> f.first >= 2 && cl != []
  {
    hide LinksOf, Chain, FlatOf, OnDisk, Times, ClusterOf;
    StagingFacts(f, v.store.bpc, FlatOf(v.store.data, v.store.bpc, cl), bytes);
  }

  /** With nothing staged everything is on the disk. */
  lemma NothingStaged(v: Fat32, f: Fd, cl: seq<nat>, bytes: seq<byte>)
    requires WriteOk(v, f, cl, bytes) && !f.bufDirty
    ensures Saved(v.Links(), v.total + 2, v.store.data, v.store.bpc, f.first, cl, bytes)
  {
    hide LinksOf, Chain, FlatOf, OnDisk, Times, ClusterOf;
  }

  lemma NeededCovers(size: nat, bpc: nat, n: nat)
    requires bpc >= 1 && size <= n * bpc
    ensures size <= NeededClusters(size, bpc) * bpc
  {
    CeilDivBounds(size, bpc);
    MulMonotone(CeilDiv(size, bpc), NeededClusters(size, bpc), bpc);
  }

  // ---- what a save leaves alone ----

  /** Clusters that were in use keep their links and data, but for those in `skip`. */
  ghost predicate Spared(links0: seq<nat>, data0: seq<seq<byte>>, links: seq<nat>, data: seq<seq<byte>>, skip: set<nat>) {
    && |links| == |links0| && |data| == |data0|
    && forall c :: 0 <= c < |links0| && links0[c] != FREE && c !in skip ==> links[c] == links0[c] && (c < |data0| ==> data[c] == data0[c])
  }

  /** The chain is made of clusters that were free. */
  ghost predicate WasFree(links0: seq<nat>, cl: seq<nat>) {
    forall c :: c in cl ==> c < |links0| && links0[c] == FREE
  }

  /** Every chain apart from `skip` keeps its links and its data. */
  ghost predicate ChainsSpared(limit: nat, links0: seq<nat>, data0: seq<seq<byte>>, links: seq<nat>, data: seq<seq<byte>>, skip: set<nat>) {
    && |data| == |data0|
    && forall first, other :: Chain(links0, limit, first, other) && Elems(other) !! skip ==>
         && Chain(links, limit, first, other)
         && forall i :: 0 <= i < |other| && other[i] < |data0| ==> data[other[i]] == data0[other[i]]
  }

  lemma SparedChains(limit: nat, links0: seq<nat>, data0: seq<seq<byte>>, links: seq<nat>, data: seq<seq<byte>>, skip: set<nat>)
    requires Spared(links0, data0, links, data, skip)
    ensures ChainsSpared(limit, links0, data0, links, data, skip)
  {
    forall first, other | Chain(links0, limit, first, other) && Elems(other) !! skip
      ensures Chain(links, limit, first, other)
      ensures forall i :: 0 <= i < |other| && other[i] < |data0| ==> data[other[i]] == data0[other[i]]
    {
      SparedChain(limit, links0, data0, links, data, skip, first, other);
    }
  }

  lemma SparedChain(limit: nat, links0: seq<nat>, data0: seq<seq<byte>>, links: seq<nat>, data: seq<seq<byte>>, skip: set<nat>,
                    first: nat, other: seq<nat>)
    requires Spared(links0, data0, links, data, skip) && Chain(links0, limit, first, other) && Elems(other) !! skip
    ensures Chain(links, limit, first, other)
    ensures forall c :: c in other ==> c < |links0| && links[c] == links0[c] && (c < |data0| ==> data[c] == data0[c])
  {
    forall c | c in other
      ensures c < |links0| && links[c] == links0[c] && (c < |data0| ==> data[c] == data0[c])
    {
      ChainNotFree(links0, limit, first, other, c);
      assert c in Elems(other);
    }
  }

  /** A chain of what was free is apart from one that was there. */
  lemma ApartFromNew(limit: nat, links0: seq<nat>, first: nat, other: seq<nat>, cl: seq<nat>)
    requires Chain(links0, limit, first, other) && WasFree(links0, cl)
    ensures Elems(other) !! Elems(cl)
  {
    forall c | c in other
      ensures c !in cl
    {
      ChainNotFree(links0, limit, first, other, c);
    }
  }

  /** Changes to the new chain alone spare the rest. */
  lemma NewChainSpares(links0: seq<nat>, data0: seq<seq<byte>>, links: seq<nat>, data: seq<seq<byte>>, links': seq<nat>, data': seq<seq<byte>>,
                       cl: seq<nat>)
    requires Spared(links0, data0, links, data, {}) && WasFree(links0, cl)
    requires SameBut(links, links', Elems(cl)) && OnlyChain(data, data', cl)
    ensures Spared(links0, data0, links', data', {})
  {
    forall c | 0 <= c < |links0| && links0[c] != FREE
      ensures c !in cl && c !in Elems(cl)
    {
    }
  }

  /** So does writing to it and taking free clusters for it. */
  lemma GrowthSpares(limit: nat, links0: seq<nat>, data0: seq<seq<byte>>, links: seq<nat>, data: seq<seq<byte>>, data': seq<seq<byte>>,
                     cl: seq<nat>, extra: seq<nat>)
    requires Spared(links0, data0, links, data, {}) && WasFree(links0, cl) && Fresh(links, limit, extra) && LastOf(0, cl) < |links|
    requires OnlyChain(data, data', cl + extra)
    ensures WasFree(links0, cl + extra) && Spared(links0, data0, LinkAll(links, LastOf(0, cl), extra), data', {})
  {
    hide LinkAll;
    forall c | c in extra
      ensures c < |links0| && links0[c] == FREE
    {
      var i :| 0 <= i < |extra| && extra[i] == c;
    }
    LinkAllSame(links, LastOf(0, cl), extra);
    var touched := Elems(extra) + if LastOf(0, cl) >= 2 then {LastOf(0, cl)} else {};
    assert touched <= Elems(cl + extra);
    NewChainSpares(links0, data0, links, data, LinkAll(links, LastOf(0, cl), extra), data', cl + extra);
  }

  lemma NothingYetTouched(links: seq<nat>, data: seq<seq<byte>>)
    ensures Spared(links, data, links, data, {}) && WasFree(links, []) && SameBut(links, links, Elems([]))
  {
  }

  // ---- how much room there is ----

  ghost function FreeSet(links: seq<nat>, limit: nat): set<nat> {
    set c: nat | 2 <= c < limit && c < |links| && links[c] == FREE
  }

  ghost function FreeCount(links: seq<nat>, limit: nat): nat {
    |FreeSet(links, limit)|
  }

  /** The clusters free at the start bound the new chain, and it has them all once none is left. */
  lemma TakenOfFree(links0: seq<nat>, links: seq<nat>, limit: nat, first: nat, cl: seq<nat>)
    requires WasFree(links0, cl) && SameBut(links0, links, Elems(cl)) && Chain(links, limit, first, cl)
    ensures |cl| <= FreeCount(links0, limit)
    ensures NoneFree(links, limit) ==> |cl| == FreeCount(links0, limit)
  {
    DistinctCount(cl);
    assert Elems(cl) <= FreeSet(links0, limit);
    SubsetCount(Elems(cl), FreeSet(links0, limit));
    if NoneFree(links, limit) {
      assert Elems(cl) == FreeSet(links0, limit);
    }
  }

  lemma {:induction false} DistinctCount(cl: seq<nat>)
    requires Distinct(cl)
    ensures |Elems(cl)| == |cl|
  {
    if cl != [] {
      var n := |cl| - 1;
      DistinctCount(cl[..n]);
      assert Elems(cl) == Elems(cl[..n]) + {cl[n]};
    }
  }

  lemma {:induction false} SubsetCount(a: set<nat>, b: set<nat>)
    requires a <= b
    ensures |a| <= |b|
    decreases |a|
  {
    if a != {} {
      var x :| x in a;
      SubsetCount(a - {x}, b - {x});
    }
  }

  /** Taking free clusters for the new chain touches that chain alone. */
  lemma GrowthTouches(limit: nat, links0: seq<nat>, links: seq<nat>, cl: seq<nat>, extra: seq<nat>)
    requires SameBut(links0, links, Elems(cl)) && Fresh(links, limit, extra) && LastOf(0, cl) < |links|
    ensures SameBut(links0, LinkAll(links, LastOf(0, cl), extra), Elems(cl + extra))
  {
    hide LinkAll;
    LinkAllSame(links, LastOf(0, cl), extra);
    assert Elems(cl + extra) == Elems(cl) + Elems(extra);
  }

  // ---- the directory meanwhile ----

  /** What the directory at `first` is, its clusters apart from the heap. */
  ghost predicate DirHolds(links: seq<nat>, limit: nat, data: seq<seq<byte>>, bpc: nat, first: nat, cl: seq<nat>, m: map<seq<byte>, Record>) {
    && Slotted(bpc) && cl != [] && Chain(links, limit, first, cl) && DirTidy(data, cl)
    && Unique(DirList(data, cl)) && MapOf(DirList(data, cl)) == m
  }

  lemma MapDirHolds(v: Fat32, first: nat, cl: seq<nat>, m: map<seq<byte>, Record>)
    requires MapDir(v, first, cl, m)
    ensures v.Valid() && InData(v.store.data, cl) && DirHolds(v.Links(), v.total + 2, v.store.data, v.store.bpc, first, cl, m)
  {
    hide Chain, DirTidy, DirList, Unique, MapOf, LinksOf;
    DirValid(v, first, cl);
  }

  /** A directory whose clusters keep their links and data lists what it did. */
  lemma StillHolds(v: Fat32, links: seq<nat>, data: seq<seq<byte>>, first: nat, cl: seq<nat>, m: map<seq<byte>, Record>)
    requires v.Valid() && DirHolds(links, v.total + 2, data, v.store.bpc, first, cl, m) && Chain(v.Links(), v.total + 2, first, cl)
    requires |v.store.data| == |data| && forall c :: c in cl && c < |data| ==> v.store.data[c] == data[c]
    ensures MapDir(v, first, cl, m) && InData(data, cl) && InData(v.store.data, cl) && DirList(v.store.data, cl) == DirList(data, cl)
  {
    hide Chain, Unique, MapOf, LinksOf, Tidy, V.EntriesOf;
    assert forall i :: 0 <= i < |cl| ==> cl[i] in cl;
    DirSame(data, v.store.data, cl);
  }

  /** Rewrite a file's directory entry, if the directory can be written. */
  method UpdateDirent(v: Fat32, dir: nat, entry: Placed, size: nat, first: nat, accepted: bool, ghost dirCl: seq<nat>, ghost m: map<seq<byte>, Record>)
    returns (ok: bool)
    requires MapDir(v, dir, dirCl, m) && v.Valid() && InData(v.store.data, dirCl) && entry in DirList(v.store.data, dirCl)
    requires KeyOf(entry) in m && m[KeyOf(entry)] == InfoOf(entry.item) && size < 0x1_0000_0000 && first < KEEP_CLUSTER
    modifies v.store
    ensures ok == accepted && v.Valid() && v.Links() == old(v.Links()) && DataKept(old(v.store.data), v.store.data, dirCl)
    ensures !ok ==> v.store.data == old(v.store.data)
    ensures MapDir(v, dir, dirCl, if ok then m[KeyOf(entry) := m[KeyOf(entry)].(size := size, first := first)] else m)
  {
    hide LinksOf, DirOk, DirList, Unique, MapOf, KeyOf, InfoOf;
    if accepted {
      Rebind(v, dir, entry, size, first, dirCl, m);
    }
    ok := accepted;
  }

  // ---- closing ----

  /** Free the replaced content; the new chain and the directory stay as they are. */
  method FreeOld(v: Fat32, prior: nat, ghost oldCl: seq<nat>)
    requires v.Valid() && InRange(v.Links()) && Chain(v.Links(), v.total + 2, prior, oldCl)
    modifies v.fat
    ensures v.Valid() && InRange(v.Links()) && SameBut(old(v.Links()), v.Links(), Elems(oldCl))
    ensures forall c :: c in oldCl ==> c < |v.Links()| && v.Links()[c] == FREE
  {
    hide LinksOf, Chain, InRange, Freed;
    ghost var links1 := v.Links();
    ChainShape(links1, v.total + 2, prior, oldCl);
    assert prior < |links1| || oldCl == [];
    v.FreeChain(prior, oldCl);
    FreedSame(links1, oldCl);
    FreedAll(links1, oldCl);
  }

  lemma MoreSkipped(links0: seq<nat>, data0: seq<seq<byte>>, links: seq<nat>, data: seq<seq<byte>>, links': seq<nat>, data': seq<seq<byte>>,
                    skip: set<nat>, more: seq<nat>)
    requires Spared(links0, data0, links, data, skip) && SameBut(links, links', Elems(more)) && OnlyChain(data, data', more)
    ensures Spared(links0, data0, links', data', skip + Elems(more))
  {
    assert forall c :: c in more ==> c in Elems(more);
  }

  lemma SkipsNothing(links: seq<nat>, data: seq<seq<byte>>, cl: seq<nat>)
    ensures SameBut(links, links, Elems(cl)) && OnlyChain(data, data, cl)
  {
  }

  /** A saved chain apart from what changed is still saved. */
  lemma StillSaved(links: seq<nat>, data: seq<seq<byte>>, links': seq<nat>, data': seq<seq<byte>>, limit: nat, bpc: nat, first: nat, cl: seq<nat>,
                   bytes: seq<byte>, others: seq<nat>)
    requires Saved(links, limit, data, bpc, first, cl, bytes) && Elems(cl) !! Elems(others)
    requires SameBut(links, links', Elems(others)) && OnlyChain(data, data', others)
    ensures Saved(links', limit, data', bpc, first, cl, bytes)
  {
    hide Chain;
    ChainKept(links, links', limit, first, cl, Elems(others));
    assert forall c :: c in others ==> c in Elems(others);
    forall i | 0 <= i < |cl|
      ensures data'[cl[i]] == data[cl[i]]
    {
      assert cl[i] in Elems(cl);
    }
    FlatSame(data, data', bpc, cl);
  }

  /** What a handle open for a save stands for: the state before the save, the directory with its entry,
    * and the content to be replaced, which only the close may touch.
    */
  ghost predicate Saving(v: Fat32, f: Fd, links0: seq<nat>, data0: seq<seq<byte>>, dir: nat, dirCl: seq<nat>, m: map<seq<byte>, Record>,
                         entry: Placed, oldCl: seq<nat>, cl: seq<nat>)
    reads v, v.fat, v.store, f
  {
    && v.Valid() && Spared(links0, data0, v.Links(), v.store.data, {}) && WasFree(links0, cl)
    && DirHolds(links0, v.total + 2, data0, v.store.bpc, dir, dirCl, m) && InData(data0, dirCl) && entry in DirList(data0, dirCl)
    && KeyOf(entry) in m && m[KeyOf(entry)] == InfoOf(entry.item)
    && Chain(links0, v.total + 2, if f.truncOld >= 2 then f.truncOld else 0, oldCl) && Elems(oldCl) !! Elems(dirCl)
  }

  /** Until the close the directory lists what it did, and the content to be replaced is there. */
  lemma SavingKeeps(v: Fat32, f: Fd, links0: seq<nat>, data0: seq<seq<byte>>, dir: nat, dirCl: seq<nat>, m: map<seq<byte>, Record>,
                    entry: Placed, oldCl: seq<nat>, cl: seq<nat>)
    requires Saving(v, f, links0, data0, dir, dirCl, m, entry, oldCl, cl)
    ensures MapDir(v, dir, dirCl, m) && InData(v.store.data, dirCl) && entry in DirList(v.store.data, dirCl)
    ensures Chain(v.Links(), v.total + 2, dir, dirCl) && Chain(v.Links(), v.total + 2, if f.truncOld >= 2 then f.truncOld else 0, oldCl)
    ensures Elems(cl) !! Elems(oldCl) && Elems(cl) !! Elems(dirCl)
    ensures forall c :: c in oldCl && c < |data0| ==> c < |v.store.data| && v.store.data[c] == data0[c]
  {
    hide Chain, LinksOf, Unique, MapOf, DirTidy, DirList, KeyOf, InfoOf, MapDir;
    var prior := if f.truncOld >= 2 then f.truncOld else 0;
    SparedChain(v.total + 2, links0, data0, v.Links(), v.store.data, {}, dir, dirCl);
    SparedChain(v.total + 2, links0, data0, v.Links(), v.store.data, {}, prior, oldCl);
    ApartFromNew(v.total + 2, links0, dir, dirCl, cl);
    ApartFromNew(v.total + 2, links0, prior, oldCl, cl);
    StillHolds(v, links0, data0, dir, dirCl, m);
  }

  /** How a close ends: the entry repointed to the new content, or left as it was. */
  ghost predicate Closed(v: Fat32, dir: nat, dirCl: seq<nat>, m: map<seq<byte>, Record>, key: seq<byte>, updated: bool, size: nat, first: nat)
    reads v, v.fat, v.store
    requires key in m
  {
    v.Valid() && MapDir(v, dir, dirCl, if updated then m[key := m[key].(size := size, first := first)] else m)
  }

  lemma FirstFits(links: seq<nat>, limit: nat, first: nat, cl: seq<nat>)
    requires Chain(links, limit, first, cl) && limit < BAD
    ensures first < KEEP_CLUSTER
  {
    if first >= 2 {
      assert cl[0] == first;
    }
  }

  /** Repoint the entry, and once that is done free the content it replaces. */
  method Commit(v: Fat32, f: Fd, dir: nat, entry: Placed, accepted: bool, ghost cl: seq<nat>, ghost cl': seq<nat>, ghost oldCl: seq<nat>,
                ghost held: seq<byte>, ghost links0: seq<nat>, ghost data0: seq<seq<byte>>, ghost dirCl: seq<nat>, ghost m: map<seq<byte>, Record>)
    returns (updated: bool)
    requires Saving(v, f, links0, data0, dir, dirCl, m, entry, oldCl, cl) && InRange(v.Links()) && cl' <= cl
    requires f.truncOld >= 2 && f.size == |held| < 0x1_0000_0000
    requires Saved(v.Links(), v.total + 2, v.store.data, v.store.bpc, f.first, cl', held)
    modifies v.fat, v.store
    ensures updated == accepted && Closed(v, dir, dirCl, m, KeyOf(entry), updated, |held|, f.first)
    ensures Saved(v.Links(), v.total + 2, v.store.data, v.store.bpc, f.first, cl', held)
    ensures Spared(links0, data0, v.Links(), v.store.data, if updated then Elems(dirCl) + Elems(oldCl) else {})
    ensures if updated then forall c :: c in oldCl ==> c < |v.Links()| && v.Links()[c] == FREE
            else v.Links() == old(v.Links()) && v.store.data == old(v.store.data)
  {
    hide LinksOf, Chain, InRange, DirList, KeyOf, InfoOf, DirHolds, MapDir, Spared, WasFree, Saved;
    SavingKeeps(v, f, links0, data0, dir, dirCl, m, entry, oldCl, cl);
    SavedFirst(v, f.first, cl', held);
    ghost var links1, data1 := v.Links(), v.store.data;
    updated := UpdateDirent(v, dir, entry, f.size, f.first, accepted, dirCl, m);
    if !updated {
      return;
    }
    ghost var data2 := v.store.data;
    ghost var m' := m[KeyOf(entry) := m[KeyOf(entry)].(size := f.size, first := f.first)];
    SkipsNothing(links1, data2, dirCl);
    HeadApart(cl', cl, dirCl);
    HeadApart(cl', cl, oldCl);
    StillSaved(links1, data1, links1, data2, v.total + 2, v.store.bpc, f.first, cl', held, dirCl);
    MoreSkipped(links0, data0, links1, data1, links1, data2, {}, dirCl);
    MapDirHolds(v, dir, dirCl, m');
    FreeOld(v, f.truncOld, oldCl);
    SkipsNothing(v.Links(), data2, oldCl);
    StillSaved(links1, data2, v.Links(), data2, v.total + 2, v.store.bpc, f.first, cl', held, oldCl);
    MoreSkipped(links0, data0, links1, data2, v.Links(), data2, Elems(dirCl), oldCl);
    assert {} + Elems(dirCl) == Elems(dirCl);
    ChainKept(links1, v.Links(), v.total + 2, dir, dirCl, Elems(oldCl));
    StillHolds(v, links1, data2, dir, dirCl, m');
  }

  lemma HeadApart(head: seq<nat>, cl: seq<nat>, others: seq<nat>)
    requires head <= cl && Elems(cl) !! Elems(others)
    ensures Elems(head) !! Elems(others)
  {
    assert forall c :: c in head ==> c in cl;
    assert Elems(head) <= Elems(cl);
  }

  lemma SavedFirst(v: Fat32, first: nat, cl: seq<nat>, content: seq<byte>)
    requires v.Valid() && Saved(v.Links(), v.total + 2, v.store.data, v.store.bpc, first, cl, content)
    ensures first < KEEP_CLUSTER
  {
    FirstFits(v.Links(), v.total + 2, first, cl);
  }

  /** The same at the end of a save, whatever the handle is by then. */
  lemma SavingTrimmed(v: Fat32, f: Fd, links0: seq<nat>, data0: seq<seq<byte>>, dir: nat, dirCl: seq<nat>, m: map<seq<byte>, Record>,
                      entry: Placed, oldCl: seq<nat>, cl: seq<nat>, links: seq<nat>, data: seq<seq<byte>>)
    requires Spared(links0, data0, links, data, {}) && WasFree(links0, cl) && v.Valid()
    requires SameBut(links, v.Links(), Elems(cl)) && OnlyChain(data, v.store.data, cl)
    requires DirHolds(links0, v.total + 2, data0, v.store.bpc, dir, dirCl, m) && InData(data0, dirCl) && entry in DirList(data0, dirCl)
    requires KeyOf(entry) in m && m[KeyOf(entry)] == InfoOf(entry.item)
    requires Chain(links0, v.total + 2, if f.truncOld >= 2 then f.truncOld else 0, oldCl) && Elems(oldCl) !! Elems(dirCl)
    ensures Saving(v, f, links0, data0, dir, dirCl, m, entry, oldCl, cl)
  {
    hide Chain, DirHolds, DirList, KeyOf, InfoOf, LinksOf;
    NewChainSpares(links0, data0, links, data, v.Links(), v.store.data, cl);
  }

  /** What a close leaves. */
  ghost predicate CloseOutcome(v: Fat32, links0: seq<nat>, data0: seq<seq<byte>>, dir: nat, dirCl: seq<nat>, m: map<seq<byte>, Record>,
                               key: seq<byte>, oldCl: seq<nat>, updated: bool, first: nat, cl: seq<nat>, held: seq<byte>)
    reads v, v.fat, v.store
  {
    && v.Valid() && key in m && Closed(v, dir, dirCl, m, key, updated, |held|, first)
    && Saved(v.Links(), v.total + 2, v.store.data, v.store.bpc, first, cl, held)
    && Spared(links0, data0, v.Links(), v.store.data, if updated then Elems(dirCl) + Elems(oldCl) else {})
    && (updated ==> forall c :: c in oldCl ==> c < |v.Links()| && v.Links()[c] == FREE)
  }

  /** Repoint the entry of a file that had no content. */
  method UpdateNew(v: Fat32, f: Fd, dir: nat, entry: Placed, accepted: bool, ghost cl: seq<nat>, ghost cl': seq<nat>,
                   ghost held: seq<byte>, ghost links0: seq<nat>, ghost data0: seq<seq<byte>>, ghost dirCl: seq<nat>, ghost m: map<seq<byte>, Record>)
    returns (updated: bool)
    requires Saving(v, f, links0, data0, dir, dirCl, m, entry, [], cl) && cl' <= cl && Chain(v.Links(), v.total + 2, f.first, cl')
    requires f.truncOld < 2 && f.size == |held| < 0x1_0000_0000
    requires Saved(v.Links(), v.total + 2, v.store.data, v.store.bpc, f.first, cl', held)
    modifies v.store
    ensures updated == accepted && v.Valid() && v.Links() == old(v.Links())
    ensures CloseOutcome(v, links0, data0, dir, dirCl, m, KeyOf(entry), [], updated, f.first, cl', held)
  {
    hide LinksOf, Chain, DirList, KeyOf, InfoOf, DirHolds, MapDir, Spared, WasFree, Saved;
    SavingKeeps(v, f, links0, data0, dir, dirCl, m, entry, [], cl);
    FirstFits(v.Links(), v.total + 2, f.first, cl');
    ghost var links1, data1 := v.Links(), v.store.data;
    updated := UpdateDirent(v, dir, entry, f.size, f.first, accepted, dirCl, m);
    if updated {
      SkipsNothing(links1, v.store.data, dirCl);
      HeadApart(cl', cl, dirCl);
      StillSaved(links1, data1, links1, v.store.data, v.total + 2, v.store.bpc, f.first, cl', held, dirCl);
      MoreSkipped(links0, data0, links1, data1, links1, v.store.data, {}, dirCl);
      assert {} + Elems(dirCl) == Elems(dirCl) + Elems([]);
    }
  }

  /** The table flushed at the end changes nothing. */
  method FlushAtEnd(v: Fat32, ghost links0: seq<nat>, ghost data0: seq<seq<byte>>, ghost dir: nat, ghost dirCl: seq<nat>, ghost m: map<seq<byte>, Record>,
                    ghost key: seq<byte>, ghost oldCl: seq<nat>, ghost updated: bool, ghost first: nat, ghost cl: seq<nat>,
                    ghost held: seq<byte>)
    requires CloseOutcome(v, links0, data0, dir, dirCl, m, key, oldCl, updated, first, cl, held)
    modifies v.fat
    ensures CloseOutcome(v, links0, data0, dir, dirCl, m, key, oldCl, updated, first, cl, held)
  {
    hide LinksOf, Chain, MapDir, Spared, Saved, DirHolds;
    ghost var m' := if updated then m[key := m[key].(size := |held|, first := first)] else m;
    MapDirHolds(v, dir, dirCl, m');
    ghost var links, data := v.Links(), v.store.data;
    DirHoldsChain(links, v.total + 2, data, v.store.bpc, dir, dirCl, m');
    v.FlushFat();
    StillHolds(v, links, data, dir, dirCl, m');
  }

  lemma DirHoldsChain(links: seq<nat>, limit: nat, data: seq<seq<byte>>, bpc: nat, first: nat, cl: seq<nat>, m: map<seq<byte>, Record>)
    requires DirHolds(links, limit, data, bpc, first, cl, m)
    ensures Chain(links, limit, first, cl)
  {
  }

  /** With the entry left as it was the directory and the old content are untouched. */
  lemma LeftAlone(v: Fat32, f: Fd, links0: seq<nat>, data0: seq<seq<byte>>, dir: nat, dirCl: seq<nat>, m: map<seq<byte>, Record>,
                  entry: Placed, oldCl: seq<nat>, cl: seq<nat>, cl': seq<nat>, held: seq<byte>)
    requires Saving(v, f, links0, data0, dir, dirCl, m, entry, oldCl, cl)
    requires Saved(v.Links(), v.total + 2, v.store.data, v.store.bpc, f.first, cl', held)
    ensures CloseOutcome(v, links0, data0, dir, dirCl, m, KeyOf(entry), oldCl, false, f.first, cl', held)
  {
    hide LinksOf, Chain, DirList, KeyOf, InfoOf, DirHolds, MapDir, Spared, WasFree, Saved;
    SavingKeeps(v, f, links0, data0, dir, dirCl, m, entry, oldCl, cl);
  }

  /** Write the entry, if it is due and may be. */
  method Settle(v: Fat32, f: Fd, dir: nat, entry: Placed, flushOk: bool, accepted: bool, ghost cl: seq<nat>, ghost cl': seq<nat>, ghost oldCl: seq<nat>,
                ghost held: seq<byte>, ghost links0: seq<nat>, ghost data0: seq<seq<byte>>, ghost dirCl: seq<nat>, ghost m: map<seq<byte>, Record>)
    returns (updated: bool, wrote: bool)
    requires Saving(v, f, links0, data0, dir, dirCl, m, entry, oldCl, cl) && InRange(v.Links()) && cl' <= cl
    requires Chain(v.Links(), v.total + 2, f.first, cl') && f.size == |held| < 0x1_0000_0000
    requires f.metaDirty <==> cl != [] || f.truncOld >= 2
    requires Saved(v.Links(), v.total + 2, v.store.data, v.store.bpc, f.first, cl', held)
    modifies v.fat, v.store, f`truncOld, f`metaDirty
    ensures updated == if old(f.truncOld) >= 2 then flushOk && accepted else cl != [] && accepted
    ensures CloseOutcome(v, links0, data0, dir, dirCl, m, KeyOf(entry), oldCl, updated, f.first, cl', held)
  {
    hide LinksOf, Chain, InRange, DirHolds, DirList, KeyOf, InfoOf, WasFree, Spared, MapDir, Saved, CloseOutcome;
    LeftAlone(v, f, links0, data0, dir, dirCl, m, entry, oldCl, cl, cl', held);
    updated, wrote := false, false;
    if f.truncOld >= 2 {
      if flushOk {
        updated := Commit(v, f, dir, entry, accepted, cl, cl', oldCl, held, links0, data0, dirCl, m);
        Committed(v, links0, data0, dir, dirCl, m, KeyOf(entry), oldCl, updated, f.first, cl', held);
      }
      wrote := updated;
      f.truncOld := 0;
      f.metaDirty := false;
    } else {
      NoOldContent(links0, v.total + 2, oldCl);
      if f.metaDirty {
        updated := UpdateNew(v, f, dir, entry, accepted, cl, cl', held, links0, data0, dirCl, m);
        wrote := true;
      }
    }
  }

  lemma Committed(v: Fat32, links0: seq<nat>, data0: seq<seq<byte>>, dir: nat, dirCl: seq<nat>, m: map<seq<byte>, Record>, key: seq<byte>,
                  oldCl: seq<nat>, updated: bool, first: nat, cl: seq<nat>, held: seq<byte>)
    requires key in m && Closed(v, dir, dirCl, m, key, updated, |held|, first)
    requires Saved(v.Links(), v.total + 2, v.store.data, v.store.bpc, first, cl, held)
    requires Spared(links0, data0, v.Links(), v.store.data, if updated then Elems(dirCl) + Elems(oldCl) else {})
    requires updated ==> forall c :: c in oldCl ==> c < |v.Links()| && v.Links()[c] == FREE
    ensures CloseOutcome(v, links0, data0, dir, dirCl, m, key, oldCl, updated, first, cl, held)
  {
  }

  lemma HeldSize(data: seq<seq<byte>>, bpc: nat, cl: seq<nat>, held: seq<byte>, n: nat)
    ensures HeldBefore(data, bpc, cl, held, n) ==> |held| == n
  {
  }

  /** Close the file. The device may refuse the last store, and the directory the update. A truncating
    * save repoints the entry, and then frees the old content, exactly when both succeed; the entry of a
    * file that had no content is written once it has clusters, whether the last store succeeded or not.
    */
  method CloseFd(v: Fat32, f: Fd, dir: nat, entry: Placed, failures: nat, accepted: bool, ghost cl: seq<nat>, ghost oldCl: seq<nat>, ghost bytes: seq<byte>,
                 ghost links0: seq<nat>, ghost data0: seq<seq<byte>>, ghost dirCl: seq<nat>, ghost m: map<seq<byte>, Record>)
    returns (flushOk: bool, updated: bool, ghost cl': seq<nat>, ghost held: seq<byte>)
    requires Streaming(v, f, cl, bytes) && |bytes| + v.store.bpc <= 0x1_0000_0000
    requires Saving(v, f, links0, data0, dir, dirCl, m, entry, oldCl, cl)
    modifies v.fat, v.store, f
    ensures flushOk <==> !old(f.bufDirty) || failures < FLUSH_RETRIES
    ensures updated == if old(f.truncOld) >= 2 then flushOk && accepted else cl != [] && accepted
    ensures cl' <= cl && old(f.size) <= |bytes|
    ensures CloseOutcome(v, links0, data0, dir, dirCl, m, KeyOf(entry), oldCl, updated, old(f.first), cl', held)
    ensures if flushOk then held == bytes[..old(f.size)] else HeldBefore(old(v.store.data), v.store.bpc, cl, held, old(f.size))
    ensures flushOk && old(f.bufDirty) && old(f.chainLen) > 0 ==> |cl'| == Min(|cl|, NeededClusters(old(f.size), v.store.bpc))
  {
    hide LinksOf, Chain, InRange, FlatOf, OnDisk, OnFlat, CursorOk, Staging, NeededClusters, Saved, DirHolds, DirList, KeyOf, InfoOf, WasFree, Spared, MapDir, CloseOutcome, HeldBefore;
    ghost var links1, data1, first, size := v.Links(), v.store.data, f.first, f.size;
    var didWrite;
    flushOk, didWrite, cl', held := FlushAndTrim(v, f, failures, cl, bytes);
    HeldSize(data1, v.store.bpc, cl, held, size);
    SavingTrimmed(v, f, links0, data0, dir, dirCl, m, entry, oldCl, cl, links1, data1);
    var wrote;
    updated, wrote := Settle(v, f, dir, entry, flushOk, accepted, cl, cl', oldCl, held, links0, data0, dirCl, m);
    if didWrite || wrote {
      FlushAtEnd(v, links0, data0, dir, dirCl, m, KeyOf(entry), oldCl, updated, first, cl', held);
    }
    f.buf, f.bufPos, f.bufValid, f.bufDirty := [], 0, 0, false;
  }

  lemma NoOldContent(links: seq<nat>, limit: nat, oldCl: seq<nat>)
    requires Chain(links, limit, 0, oldCl)
    ensures oldCl == []
  {
  }

  // ---- what a run of writes amounts to ----

  predicate Reports(payloads: seq<seq<byte>>, outs: seq<WriteResult>) {
    |outs| <= |payloads| && forall i :: 0 <= i < |outs| ==> CanReport(|payloads[i]|, outs[i])
  }

  /** Every byte the handle took. */
  function StreamOf(payloads: seq<seq<byte>>, outs: seq<WriteResult>): seq<byte>
    requires Reports(payloads, outs)
  {
    if outs == [] then []
    else
      var n := |outs| - 1;
      StreamOf(payloads, outs[..n]) + payloads[n][..Took(outs[n])]
  }

  /** The size: what was taken up to the last write that succeeded. */
  function SizeOf(payloads: seq<seq<byte>>, outs: seq<WriteResult>): (n: nat)
    requires Reports(payloads, outs)
    ensures n <= |StreamOf(payloads, outs)|
  {
    if outs == [] then 0
    else if Completes(outs[|outs| - 1]) then |StreamOf(payloads, outs)|
    else SizeOf(payloads, outs[..|outs| - 1])
  }

  /** A write that succeeded and had something to write. */
  predicate Completes(out: WriteResult) {
    out.Written? && out.n > 0
  }

  /** A write that failed after it took something. */
  predicate Breaks(out: WriteResult) {
    out.Broken? && out.n > 0
  }

  /** The content a save leaves. */
  function ContentOf(payloads: seq<seq<byte>>, outs: seq<WriteResult>): seq<byte>
    requires Reports(payloads, outs)
  {
    StreamOf(payloads, outs)[..SizeOf(payloads, outs)]
  }

  /** Whether a write is issued and whether it finds space is decided by what was taken before it and
    * the clusters free at the start.
    */
  predicate RoomDecides(payloads: seq<seq<byte>>, outs: seq<WriteResult>, bpc: nat, free: nat)
    requires Reports(payloads, outs) && bpc >= 1
  {
    forall i :: 0 <= i < |outs| ==> RoomDecided(payloads, outs, i, bpc, free)
  }

  predicate RoomDecided(payloads: seq<seq<byte>>, outs: seq<WriteResult>, i: nat, bpc: nat, free: nat)
    requires Reports(payloads, outs) && i < |outs| && bpc >= 1
  {
    var at := |StreamOf(payloads, outs[..i])|;
    && (outs[i].NotIssued? <==> at + IPC_BUF + bpc > 0x1_0000_0000)
    && (outs[i].NoSpace? <==> !outs[i].NotIssued? && payloads[i] != [] && CeilDiv(at + Min(|payloads[i]|, IPC_BUF), bpc) > free)
  }

  /** The payloads of the writes that succeeded. */
  function Acknowledged(payloads: seq<seq<byte>>, outs: seq<WriteResult>): seq<byte>
    requires Reports(payloads, outs)
  {
    if outs == [] then []
    else
      var n := |outs| - 1;
      Acknowledged(payloads, outs[..n]) + if outs[n].Written? then payloads[n][..outs[n].n] else []
  }

  predicate AnyBreaks(outs: seq<WriteResult>) {
    exists i :: 0 <= i < |outs| && Breaks(outs[i])
  }

  /** Some write succeeded after one that failed half way. */
  predicate Overtaken(outs: seq<WriteResult>) {
    exists i, j :: 0 <= i < j < |outs| && Breaks(outs[i]) && Completes(outs[j])
  }

  lemma {:induction false} TakenOrAcknowledged(payloads: seq<seq<byte>>, outs: seq<WriteResult>)
    requires Reports(payloads, outs)
    ensures if AnyBreaks(outs) then |StreamOf(payloads, outs)| > |Acknowledged(payloads, outs)|
            else StreamOf(payloads, outs) == Acknowledged(payloads, outs)
  {
    if outs != [] {
      var front, last := outs[..|outs| - 1], outs[|outs| - 1];
      TakenOrAcknowledged(payloads, front);
      BreaksBefore(outs);
    }
  }

  lemma BreaksBefore(outs: seq<WriteResult>)
    requires outs != []
    ensures AnyBreaks(outs) <==> AnyBreaks(outs[..|outs| - 1]) || Breaks(outs[|outs| - 1])
    ensures Completes(outs[|outs| - 1]) ==> (Overtaken(outs) <==> AnyBreaks(outs[..|outs| - 1]))
    ensures !Completes(outs[|outs| - 1]) ==> (Overtaken(outs) <==> Overtaken(outs[..|outs| - 1]))
  {
    var front := outs[..|outs| - 1];
    assert forall i :: 0 <= i < |front| ==> front[i] == outs[i];
    if AnyBreaks(front) {
      var i :| 0 <= i < |front| && Breaks(front[i]);
      assert Breaks(outs[i]);
    }
    if Overtaken(outs) {
      var i, j :| 0 <= i < j < |outs| && Breaks(outs[i]) && Completes(outs[j]);
      assert Breaks(front[i]);
      assert j < |front| ==> Completes(front[j]);
    }
    if Overtaken(front) {
      var i, j :| 0 <= i < j < |front| && Breaks(front[i]) && Completes(front[j]);
      assert Breaks(outs[i]) && Completes(outs[j]);
    }
  }

  /** The content is exactly the payloads of the writes that succeeded unless a write succeeded after
    * one that failed half way: what that one took is then part of the content.
    */
  lemma {:induction false} ContentIsAcknowledged(payloads: seq<seq<byte>>, outs: seq<WriteResult>)
    requires Reports(payloads, outs)
    ensures ContentOf(payloads, outs) == Acknowledged(payloads, outs) <==> !Overtaken(outs)
    decreases |outs|
  {
    if outs != [] {
      var n := |outs| - 1;
      var front, part := outs[..n], payloads[n][..Took(outs[n])];
      BreaksBefore(outs);
      TakenOrAcknowledged(payloads, front);
      ContentIsAcknowledged(payloads, front);
      if !Completes(outs[n]) {
        assert StreamOf(payloads, outs)[..SizeOf(payloads, front)] == StreamOf(payloads, front)[..SizeOf(payloads, front)];
      }
    }
  }

  /** A write that failed half way and is repeated leaves what it took twice. */
  lemma RetryRepeats(p: seq<byte>, n: nat)
    requires 0 < n <= |p| <= IPC_BUF
    ensures var outs := [Broken(n), Written(|p|)];
            && Reports([p, p], outs) && Overtaken(outs) && ContentOf([p, p], outs) == p[..n] + p && Acknowledged([p, p], outs) == p
  {
    var outs := [Broken(n), Written(|p|)];
    NothingReported([p, p]);
    ReportsMore([p, p], [], outs[0]);
    ReportsMore([p, p], [outs[0]], outs[1]);
    assert [] + [outs[0]] == [outs[0]] && [outs[0]] + [outs[1]] == outs;
    assert p[..|p|] == p;
    assert StreamOf([p, p], outs) == p[..n] + p;
    assert Breaks(outs[0]) && Completes(outs[1]);
    assert outs[..1] == [outs[0]] && outs[..1][..0] == [];
    assert Acknowledged([p, p], outs[..1]) == [];
  }

  lemma ReportsMore(payloads: seq<seq<byte>>, outs: seq<WriteResult>, out: WriteResult)
    requires Reports(payloads, outs) && |outs| < |payloads| && CanReport(|payloads[|outs|]|, out)
    ensures Reports(payloads, outs + [out]) && Took(out) <= |payloads[|outs|]|
    ensures StreamOf(payloads, outs + [out]) == StreamOf(payloads, outs) + payloads[|outs|][..Took(out)]
    ensures SizeOf(payloads, outs + [out]) == if Completes(out) then |StreamOf(payloads, outs)| + out.n else SizeOf(payloads, outs)
  {
    assert (outs + [out])[..|outs|] == outs;
  }

  lemma NothingReported(payloads: seq<seq<byte>>)
    ensures Reports(payloads, []) && StreamOf(payloads, []) == [] && SizeOf(payloads, []) == 0
  {
  }

  // ---- a whole save ----

  /** Open for writing from scratch: a file without content, or a truncating open, which only
    * sets the old chain aside.
    */
  method OpenForSave(v: Fat32, first: nat, size: nat) returns (f: Fd)
    requires v.Valid() && v.store.bpc >= 1 && InRange(v.Links()) && (first < 2 ==> size == 0)
    ensures fresh(f) && Streaming(v, f, [], []) && f.size == 0 && f.truncOld == if first >= 2 then first else 0
  {
    hide LinksOf, Chain, InRange, FlatOf;
    f := new Fd(first, size, true);
    if f.first >= 2 {
      SetAside(f);
    }
    ReadyToWrite(v, f);
  }

  /** Set the old chain aside: the handle starts over with no clusters, and its entry is due. */
  method SetAside(f: Fd)
    requires f.first >= 2
    modifies f`truncOld, f`first, f`size, f`offset, f`cur, f`curIdx, f`chainLen, f`chainLast, f`metaDirty
    ensures f.truncOld == old(f.first) && f.metaDirty
    ensures f.first == f.size == f.offset == f.cur == f.curIdx == f.chainLen == f.chainLast == 0
  {
    f.truncOld := f.first;
    f.first, f.size, f.offset, f.cur, f.curIdx, f.chainLen, f.chainLast := 0, 0, 0, 0, 0, 0, 0;
    f.metaDirty := true;
  }

  /** A handle on an empty file is ready to be written from the start. */
  lemma ReadyToWrite(v: Fat32, f: Fd)
    requires v.Valid() && v.store.bpc >= 1 && InRange(v.Links()) && f.first < 2 && f.cur < 2
    requires f.size == f.offset == f.chainLen == f.bufPos == 0 && !f.bufDirty && f.wpCluster == f.wpIdx == []
    requires f.metaDirty <==> f.truncOld >= 2
    ensures Streaming(v, f, [], [])
  {
    hide LinksOf, Chain, InRange, FlatOf, OnDisk, Staging;
    EmptyFile(v.Links(), v.total + 2, f.first);
    NoBytes(v.store.data, v.store.bpc);
    NothingWritten(f.buf, v.store.bpc);
  }

  lemma EmptyFile(links: seq<nat>, limit: nat, first: nat)
    requires limit <= |links| && first < 2
    ensures Chain(links, limit, first, [])
  {
  }

  lemma NoBytes(data: seq<seq<byte>>, bpc: nat)
    ensures OnDisk(data, bpc, []) && FlatOf(data, bpc, []) == []
  {
  }

  lemma NothingWritten(buf: seq<byte>, bpc: nat)
    requires bpc >= 1
    ensures Staging(buf, 0, false, 0, bpc, [], [])
  {
  }

  /** One write of a save. One that would pass the 32-bit size is not issued. */
  method WriteNext(v: Fat32, f: Fd, payload: seq<byte>, failures: seq<nat>, ghost cl: seq<nat>, ghost bytes: seq<byte>,
                   ghost links0: seq<nat>, ghost data0: seq<seq<byte>>)
    returns (out: WriteResult, ghost cl': seq<nat>)
    requires Streaming(v, f, cl, bytes) && |bytes| + v.store.bpc <= 0x1_0000_0000
    requires Spared(links0, data0, v.Links(), v.store.data, {}) && WasFree(links0, cl) && SameBut(links0, v.Links(), Elems(cl))
    requires OnlyFirst(data0, v.store.data, cl, StagedIndex(f.offset, f.bufPos, v.store.bpc))
    modifies v`hint, v.fat, v.store, f`first, f`cur, f`curIdx, f`chainLen, f`chainLast, f`metaDirty, f`wpCluster, f`wpIdx
    modifies f`bufDirty, f`bufPos, f`bufValid, f`bufStart, f`buf, f`offset, f`size
    ensures CanReport(|payload|, out) && Took(out) <= |payload|
    ensures var bytes' := bytes + payload[..Took(out)]; Streaming(v, f, cl', bytes') && |bytes'| + v.store.bpc <= 0x1_0000_0000
    ensures f.size == if Completes(out) then |bytes| + out.n else old(f.size)
    ensures v.Valid() && Spared(links0, data0, v.Links(), v.store.data, {}) && WasFree(links0, cl') && SameBut(links0, v.Links(), Elems(cl'))
    ensures OnlyFirst(data0, v.store.data, cl', StagedIndex(f.offset, f.bufPos, v.store.bpc))
    ensures out.NotIssued? <==> |bytes| + IPC_BUF + v.store.bpc > 0x1_0000_0000
    ensures out.NoSpace? <==> !out.NotIssued? && payload != [] && CeilDiv(|bytes| + Min(|payload|, IPC_BUF), v.store.bpc) > FreeCount(links0, v.total + 2)
    ensures out.Broken? ==> Refusing(failures)
  {
    hide LinksOf, Chain, FlatOf, InRange, Staging, CursorOk, OnDisk, Fresh, LinkAll, NoneFree, LengthOk, Spared, WasFree, SameBut, FreeCount, CeilDiv, OnlyFirst, StagedIndex;
    StreamLength(v, f, cl, bytes);
    out, cl' := NotIssued, cl;
    assert bytes + payload[..0] == bytes;
    if f.offset + IPC_BUF + v.store.bpc <= 0x1_0000_0000 {
      ghost var links, data, k := v.Links(), v.store.data, StagedIndex(f.offset, f.bufPos, v.store.bpc);
      ghost var extra;
      out, extra := WriteFd(v, f, payload, failures, cl, bytes);
      FirstOnly(data, v.store.data, cl + extra, StagedIndex(f.offset, f.bufPos, v.store.bpc));
      FirstLonger(data0, data, cl, k, extra);
      FirstThen(data0, data, v.store.data, cl + extra, k, StagedIndex(f.offset, f.bufPos, v.store.bpc));
      GrowthSpares(v.total + 2, links0, data0, links, data, v.store.data, cl, extra);
      GrowthTouches(v.total + 2, links0, links, cl, extra);
      cl' := cl + extra;
      TakenOfFree(links0, v.Links(), v.total + 2, f.first, cl');
    }
  }

  lemma FirstLonger(data: seq<seq<byte>>, data': seq<seq<byte>>, cl: seq<nat>, k: nat, extra: seq<nat>)
    requires OnlyFirst(data, data', cl, k)
    ensures OnlyFirst(data, data', cl + extra, k)
  {
    assert forall c :: c in cl[..Min(k, |cl|)] ==> c in (cl + extra)[..Min(k, |cl + extra|)] by {
      assert (cl + extra)[..Min(k, |cl|)] == cl[..Min(k, |cl|)];
      assert (cl + extra)[..Min(k, |cl|)] <= (cl + extra)[..Min(k, |cl + extra|)];
    }
  }

  lemma StreamLength(v: Fat32, f: Fd, cl: seq<nat>, bytes: seq<byte>)
    requires Streaming(v, f, cl, bytes)
    ensures f.offset == |bytes| && v.Valid() && v.store.bpc >= 1
  {
  }

  /** Where the writes of a save stand. */
  ghost predicate Writing(v: Fat32, f: Fd, payloads: seq<seq<byte>>, outs: seq<WriteResult>, cl: seq<nat>, links0: seq<nat>, data0: seq<seq<byte>>)
    reads v, v.fat, v.store, f
  {
    && Reports(payloads, outs) && Streaming(v, f, cl, StreamOf(payloads, outs))
    && f.size == SizeOf(payloads, outs) && |StreamOf(payloads, outs)| + v.store.bpc <= 0x1_0000_0000
    && v.Valid() && Spared(links0, data0, v.Links(), v.store.data, {}) && WasFree(links0, cl) && SameBut(links0, v.Links(), Elems(cl))
    && v.store.bpc >= 1 && OnlyFirst(data0, v.store.data, cl, StagedIndex(f.offset, f.bufPos, v.store.bpc))
    && RoomDecides(payloads, outs, v.store.bpc, FreeCount(links0, v.total + 2))
  }

  lemma WritingStarts(v: Fat32, f: Fd, payloads: seq<seq<byte>>)
    requires Streaming(v, f, [], []) && f.size == 0 && v.store.bpc <= 0x1_0000
    ensures v.Valid() && Writing(v, f, payloads, [], [], v.Links(), v.store.data)
  {
    hide WriteOk, LinksOf;
    StreamLength(v, f, [], []);
    NothingReported(payloads);
    NothingStored(v.store.data, [], StagedIndex(f.offset, f.bufPos, v.store.bpc));
    NothingYetTouched(v.Links(), v.store.data);
  }

  /** One more write. */
  method WriteOneMore(v: Fat32, f: Fd, payloads: seq<seq<byte>>, outs: seq<WriteResult>, failures: seq<nat>, ghost cl: seq<nat>,
                      ghost links0: seq<nat>, ghost data0: seq<seq<byte>>)
    returns (out: WriteResult, ghost cl': seq<nat>)
    requires Writing(v, f, payloads, outs, cl, links0, data0) && |outs| < |payloads|
    modifies v`hint, v.fat, v.store, f`first, f`cur, f`curIdx, f`chainLen, f`chainLast, f`metaDirty, f`wpCluster, f`wpIdx
    modifies f`bufDirty, f`bufPos, f`bufValid, f`bufStart, f`buf, f`offset, f`size
    ensures Writing(v, f, payloads, outs + [out], cl', links0, data0) && (out.Broken? ==> Refusing(failures))
  {
    hide Streaming, Spared, Reports, StreamOf, SizeOf, LinksOf, WasFree, Refusing, SameBut, FreeCount, RoomDecides, OnlyFirst, StagedIndex;
    ReportsFewer(payloads, outs);
    out, cl' := WriteNext(v, f, payloads[|outs|], failures, cl, StreamOf(payloads, outs), links0, data0);
    ReportsMore(payloads, outs, out);
    RoomDecidesMore(payloads, outs, out, v.store.bpc, FreeCount(links0, v.total + 2));
  }

  lemma RoomDecidesMore(payloads: seq<seq<byte>>, outs: seq<WriteResult>, out: WriteResult, bpc: nat, free: nat)
    requires bpc >= 1 && Reports(payloads, outs) && |outs| < |payloads| && Reports(payloads, outs + [out])
    requires RoomDecides(payloads, outs, bpc, free)
    requires var at, n := |StreamOf(payloads, outs)|, |payloads[|outs|]|;
             && (out.NotIssued? <==> at + IPC_BUF + bpc > 0x1_0000_0000)
             && (out.NoSpace? <==> !out.NotIssued? && payloads[|outs|] != [] && CeilDiv(at + Min(n, IPC_BUF), bpc) > free)
    ensures RoomDecides(payloads, outs + [out], bpc, free)
  {
    hide StreamOf, CeilDiv;
    forall i | 0 <= i <= |outs|
      ensures (outs + [out])[..i] == outs[..i] && RoomDecided(payloads, outs + [out], i, bpc, free)
    {
      assert (outs + [out])[..i] == outs[..i];
      assert i == |outs| ==> outs[..i] == outs;
      assert i < |outs| ==> RoomDecided(payloads, outs, i, bpc, free);
    }
  }

  lemma ReportsFewer(payloads: seq<seq<byte>>, outs: seq<WriteResult>)
    requires Reports(payloads, outs)
    ensures |outs| <= |payloads|
  {
  }

  /** The writes of a save: until the close neither the old content nor any directory changes. */
  method WriteAll(v: Fat32, f: Fd, payloads: seq<seq<byte>>, failures: seq<seq<nat>>)
    returns (outs: seq<WriteResult>, ghost cl: seq<nat>)
    requires Streaming(v, f, [], []) && v.Valid() && f.size == 0 && v.store.bpc <= 0x1_0000 && |failures| == |payloads|
    modifies v`hint, v.fat, v.store, f`first, f`cur, f`curIdx, f`chainLen, f`chainLast, f`metaDirty, f`wpCluster, f`wpIdx
    modifies f`bufDirty, f`bufPos, f`bufValid, f`bufStart, f`buf, f`offset, f`size
    ensures Writing(v, f, payloads, outs, cl, old(v.Links()), old(v.store.data)) && |outs| == |payloads|
    ensures forall i :: 0 <= i < |outs| && outs[i].Broken? ==> Refusing(failures[i])
  {
    hide Streaming, Writing, LinksOf, Refusing;
    outs, cl := [], [];
    ghost var links0, data0 := v.Links(), v.store.data;
    WritingStarts(v, f, payloads);
    for i := 0 to |payloads|
      invariant |outs| == i && Writing(v, f, payloads, outs, cl, links0, data0)
      invariant forall j :: 0 <= j < i && outs[j].Broken? ==> Refusing(failures[j])
    {
      var out;
      out, cl := WriteOneMore(v, f, payloads, outs, failures[i], cl, links0, data0);
      outs := outs + [out];
    }
  }

  /** What a save leaves. The entry of the file names a chain that holds `held`, and the old content's
    * clusters are free; or the directory is as it was and so is the old content. Every other chain of
    * the volume keeps its links and its data.
    */
  ghost predicate SaveOutcome(v: Fat32, links0: seq<nat>, data0: seq<seq<byte>>, dir: nat, dirCl: seq<nat>, m: map<seq<byte>, Record>,
                              key: seq<byte>, oldCl: seq<nat>, updated: bool, first: nat, cl: seq<nat>, held: seq<byte>)
    reads v, v.fat, v.store
  {
    && v.Valid() && key in m && |v.store.data| == |data0|
    && Saved(v.Links(), v.total + 2, v.store.data, v.store.bpc, first, cl, held)
    && (if updated then
          && MapDir(v, dir, dirCl, m[key := m[key].(size := |held|, first := first)])
          && forall c :: c in oldCl ==> c < |v.Links()| && v.Links()[c] == FREE
        else
          && MapDir(v, dir, dirCl, m) && Chain(v.Links(), v.total + 2, m[key].first, oldCl)
          && forall c :: c in oldCl && c < |data0| ==> v.store.data[c] == data0[c])
    && ChainsSpared(v.total + 2, links0, data0, v.Links(), v.store.data, if updated then Elems(dirCl) + Elems(oldCl) else {})
  }

  lemma SaveEnded(v: Fat32, links0: seq<nat>, data0: seq<seq<byte>>, dir: nat, dirCl: seq<nat>, m: map<seq<byte>, Record>,
                  key: seq<byte>, oldCl: seq<nat>, updated: bool, first: nat, cl: seq<nat>, held: seq<byte>)
    requires CloseOutcome(v, links0, data0, dir, dirCl, m, key, oldCl, updated, first, cl, held)
    requires Chain(links0, v.total + 2, m[key].first, oldCl)
    ensures SaveOutcome(v, links0, data0, dir, dirCl, m, key, oldCl, updated, first, cl, held)
  {
    hide Chain, MapDir, LinksOf, Saved;
    SparedChains(v.total + 2, links0, data0, v.Links(), v.store.data, if updated then Elems(dirCl) + Elems(oldCl) else {});
    if !updated {
      SparedChain(v.total + 2, links0, data0, v.Links(), v.store.data, {}, m[key].first, oldCl);
    }
  }

  /** What the chain of a save holds when its last store failed: the whole clusters stored before, up to
    * byte `p` of the stream, and from there on what was on the disk before the save.
    */
  ghost predicate HalfStored(stream: seq<byte>, p: nat, data0: seq<seq<byte>>, bpc: nat, grown: seq<nat>, held: seq<byte>) {
    && bpc >= 1 && OnDisk(data0, bpc, grown) && p < |stream| <= |FlatOf(data0, bpc, grown)| && |held| <= |stream|
    && p == Times(ClusterOf(p, bpc), bpc) && held == (stream[..p] + FlatOf(data0, bpc, grown)[p..])[..|held|]
  }

  /** The chain then holds the content exactly when that ends before byte `p`, or the disk happened to
    * hold the rest of it.
    */
  lemma HalfStoredContent(stream: seq<byte>, p: nat, data0: seq<seq<byte>>, bpc: nat, grown: seq<nat>, held: seq<byte>)
    requires HalfStored(stream, p, data0, bpc, grown, held)
    ensures held == stream[..|held|] <==> |held| <= p || FlatOf(data0, bpc, grown)[p..|held|] == stream[p..|held|]
  {
    hide FlatOf;
    var stale, n := FlatOf(data0, bpc, grown), |held|;
    if n > p {
      assert held == stream[..p] + stale[p..n];
      assert stream[..n] == stream[..p] + stream[p..n];
      assert held[p..] == stale[p..n] && stream[..n][p..] == stream[p..n];
    } else {
      assert held == stream[..n];
    }
  }

  /** Clusters that hold what they did give the end of a chain's bytes as it was. */
  lemma {:induction false} TailSame(data: seq<seq<byte>>, data': seq<seq<byte>>, bpc: nat, cl: seq<nat>, k: nat)
    requires OnDisk(data, bpc, cl) && OnDisk(data', bpc, cl) && k <= |cl|
    requires forall i :: k <= i < |cl| ==> data'[cl[i]] == data[cl[i]]
    ensures k * bpc <= |FlatOf(data, bpc, cl)| == |FlatOf(data', bpc, cl)|
    ensures FlatOf(data', bpc, cl)[k * bpc..] == FlatOf(data, bpc, cl)[k * bpc..]
    decreases |cl|
  {
    FlatLength(data, bpc, cl);
    FlatLength(data', bpc, cl);
    MulMonotone(k, |cl|, bpc);
    if k < |cl| {
      var n := |cl| - 1;
      TailSame(data, data', bpc, cl[..n], k);
      EndKept(FlatOf(data, bpc, cl[..n]), FlatOf(data', bpc, cl[..n]), data[cl[n]], k * bpc);
    }
  }

  lemma EndKept(a: seq<byte>, b: seq<byte>, last: seq<byte>, p: nat)
    requires p <= |a| == |b| && a[p..] == b[p..]
    ensures (a + last)[p..] == (b + last)[p..]
  {
    assert (a + last)[p..] == a[p..] + last && (b + last)[p..] == b[p..] + last;
  }

  /** Every cluster has the size of one. */
  ghost predicate Sized(data: seq<seq<byte>>, bpc: nat) {
    forall c :: 0 <= c < |data| ==> |data[c]| == bpc
  }

  lemma StoreSized(v: Fat32)
    requires v.Valid()
    ensures Sized(v.store.data, v.store.bpc)
  {
  }

  /** What a handle with a failed last store leaves on its chain. */
  lemma HalfStoredIs(v: Fat32, f: Fd, cl: seq<nat>, stream: seq<byte>, data0: seq<seq<byte>>, held: seq<byte>)
    requires Streaming(v, f, cl, stream) && f.bufDirty && Sized(data0, v.store.bpc) && |data0| == |v.store.data|
    requires OnlyFirst(data0, v.store.data, cl, StagedIndex(f.offset, f.bufPos, v.store.bpc))
    requires HeldBefore(v.store.data, v.store.bpc, cl, held, f.size)
    ensures HalfStored(stream, (f.offset - f.bufPos) as nat, data0, v.store.bpc, cl, held)
  {
    hide LinksOf, Chain, FlatOf, OnlyFirst, Times, ClusterOf, CursorOk, InRange, LengthOk;
    var bpc, p: nat, k := v.store.bpc, f.offset - f.bufPos, StagedIndex(f.offset, f.bufPos, v.store.bpc);
    StagedCluster(f.offset, f.bufPos, bpc, |cl|);
    ClustersInside(v, f, cl);
    FirstOnly(data0, v.store.data, cl, k);
    assert p == k * bpc by { IndexTimes(k, bpc); }
    TailSame(data0, v.store.data, bpc, cl, k);
    FlatLength(v.store.data, bpc, cl);
    var flat, stale := FlatOf(v.store.data, bpc, cl), FlatOf(data0, bpc, cl);
    assert flat == flat[..p] + flat[p..] == stream[..p] + stale[p..];
  }

  /** Where the staged bytes of a handle start, and what a failed last store would leave. */
  lemma StagedFrom(v: Fat32, f: Fd, cl: seq<nat>, stream: seq<byte>, data0: seq<seq<byte>>) returns (p: nat)
    requires Streaming(v, f, cl, stream) && Sized(data0, v.store.bpc) && |data0| == |v.store.data|
    requires OnlyFirst(data0, v.store.data, cl, StagedIndex(f.offset, f.bufPos, v.store.bpc))
    ensures p <= |stream| && v.store.bpc >= 1 && p == Times(ClusterOf(p, v.store.bpc), v.store.bpc) && (f.bufDirty <==> p < |stream|)
    ensures forall held :: f.bufDirty && HeldBefore(v.store.data, v.store.bpc, cl, held, f.size) ==>
              HalfStored(stream, p, data0, v.store.bpc, cl, held)
  {
    hide HeldBefore, HalfStored, OnlyFirst, FlatOf, Chain, LinksOf, Times, ClusterOf, OnDisk;
    StagingFacts(f, v.store.bpc, FlatOf(v.store.data, v.store.bpc, cl), stream);
    p := f.offset - f.bufPos;
    forall held | f.bufDirty && HeldBefore(v.store.data, v.store.bpc, cl, held, f.size)
      ensures HalfStored(stream, p, data0, v.store.bpc, cl, held)
    {
      HalfStoredIs(v, f, cl, stream, data0, held);
    }
  }

  lemma IndexTimes(k: nat, bpc: nat)
    ensures Times(k, bpc) == k * bpc
  {
  }

  /** Save a file: find its entry, open it (truncating if it has content), write, close. The device may
    * refuse stores at any point, for good or not, and the directory the update. With content to replace,
    * the outcome is wholly new exactly when the last store and the update succeed, and else wholly old.
    * The entry of a file without content is written once the file has clusters, even when the last store
    * failed: it then names clusters of which the last ones hold what they did before. Which writes find
    * no space is decided by their sizes and the clusters free at the start.
    */
  method SaveFile(v: Fat32, dir: nat, name: seq<byte>, payloads: seq<seq<byte>>, failures: seq<seq<nat>>, closeFailures: nat, accepted: bool,
                  ghost dirCl: seq<nat>, ghost m: map<seq<byte>, Record>, ghost oldCl: seq<nat>)
    returns (outs: seq<WriteResult>, flushOk: bool, updated: bool, ghost first: nat, ghost cl: seq<nat>, ghost grown: seq<nat>, ghost p: nat, ghost held: seq<byte>)
    requires MapDir(v, dir, dirCl, m) && v.Valid() && 1 <= v.store.bpc <= 0x1_0000 && InRange(v.Links()) && |failures| == |payloads|
    requires LowerAll(name) in m && (m[LowerAll(name)].first < 2 ==> m[LowerAll(name)].size == 0)
    requires Chain(v.Links(), v.total + 2, m[LowerAll(name)].first, oldCl) && Elems(oldCl) !! Elems(dirCl)
    modifies v, v.fat, v.store
    ensures Reports(payloads, outs) && |outs| == |payloads|
    ensures forall i :: 0 <= i < |outs| && outs[i].Broken? ==> Refusing(failures[i])
    ensures RoomDecides(payloads, outs, v.store.bpc, FreeCount(old(v.Links()), v.total + 2))
    ensures p <= |StreamOf(payloads, outs)| && p == Times(ClusterOf(p, v.store.bpc), v.store.bpc)
    ensures flushOk <==> closeFailures < FLUSH_RETRIES || p == |StreamOf(payloads, outs)|
    ensures updated == if m[LowerAll(name)].first >= 2 then flushOk && accepted else grown != [] && accepted
    ensures cl <= grown && (ContentOf(payloads, outs) != [] ==> grown != [])
    ensures SaveOutcome(v, old(v.Links()), old(v.store.data), dir, dirCl, m, LowerAll(name), oldCl, updated, first, cl, held)
    ensures |held| == |ContentOf(payloads, outs)|
    ensures if flushOk then held == ContentOf(payloads, outs)
            else HalfStored(StreamOf(payloads, outs), p, old(v.store.data), v.store.bpc, grown, held)
    ensures WasFree(old(v.Links()), grown)
  {
    hide LinksOf, Chain, FlatOf, InRange, Staging, CursorOk, OnDisk, LengthOk, Reports, StreamOf, SizeOf, Saved, MapDir, DirHolds, DirList, KeyOf, LowerAll, CloseOutcome, SaveOutcome;
    hide HalfStored, HeldBefore, OnlyFirst, Times, ClusterOf, Sized;
    ghost var links0, data0, key := v.Links(), v.store.data, LowerAll(name);
    StoreSized(v);
    MapDirHolds(v, dir, dirCl, m);
    var found := Lookup(v, dir, name, dirCl, m);
    var entry := found.value;
    var f := OpenForSave(v, FirstCluster(entry.item.entry), FileSize(entry.item.entry));
    ghost var written;
    outs, written := WriteAll(v, f, payloads, failures);
    first, grown := f.first, written;
    SmallFirst(links0, v.total + 2, m[key].first, oldCl);
    assert Saving(v, f, links0, data0, dir, dirCl, m, entry, oldCl, written);
    ghost var bytes := StreamOf(payloads, outs);
    if SizeOf(payloads, outs) > 0 {
      ChainNeeded(v, f, written, bytes);
    }
    p := StagedFrom(v, f, written, bytes, data0);
    ghost var size, data1 := f.size, v.store.data;
    flushOk, updated, cl, held := CloseFd(v, f, dir, entry, closeFailures, accepted, written, oldCl, bytes, links0, data0, dirCl, m);
    HeldSize(data1, v.store.bpc, written, held, size);
    SaveEnded(v, links0, data0, dir, dirCl, m, key, oldCl, updated, first, cl, held);
  }

  /** One byte saved to a file without content, with a device that refuses the last store: the entry
    * says that the file has a byte, and its cluster holds another one.
    */
  method NewFileTorn(v: Fat32, dir: nat, name: seq<byte>, x: byte, ghost dirCl: seq<nat>, ghost m: map<seq<byte>, Record>)
    returns (ghost first: nat, ghost cl: seq<nat>, ghost held: seq<byte>)
    requires MapDir(v, dir, dirCl, m) && v.Valid() && 2 <= v.store.bpc <= 0x1_0000 && InRange(v.Links())
    requires LowerAll(name) in m && m[LowerAll(name)].first < 2 && m[LowerAll(name)].size == 0
    requires Chain(v.Links(), v.total + 2, m[LowerAll(name)].first, [])
    requires FreeCount(v.Links(), v.total + 2) >= 1
    requires forall c :: 2 <= c < v.total + 2 && c < |v.Links()| && c < |v.store.data| && v.Links()[c] == FREE ==> v.store.data[c] != [] && v.store.data[c][0] != x
    modifies v, v.fat, v.store
    ensures SaveOutcome(v, old(v.Links()), old(v.store.data), dir, dirCl, m, LowerAll(name), [], true, first, cl, held)
    ensures |held| == 1 && held != [x]
  {
    hide LinksOf, MapDir, Chain, InRange, FreeCount, SaveOutcome, FlatOf, LowerAll, CeilDiv;
    ghost var data0, links0 := v.store.data, v.Links();
    var outs, flushOk, updated;
    ghost var grown, p;
    outs, flushOk, updated, first, cl, grown, p, held := SaveFile(v, dir, name, [[x]], [[]], FLUSH_RETRIES, true, dirCl, m, []);
    OneByteTaken(outs, x, v.store.bpc, FreeCount(links0, v.total + 2));
    OneByteStaged(p, v.store.bpc);
    SavedChain(v, links0, data0, dir, dirCl, m, LowerAll(name), [], updated, first, cl, held);
    assert cl[0] == grown[0] && grown[0] in grown;
    FlatFirst(data0, v.store.bpc, grown);
    ghost var flat := FlatOf(data0, v.store.bpc, grown);
    assert !flushOk && [x][..p] == [] && [] + flat[0..] == flat;
    assert held == flat[..1] && held[0] == data0[grown[0]][0];
    assert held[0] != x;
  }

  lemma OneByteTaken(outs: seq<WriteResult>, x: byte, bpc: nat, free: nat)
    requires |outs| == 1 && Reports([[x]], outs) && 2 <= bpc <= 0x1_0000 && RoomDecides([[x]], outs, bpc, free) && free >= 1 && !outs[0].Broken?
    ensures StreamOf([[x]], outs) == [x] && ContentOf([[x]], outs) == [x]
  {
    hide CeilDiv;
    assert RoomDecided([[x]], outs, 0, bpc, free);
    NothingReported([[x]]);
    assert outs[..0] == [];
    CeilDivUnique(1, bpc, 1);
    assert outs[0] == Written(1) && [x][..1] == [x];
  }

  lemma OneByteStaged(p: nat, bpc: nat)
    requires bpc >= 2 && p <= 1 && p == Times(ClusterOf(p, bpc), bpc)
    ensures p == 0
  {
  }

  lemma SavedChain(v: Fat32, links0: seq<nat>, data0: seq<seq<byte>>, dir: nat, dirCl: seq<nat>, m: map<seq<byte>, Record>,
                   key: seq<byte>, oldCl: seq<nat>, updated: bool, first: nat, cl: seq<nat>, held: seq<byte>)
    requires SaveOutcome(v, links0, data0, dir, dirCl, m, key, oldCl, updated, first, cl, held) && held != []
    ensures cl != [] && v.Valid() && 2 <= cl[0] < v.total + 2
  {
    hide MapDir, LinksOf, FlatOf;
  }

  lemma FlatFirst(data: seq<seq<byte>>, bpc: nat, cl: seq<nat>)
    requires OnDisk(data, bpc, cl) && cl != [] && bpc >= 1
    ensures FlatOf(data, bpc, cl) != [] && FlatOf(data, bpc, cl)[0] == data[cl[0]][0]
  {
    FlatCluster(data, bpc, cl, 0);
    assert FlatOf(data, bpc, cl)[0..bpc][0] == FlatOf(data, bpc, cl)[0];
  }

  lemma SmallFirst(links: seq<nat>, limit: nat, first: nat, cl: seq<nat>)
    requires Chain(links, limit, first, cl)
    ensures Chain(links, limit, if first >= 2 then first else 0, cl)
  {
  }

  /** Bytes need a chain. */
  lemma ChainNeeded(v: Fat32, f: Fd, cl: seq<nat>, bytes: seq<byte>)
    requires Streaming(v, f, cl, bytes) && bytes != []
    ensures cl != []
  {
    HasChain(cl, |bytes|, v.store.bpc);
  }
}
