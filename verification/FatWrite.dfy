/** Writing FAT32 files: chains grown in batches and writes staged cluster by cluster, on a device
  * that may refuse a cluster, for a while or for good.
  */
module FatWrite {
  import opened Arith
  import opened Bytes
  import opened FatTable
  import opened FatClusters
  import opened FatChains
  import opened FatFiles

  const PREALLOC: nat := 32
  const FLUSH_RETRIES: nat := 5

  /** A known chain length and last cluster are exact. */
  ghost predicate LengthOk(f: Fd, cl: seq<nat>)
    reads f
  {
    f.chainLen == 0 || (cl != [] && f.chainLen == |cl| && f.chainLast == cl[|cl| - 1])
  }

  /** An open file on a volume whose links are in range. */
  ghost predicate FdOk(v: Fat32, f: Fd, cl: seq<nat>)
    reads v, v.fat, v.store, f
  {
    && v.Valid() && v.store.bpc >= 1 && InRange(v.Links()) && Chain(v.Links(), v.total + 2, f.first, cl)
    && CursorOk(f, cl) && LengthOk(f, cl)
  }

  lemma ClustersOnDisk(v: Fat32, first: nat, cl: seq<nat>)
    requires v.Valid() && Chain(v.Links(), v.total + 2, first, cl)
    ensures OnDisk(v.store.data, v.store.bpc, cl)
  {
  }

  // ---- growing the chain ----

  lemma LinkAllInRange(links: seq<nat>, prev: nat, extra: seq<nat>)
    requires prev < |links| && InRange(links) && forall i :: 0 <= i < |extra| ==> extra[i] < |links|
    ensures InRange(LinkAll(links, prev, extra))
  {
    if extra != [] {
      LinkAllInRange(links, prev, extra[..|extra| - 1]);
    }
  }

  /** Walk to the end of the chain, counting. */
  method MeasureChain(v: Fat32, first: nat, ghost cl: seq<nat>) returns (len: nat, last: nat)
    requires v.Valid() && Chain(v.Links(), v.total + 2, first, cl) && first >= 2
    modifies v.fat
    ensures v.Valid() && v.Links() == old(v.Links()) && cl != [] && len == |cl| && last == cl[|cl| - 1]
  {
    hide LinksOf, Chain;
    ChainShape(v.Links(), v.total + 2, first, cl);
    last, len := first, 1;
    var next: nat := NeighbourAt(v, last, first, cl, 0);
    while !IsEoc(next)
      invariant 1 <= len <= |cl| && last == cl[len - 1] && (if len < |cl| then next == cl[len] < v.total + 2 else IsEoc(next))
      invariant v.Valid() && v.Links() == old(v.Links())
      decreases |cl| - len
    {
      last := next;
      len := len + 1;
      next := NeighbourAt(v, last, first, cl, len - 1);
    }
  }

  /** What a batch linked to the chain `cl` (or starting one) makes of it. */
  lemma BatchExtends(links: seq<nat>, limit: nat, first: nat, cl: seq<nat>, extra: seq<nat>)
    requires Chain(links, limit, first, cl) && Fresh(links, limit, extra) && 2 <= limit && InRange(links)
    ensures LastOf(0, cl) < |links| && (LastOf(0, cl) >= 2 ==> links[LastOf(0, cl)] != FREE)
    ensures var links' := LinkAll(links, LastOf(0, cl), extra);
            && InRange(links')
            && Chain(links', limit, if cl + extra == [] then first else (cl + extra)[0], cl + extra)
  {
    if cl != [] {
      assert cl[|cl| - 1] in cl;
      ChainNotFree(links, limit, first, cl, cl[|cl| - 1]);
    }
    forall i | 0 <= i < |extra|
      ensures extra[i] !in cl
    {
      if extra[i] in cl {
        ChainNotFree(links, limit, first, cl, extra[i]);
      }
    }
    ChainExtended(links, limit, first, cl, extra);
    LinkAllInRange(links, LastOf(0, cl), extra);
  }

  /** Clusters asked for to hold `end` bytes: the end is cut to 32 bits, and so is its rounding. */
  function Needed(end: nat, bpc: nat): nat
    requires bpc >= 1
  {
    WholeClusters(end % 0x1_0000_0000, bpc)
  }

  /** They hold the bytes precisely as long as the rounded end fits 32 bits. */
  lemma NeededExact(end: nat, bpc: nat)
    requires 1 <= bpc <= 0x1_0000
    ensures end <= Needed(end, bpc) * bpc <==> end + bpc <= 0x1_0000_0000
    ensures Needed(end, bpc) * bpc < 0x1_0000_0000
  {
    var x := end % 0x1_0000_0000 + bpc - 1;
    CeilDivBounds(end, bpc);
    RoundedDown(x % 0x1_0000_0000, bpc);
    if end + bpc <= 0x1_0000_0000 {
      NeededFits(end, bpc);
    }
    if end < 0x1_0000_0000 <= x {
      assert x % 0x1_0000_0000 == x - 0x1_0000_0000;
      WrappedIsZero(x, bpc);
    }
  }

  lemma NeededFits(end: nat, bpc: nat)
    requires bpc >= 1 && end + bpc <= 0x1_0000_0000
    ensures Needed(end, bpc) == CeilDiv(end, bpc) && end % 0x1_0000_0000 == end && (end > 0 <==> CeilDiv(end, bpc) > 0)
  {
    CeilDivBounds(end, bpc);
  }

  lemma RoundedDown(n: nat, bpc: nat)
    requires bpc >= 1
    ensures n / bpc * bpc <= n
  {
  }

  /** Make the chain long enough for `end` bytes, taking clusters in batches of at least 32. It
    * falls short only when no cluster is free.
    */
  method EnsureClusters(v: Fat32, f: Fd, end: nat, ghost cl: seq<nat>) returns (ok: bool, ghost extra: seq<nat>)
    requires FdOk(v, f, cl)
    modifies v`hint, v.fat, v.store, f`first, f`cur, f`curIdx, f`chainLen, f`chainLast, f`metaDirty
    ensures FdOk(v, f, cl + extra) && v.store.data == old(v.store.data)
    ensures Fresh(old(v.Links()), v.total + 2, extra) && LastOf(0, cl) < |old(v.Links())|
    ensures v.Links() == LinkAll(old(v.Links()), LastOf(0, cl), extra)
    ensures ok <==> end % 0x1_0000_0000 == 0 || (cl + extra != [] && Needed(end, v.store.bpc) <= |cl + extra|)
    ensures cl != [] && Needed(end, v.store.bpc) <= |cl| ==> extra == []
    ensures !ok ==> NoneFree(v.Links(), v.total + 2)
    ensures f.first == if cl + extra == [] then old(f.first) else (cl + extra)[0]
    ensures f.metaDirty <==> old(f.metaDirty) || (cl == [] && extra != [])
  {
    hide LinksOf, Chain, LinkAll, Fresh, NoneFree, InRange, WholeClusters;
    extra := [];
    ghost var links0, limit := v.Links(), v.total + 2;
    assert Fresh(links0, limit, []) && LastOf(0, cl) < |links0| && LinkAll(links0, LastOf(0, cl), []) == links0 by {
      NothingNew(links0, limit, f.first, cl);
    }
    assert cl + [] == cl;
    ChainShape(links0, limit, f.first, cl);
    if end % 0x1_0000_0000 == 0 {
      return true, [];
    }
    var needed := Needed(end, v.store.bpc);
    if f.first < 2 {
      ok, extra := StartChain(v, f, needed, cl);
      return;
    }
    if f.chainLen == 0 {
      var len, last := MeasureChain(v, f.first, cl);
      f.chainLen := len;
      f.chainLast := last;
    }
    if needed <= f.chainLen {
      return true, [];
    }
    ok, extra := GrowChain(v, f, needed, cl);
  }

  lemma NothingNew(links: seq<nat>, limit: nat, first: nat, cl: seq<nat>)
    requires Chain(links, limit, first, cl) && limit >= 2
    ensures Fresh(links, limit, []) && LastOf(0, cl) < |links| && LinkAll(links, LastOf(0, cl), []) == links
  {
    if cl != [] {
      assert 2 <= cl[|cl| - 1] < limit;
    }
  }

  lemma NothingCame(links: seq<nat>, limit: nat, prev: nat, extra: seq<nat>)
    requires Fresh(links, limit, extra) && prev < |links| && (if extra == [] then 0 else extra[0]) == 0
    ensures extra == [] && LinkAll(links, prev, extra) == links
  {
  }

  /** Take a batch after the chain's last cluster: `least` clusters, rounded up to the batch size;
    * if that yields nothing, just `least`.
    */
  method TakeBatch(v: Fat32, prev: nat, least: nat, ghost first: nat, ghost cl: seq<nat>)
    returns (nc: nat, last: nat, count: nat, ghost extra: seq<nat>)
    requires v.Valid() && InRange(v.Links()) && Chain(v.Links(), v.total + 2, first, cl) && prev == LastOf(0, cl)
    modifies v`hint, v.fat, v.store
    ensures v.Valid() && InRange(v.Links()) && v.store.data == old(v.store.data)
    ensures Fresh(old(v.Links()), v.total + 2, extra) && prev < |old(v.Links())| && v.Links() == LinkAll(old(v.Links()), prev, extra)
    ensures Chain(v.Links(), v.total + 2, if cl + extra == [] then first else (cl + extra)[0], cl + extra)
    ensures count == |extra| && last == LastOf(prev, extra) && nc == (if extra == [] then 0 else extra[0]) && (nc == 0 <==> extra == [])
    ensures count < Max(1, least) ==> NoneFree(v.Links(), v.total + 2)
  {
    hide LinksOf, LinkAll, InRange, NoneFree;
    ghost var links0, limit := v.Links(), v.total + 2;
    assert Fresh(links0, limit, []) by { NothingNew(links0, limit, first, cl); }
    BatchExtends(links0, limit, first, cl, []);
    hide Chain;
    var batch := Max(least, PREALLOC);
    nc, last, count, extra := v.AllocBatch(prev, batch, false);
    if nc == 0 && batch > least {
      NothingCame(links0, limit, prev, extra);
      nc, last, count, extra := v.AllocBatch(prev, least, false);
    }
    FreshHead(links0, limit, extra);
    BatchExtends(links0, limit, first, cl, extra);
  }

  /** Start a chain with at least `needed` clusters, if there are as many. */
  method StartChain(v: Fat32, f: Fd, needed: nat, ghost cl: seq<nat>) returns (ok: bool, ghost extra: seq<nat>)
    requires FdOk(v, f, cl) && f.first < 2
    modifies v`hint, v.fat, v.store, f`first, f`cur, f`curIdx, f`chainLen, f`chainLast, f`metaDirty
    ensures cl == [] && FdOk(v, f, cl + extra) && v.store.data == old(v.store.data)
    ensures Fresh(old(v.Links()), v.total + 2, extra) && v.Links() == LinkAll(old(v.Links()), 0, extra)
    ensures (ok <==> extra != [] && needed <= |cl + extra|) && (!ok ==> NoneFree(v.Links(), v.total + 2))
    ensures f.first == if cl + extra == [] then old(f.first) else (cl + extra)[0]
    ensures f.metaDirty <==> old(f.metaDirty) || extra != []
  {
    hide LinksOf, LinkAll, InRange, NoneFree, Fresh, Chain, CacheOk, SlotsOk, StampsOk;
    ChainShape(v.Links(), v.total + 2, f.first, cl);
    var nc, last, count;
    nc, last, count, extra := TakeBatch(v, 0, needed, f.first, cl);
    assert cl + extra == extra;
    if nc == 0 {
      return false, extra;
    }
    ChainShape(v.Links(), v.total + 2, nc, extra);
    f.first, f.cur, f.curIdx, f.metaDirty := nc, nc, 0, true;
    f.chainLen, f.chainLast := count, last;
    ok := count >= needed;
  }

  /** Grow the chain to at least `needed` clusters, if there are as many. */
  method GrowChain(v: Fat32, f: Fd, needed: nat, ghost cl: seq<nat>) returns (ok: bool, ghost extra: seq<nat>)
    requires FdOk(v, f, cl) && f.first >= 2 && 0 < f.chainLen < needed
    modifies v`hint, v.fat, v.store, f`chainLen, f`chainLast
    ensures FdOk(v, f, cl + extra) && v.store.data == old(v.store.data)
    ensures Fresh(old(v.Links()), v.total + 2, extra) && LastOf(0, cl) < |old(v.Links())|
    ensures v.Links() == LinkAll(old(v.Links()), LastOf(0, cl), extra)
    ensures (ok <==> needed <= |cl + extra|) && (!ok ==> NoneFree(v.Links(), v.total + 2))
    ensures cl != [] && (cl + extra)[0] == f.first
  {
    hide LinksOf, LinkAll, InRange, NoneFree, Fresh, Chain;
    ChainShape(v.Links(), v.total + 2, f.first, cl);
    var nc, last, count;
    nc, last, count, extra := TakeBatch(v, f.chainLast, needed - f.chainLen, f.first, cl);
    if nc == 0 {
      assert cl + extra == cl;
      return false, extra;
    }
    f.chainLast := last;
    f.chainLen := f.chainLen + count;
    ok := f.chainLen >= needed;
  }

  // ---- staged writes ----

  /** The bytes written so far: whole clusters on the disk, the rest staged in the buffer. */
  ghost predicate Staging(buf: seq<byte>, pos: nat, dirty: bool, offset: nat, bpc: nat, flat: seq<byte>, bytes: seq<byte>)
    requires bpc >= 1
  {
    && offset == |bytes| && pos <= bpc && pos <= |buf| && pos <= offset && (dirty <==> pos > 0)
    && offset - pos == Times(ClusterOf(offset - pos, bpc), bpc)
    && offset - pos <= |flat| && flat[..offset - pos] == bytes[..offset - pos] && buf[..pos] == bytes[offset - pos..]
  }

  /** A file being written from its start: `bytes` have been accepted. */
  ghost predicate WriteOk(v: Fat32, f: Fd, cl: seq<nat>, bytes: seq<byte>)
    reads v, v.fat, v.store, f
  {
    && FdOk(v, f, cl) && OnDisk(v.store.data, v.store.bpc, cl)
    && Staging(f.buf, f.bufPos, f.bufDirty, f.offset, v.store.bpc, FlatOf(v.store.data, v.store.bpc, cl), bytes)
    && |bytes| <= |cl| * v.store.bpc
  }

  lemma Apart(cl: seq<nat>, k: nat)
    requires Distinct(cl) && k < |cl|
    ensures Distinct(cl[..|cl| - 1]) && forall i :: 0 <= i < |cl| && i != k ==> cl[i] != cl[k]
  {
  }

  /** A cluster written to the chain changes its part of the bytes. */
  lemma {:induction false} FlatWritten(data: seq<seq<byte>>, bpc: nat, cl: seq<nat>, k: nat, b: seq<byte>)
    requires OnDisk(data, bpc, cl) && Distinct(cl) && k < |cl| && |b| == bpc
    ensures OnDisk(data[cl[k] := b], bpc, cl)
    ensures k * bpc + bpc <= |FlatOf(data, bpc, cl)|
    ensures FlatOf(data[cl[k] := b], bpc, cl) == FlatOf(data, bpc, cl)[..k * bpc] + b + FlatOf(data, bpc, cl)[k * bpc + bpc..]
    decreases |cl|
  {
    hide Distinct;
    var n := |cl| - 1;
    Apart(cl, k);
    FlatCluster(data, bpc, cl, k);
    FlatLength(data, bpc, cl[..n]);
    if k < n {
      MulStep(k, n, bpc);
      FlatWritten(data, bpc, cl[..n], k, b);
      WrittenBefore(data, bpc, cl, k, k * bpc, b);
    } else {
      WrittenLast(data, bpc, cl, n * bpc, b);
    }
  }

  lemma WrittenBefore(data: seq<seq<byte>>, bpc: nat, cl: seq<nat>, k: nat, p: nat, b: seq<byte>)
    requires OnDisk(data, bpc, cl) && k < |cl| - 1 && cl[|cl| - 1] != cl[k] && |b| == bpc
    requires var data', front := data[cl[k] := b], cl[..|cl| - 1];
             && p + bpc <= |FlatOf(data, bpc, front)| && OnDisk(data', bpc, front)
             && FlatOf(data', bpc, front) == FlatOf(data, bpc, front)[..p] + b + FlatOf(data, bpc, front)[p + bpc..]
    ensures var data' := data[cl[k] := b];
            && p + bpc <= |FlatOf(data, bpc, cl)| && OnDisk(data', bpc, cl)
            && FlatOf(data', bpc, cl) == FlatOf(data, bpc, cl)[..p] + b + FlatOf(data, bpc, cl)[p + bpc..]
  {
    var front, last := FlatOf(data, bpc, cl[..|cl| - 1]), data[cl[|cl| - 1]];
    assert (front + last)[..p] == front[..p] && (front + last)[p + bpc..] == front[p + bpc..] + last;
  }

  lemma WrittenLast(data: seq<seq<byte>>, bpc: nat, cl: seq<nat>, p: nat, b: seq<byte>)
    requires OnDisk(data, bpc, cl) && cl != [] && |b| == bpc && p == |FlatOf(data, bpc, cl[..|cl| - 1])|
    requires forall i :: 0 <= i < |cl| - 1 ==> cl[i] != cl[|cl| - 1]
    ensures var data' := data[cl[|cl| - 1] := b];
            && p + bpc <= |FlatOf(data, bpc, cl)| && OnDisk(data', bpc, cl)
            && FlatOf(data', bpc, cl) == FlatOf(data, bpc, cl)[..p] + b + FlatOf(data, bpc, cl)[p + bpc..]
  {
    var n := |cl| - 1;
    var data' := data[cl[n] := b];
    FlatSame(data, data', bpc, cl[..n]);
    var front, last := FlatOf(data, bpc, cl[..n]), data[cl[n]];
    assert (front + last)[..p] == front && (front + last)[p + bpc..] == [];
  }

  lemma {:induction false} FlatSame(data: seq<seq<byte>>, data': seq<seq<byte>>, bpc: nat, cl: seq<nat>)
    requires OnDisk(data, bpc, cl) && |data'| == |data| && forall i :: 0 <= i < |cl| ==> data'[cl[i]] == data[cl[i]]
    ensures OnDisk(data', bpc, cl) && FlatOf(data', bpc, cl) == FlatOf(data, bpc, cl)
  {
    if cl != [] {
      FlatSame(data, data', bpc, cl[..|cl| - 1]);
    }
  }

  /** More clusters at the end leave the bytes before them alone. */
  lemma {:induction false} FlatExtended(data: seq<seq<byte>>, bpc: nat, cl: seq<nat>, extra: seq<nat>)
    requires OnDisk(data, bpc, cl + extra)
    ensures OnDisk(data, bpc, cl) && FlatOf(data, bpc, cl) <= FlatOf(data, bpc, cl + extra)
    ensures |FlatOf(data, bpc, cl)| <= |FlatOf(data, bpc, cl + extra)|
  {
    assert forall i :: 0 <= i < |cl| ==> (cl + extra)[i] == cl[i];
    if extra == [] {
      assert cl + extra == cl;
    } else {
      assert (cl + extra)[..|cl + extra| - 1] == cl + extra[..|extra| - 1];
      FlatExtended(data, bpc, cl, extra[..|extra| - 1]);
    }
  }

  /** The staged bytes written into their cluster. */
  lemma StagedWritten(data: seq<seq<byte>>, bpc: nat, cl: seq<nat>, k: nat, buf: seq<byte>, pos: nat, offset: nat, bytes: seq<byte>, b: seq<byte>)
    requires bpc >= 1 && OnDisk(data, bpc, cl) && Distinct(cl) && k < |cl| && |b| == bpc
    requires Staging(buf, pos, pos > 0, offset, bpc, FlatOf(data, bpc, cl), bytes) && k == StagedIndex(offset, pos, bpc)
    requires b[..pos] == buf[..pos] && offset <= |cl| * bpc
    ensures OnDisk(data[cl[k] := b], bpc, cl)
    ensures var flat' := FlatOf(data[cl[k] := b], bpc, cl); offset <= |flat'| && flat'[..offset] == bytes
  {
    hide FlatOf, ClusterOf;
    var flat, data' := FlatOf(data, bpc, cl), data[cl[k] := b];
    FlatWritten(data, bpc, cl, k, b);
    FlatLength(data, bpc, cl);
    FlatLength(data', bpc, cl);
    var flat' := FlatOf(data', bpc, cl);
    assert flat'[..offset] == flat[..k * bpc] + b[..pos];
    assert bytes == bytes[..offset - pos] + bytes[offset - pos..];
  }

  /** The image of the staged cluster: the staged bytes over what the cluster holds. */
  method StagedImage(v: Fat32, f: Fd) returns (out: seq<byte>)
    requires v.Valid() && 2 <= f.cur < v.total + 2 && f.bufPos <= |f.buf| && f.bufPos <= v.store.bpc
    modifies v.store
    ensures v.Valid() && v.Links() == old(v.Links()) && v.store.data == old(v.store.data)
    ensures f.cur < |v.store.data| && |v.store.data[f.cur]| == |out| == v.store.bpc && f.bufPos <= |f.buf|
    ensures out[..f.bufPos] == f.buf[..f.bufPos] && out[f.bufPos..] == v.store.data[f.cur][f.bufPos..]
  {
    hide LinksOf;
    out := f.buf[..f.bufPos];
    if f.bufPos < v.store.bpc {
      var read, image := v.store.ReadCluster(f.cur);
      if !read {
        assert false;
      }
      out := f.buf[..f.bufPos] + image[f.bufPos..];
    }
  }

  /** All accepted bytes are on the disk. */
  ghost predicate Flushed(v: Fat32, f: Fd, cl: seq<nat>, bytes: seq<byte>)
    reads v, v.fat, v.store, f
  {
    && FdOk(v, f, cl) && OnDisk(v.store.data, v.store.bpc, cl)
    && !f.bufDirty && f.bufPos == 0 && f.offset == |bytes|
    && OnFlat(FlatOf(v.store.data, v.store.bpc, cl), bytes) && |bytes| <= |cl| * v.store.bpc
  }

  ghost predicate OnFlat(flat: seq<byte>, bytes: seq<byte>) {
    bytes <= flat
  }

  /** The index of the cluster the staged bytes go to. */
  function StagedIndex(offset: nat, pos: nat, bpc: nat): nat
    requires bpc >= 1
  {
    if pos <= offset then ClusterOf(offset - pos, bpc) else 0
  }

  /** Put the cursor on the cluster of the staged bytes. */
  method SeekStaged(v: Fat32, f: Fd, ghost cl: seq<nat>, ghost bytes: seq<byte>)
    requires WriteOk(v, f, cl, bytes) && f.bufDirty
    modifies v.fat, f`cur, f`curIdx, f`wpCluster, f`wpIdx
    ensures WriteOk(v, f, cl, bytes) && v.Links() == old(v.Links())
    ensures StagedIndex(f.offset, f.bufPos, v.store.bpc) < |cl| && f.cur == cl[StagedIndex(f.offset, f.bufPos, v.store.bpc)]
    ensures 2 <= f.cur < v.total + 2
  {
    hide LinksOf, Chain, FlatOf, Times, ClusterOf, InRange, Staging;
    StagingFacts(f, v.store.bpc, FlatOf(v.store.data, v.store.bpc, cl), bytes);
    StagedCluster(f.offset, f.bufPos, v.store.bpc, |cl|);
    var ok := SeekCursor(v, f, StagedIndex(f.offset, f.bufPos, v.store.bpc), cl);
    if !ok {
      assert false;
    }
    ChainShape(v.Links(), v.total + 2, f.first, cl);
  }

  /** Store the staged bytes in the cluster the cursor is on. */
  method StoreStaged(v: Fat32, f: Fd, failures: nat, ghost cl: seq<nat>, ghost bytes: seq<byte>) returns (ok: bool)
    requires WriteOk(v, f, cl, bytes) && f.bufDirty
    requires StagedIndex(f.offset, f.bufPos, v.store.bpc) < |cl| && f.cur == cl[StagedIndex(f.offset, f.bufPos, v.store.bpc)]
    modifies v.store
    ensures v.Valid() && v.Links() == old(v.Links()) && (ok <==> failures < FLUSH_RETRIES)
    ensures OnlyFirst(old(v.store.data), v.store.data, cl, StagedIndex(f.offset, f.bufPos, v.store.bpc) + 1)
    ensures OnDisk(v.store.data, v.store.bpc, cl) && (!ok ==> v.store.data == old(v.store.data))
    ensures ok ==> OnFlat(FlatOf(v.store.data, v.store.bpc, cl), bytes)
  {
    hide LinksOf, Chain, FlatOf, Times, ClusterOf, InRange, Staging, CursorOk, StagedIndex;
    ghost var data, k := v.store.data, StagedIndex(f.offset, f.bufPos, v.store.bpc);
    StagingFacts(f, v.store.bpc, FlatOf(data, v.store.bpc, cl), bytes);
    ClustersInside(v, f, cl);
    var out := StagedImage(v, f);
    ok := StoreCluster(v, f.cur, out, failures);
    if ok {
      StagedWritten(data, v.store.bpc, cl, k, f.buf, f.bufPos, f.offset, bytes, out);
      OneOfFirst(cl, k);
      FoundOnFlat(FlatOf(v.store.data, v.store.bpc, cl), bytes);
    }
  }

  /** Write the staged bytes to their cluster. The device may refuse `failures` times; after
    * five tries nothing has changed.
    */
  method FlushWrite(v: Fat32, f: Fd, failures: nat, ghost cl: seq<nat>, ghost bytes: seq<byte>) returns (ok: bool)
    requires WriteOk(v, f, cl, bytes) && f.bufDirty
    modifies v.fat, v.store, f`cur, f`curIdx, f`wpCluster, f`wpIdx, f`bufDirty, f`bufPos, f`bufValid, f`bufStart
    ensures v.Valid() && v.Links() == old(v.Links()) && (ok <==> failures < FLUSH_RETRIES)
    ensures OnlyFirst(old(v.store.data), v.store.data, cl, old(StagedIndex(f.offset, f.bufPos, v.store.bpc)) + 1)
    ensures if ok then Flushed(v, f, cl, bytes) else WriteOk(v, f, cl, bytes) && v.store.data == old(v.store.data) && f.bufPos == old(f.bufPos)
  {
    hide LinksOf, Chain, FlatOf, InRange, Staging, WaypointsOk, StagedIndex, OnDisk, OnFlat, OnlyFirst;
    SeekStaged(v, f, cl, bytes);
    StagingFacts(f, v.store.bpc, FlatOf(v.store.data, v.store.bpc, cl), bytes);
    ok := StoreStaged(v, f, failures, cl, bytes);
    if ok {
      f.bufDirty, f.bufPos, f.bufValid, f.bufStart := false, 0, 0, 0;
    }
  }

  lemma FoundOnFlat(flat: seq<byte>, bytes: seq<byte>)
    requires |bytes| <= |flat| && flat[..|bytes|] == bytes
    ensures OnFlat(flat, bytes)
  {
  }

  lemma StagingFacts(f: Fd, bpc: nat, flat: seq<byte>, bytes: seq<byte>)
    requires bpc >= 1 && Staging(f.buf, f.bufPos, f.bufDirty, f.offset, bpc, flat, bytes)
    ensures f.offset == |bytes| && f.bufPos <= bpc && f.bufPos <= |f.buf| && f.bufPos <= f.offset && (f.bufDirty <==> f.bufPos > 0)
    ensures f.offset - f.bufPos == Times(ClusterOf(f.offset - f.bufPos, bpc), bpc)
  {
  }

  lemma ClustersInside(v: Fat32, f: Fd, cl: seq<nat>)
    requires v.Valid() && Chain(v.Links(), v.total + 2, f.first, cl)
    ensures (forall i :: 0 <= i < |cl| ==> 2 <= cl[i] < v.total + 2) && FatChains.Distinct(cl)
  {
  }

  /** Only clusters of the chain differ. */
  ghost predicate OnlyChain(data: seq<seq<byte>>, data': seq<seq<byte>>, cl: seq<nat>) {
    |data'| == |data| && forall c :: 0 <= c < |data| && c !in cl ==> data'[c] == data[c]
  }

  /** Only the first `n` clusters of the chain differ. */
  ghost predicate OnlyFirst(data: seq<seq<byte>>, data': seq<seq<byte>>, cl: seq<nat>, n: nat) {
    OnlyChain(data, data', cl[..Min(n, |cl|)])
  }

  lemma OneOfFirst(cl: seq<nat>, k: nat)
    requires k < |cl|
    ensures cl[k] in cl[..Min(k + 1, |cl|)]
  {
    assert cl[..k + 1][k] == cl[k];
  }

  lemma NothingStored(data: seq<seq<byte>>, cl: seq<nat>, n: nat)
    ensures OnlyFirst(data, data, cl, n)
  {
  }

  lemma FirstThen(data: seq<seq<byte>>, data1: seq<seq<byte>>, data2: seq<seq<byte>>, cl: seq<nat>, n1: nat, n2: nat)
    requires OnlyFirst(data, data1, cl, n1) && OnlyFirst(data1, data2, cl, n2) && n1 <= n2
    ensures OnlyFirst(data, data2, cl, n2)
  {
    assert cl[..Min(n1, |cl|)] <= cl[..Min(n2, |cl|)];
  }

  /** The clusters after the first `n` hold what they did. */
  lemma FirstOnly(data: seq<seq<byte>>, data': seq<seq<byte>>, cl: seq<nat>, n: nat)
    requires OnlyFirst(data, data', cl, n)
    ensures OnlyChain(data, data', cl)
    ensures FatChains.Distinct(cl) ==> forall i :: n <= i < |cl| && cl[i] < |data| ==> data'[cl[i]] == data[cl[i]]
  {
    assert forall c :: c in cl[..Min(n, |cl|)] ==> c in cl;
  }

  /** Try to store a cluster, up to five times. */
  method StoreCluster(v: Fat32, c: nat, out: seq<byte>, failures: nat) returns (ok: bool)
    requires v.Valid() && 2 <= c < v.total + 2 && |out| == v.store.bpc
    modifies v.store
    ensures v.Valid() && v.Links() == old(v.Links()) && (ok <==> failures < FLUSH_RETRIES)
    ensures v.store.data == if ok then old(v.store.data)[c := out] else old(v.store.data)
  {
    hide LinksOf;
    ok := false;
    var t := 0;
    while t < FLUSH_RETRIES && !ok
      invariant t <= FLUSH_RETRIES && v.Valid() && v.Links() == old(v.Links())
      invariant ok <==> failures < t
      invariant v.store.data == if ok then old(v.store.data)[c := out] else old(v.store.data)
    {
      if t >= failures {
        ok := v.store.WriteCluster(c, out);
      }
      t := t + 1;
    }
  }

  /** The cluster of the staged bytes is in the chain. */
  lemma StagedCluster(offset: nat, pos: nat, bpc: nat, n: nat)
    requires bpc >= 1 && 0 < pos <= offset <= n * bpc && offset - pos == Times(ClusterOf(offset - pos, bpc), bpc)
    ensures ClusterOf(offset - pos, bpc) < n
  {
    DivBelow(offset - pos, n, bpc);
  }

  // ---- writing ----

  /** More bytes staged. */
  lemma StagingMore(buf: seq<byte>, pos: nat, dirty: bool, offset: nat, bpc: nat, flat: seq<byte>, bytes: seq<byte>, part: seq<byte>)
    requires bpc >= 1 && Staging(buf, pos, dirty, offset, bpc, flat, bytes) && 0 < pos + |part| <= bpc
    ensures Staging(buf[..pos] + part, pos + |part|, true, offset + |part|, bpc, flat, bytes + part)
  {
    assert (bytes + part)[..offset - pos] == bytes[..offset - pos];
    assert (bytes + part)[offset - pos..] == bytes[offset - pos..] + part;
    assert (buf[..pos] + part)[..pos + |part|] == buf[..pos] + part;
  }

  /** After a full cluster the next one is staged from its start. */
  lemma StagingAligned(buf: seq<byte>, offset: nat, bpc: nat, flat: seq<byte>, bytes: seq<byte>)
    requires bpc >= 1 && OnFlat(flat, bytes) && offset == |bytes| && offset >= bpc
    requires offset - bpc == Times(ClusterOf(offset - bpc, bpc), bpc)
    ensures Staging(buf, 0, false, offset, bpc, flat, bytes)
  {
    var k := ClusterOf(offset - bpc, bpc);
    assert offset == (k + 1) * bpc + 0;
    DivModUnique(k + 1, 0, bpc);
  }

  /** More clusters leave what is staged as it is. */
  lemma StagingExtended(buf: seq<byte>, pos: nat, dirty: bool, offset: nat, bpc: nat, flat: seq<byte>, flat': seq<byte>, bytes: seq<byte>)
    requires bpc >= 1 && Staging(buf, pos, dirty, offset, bpc, flat, bytes) && flat <= flat'
    ensures Staging(buf, pos, dirty, offset, bpc, flat', bytes)
  {
  }

  /** Between writes: `bytes` were taken from the payloads, and the size counts those up to the last
    * write that succeeded. The entry is due once there is a chain, or an old one to replace.
    */
  ghost predicate Streaming(v: Fat32, f: Fd, cl: seq<nat>, bytes: seq<byte>)
    reads v, v.fat, v.store, f
  {
    WriteOk(v, f, cl, bytes) && f.size <= |bytes| && (f.metaDirty <==> cl != [] || f.truncOld >= 2)
  }

  /** Only the clusters before the staged one were stored since it was number `k`. */
  ghost predicate StoredUpTo(f: Fd, data: seq<seq<byte>>, data': seq<seq<byte>>, bpc: nat, cl: seq<nat>, k: nat)
    requires bpc >= 1
    reads f
  {
    k <= StagedIndex(f.offset, f.bufPos, bpc) && OnlyFirst(data, data', cl, StagedIndex(f.offset, f.bufPos, bpc))
  }

  /** After a full cluster the next one is staged. */
  lemma NextIndex(offset: nat, bpc: nat)
    requires 1 <= bpc <= offset && offset - bpc == Times(ClusterOf(offset - bpc, bpc), bpc)
    ensures StagedIndex(offset, 0, bpc) == StagedIndex(offset, bpc, bpc) + 1
  {
    var k := ClusterOf(offset - bpc, bpc);
    assert offset == (k + 1) * bpc + 0;
    DivModUnique(k + 1, 0, bpc);
  }

  /** Stage the next bytes, at most up to the end of the cluster; a full cluster is flushed. If the
    * device refuses it, the full cluster stays staged.
    */
  method StageChunk(v: Fat32, f: Fd, part: seq<byte>, failures: nat, ghost cl: seq<nat>, ghost bytes: seq<byte>) returns (ok: bool)
    requires WriteOk(v, f, cl, bytes) && 0 < f.bufPos + |part| <= v.store.bpc
    requires |bytes| + |part| <= |cl| * v.store.bpc
    modifies v.fat, v.store, f`cur, f`curIdx, f`wpCluster, f`wpIdx, f`bufDirty, f`bufPos, f`bufValid, f`bufStart, f`buf, f`offset
    ensures WriteOk(v, f, cl, bytes + part) && v.Links() == old(v.Links())
    ensures StoredUpTo(f, old(v.store.data), v.store.data, v.store.bpc, cl, old(StagedIndex(f.offset, f.bufPos, v.store.bpc)))
    ensures ok ==> f.bufPos < v.store.bpc
    ensures !ok ==> failures >= FLUSH_RETRIES
  {
    hide LinksOf, Chain, FlatOf, Times, ClusterOf, InRange, Staging, WaypointsOk, OnDisk, OnFlat, OnlyFirst;
    ghost var flat := FlatOf(v.store.data, v.store.bpc, cl);
    NothingStored(v.store.data, cl, StagedIndex(f.offset, f.bufPos, v.store.bpc));
    StagingFacts(f, v.store.bpc, flat, bytes);
    StagingMore(f.buf, f.bufPos, f.bufDirty, f.offset, v.store.bpc, flat, bytes, part);
    f.buf := f.buf[..f.bufPos] + part;
    f.bufPos := f.bufPos + |part|;
    f.bufDirty := true;
    f.offset := f.offset + |part|;
    ok := true;
    if f.bufPos >= v.store.bpc {
      ok := FlushFull(v, f, failures, cl, bytes + part);
    }
  }

  /** Flush a full cluster and move the cursor to the next one. */
  method FlushFull(v: Fat32, f: Fd, failures: nat, ghost cl: seq<nat>, ghost bytes: seq<byte>) returns (ok: bool)
    requires WriteOk(v, f, cl, bytes) && f.bufPos == v.store.bpc && f.bufDirty
    modifies v.fat, v.store, f`cur, f`curIdx, f`wpCluster, f`wpIdx, f`bufDirty, f`bufPos, f`bufValid, f`bufStart
    ensures WriteOk(v, f, cl, bytes) && v.Links() == old(v.Links())
    ensures StoredUpTo(f, old(v.store.data), v.store.data, v.store.bpc, cl, old(StagedIndex(f.offset, f.bufPos, v.store.bpc)))
    ensures (ok <==> failures < FLUSH_RETRIES) && (ok ==> f.bufPos == 0)
  {
    hide LinksOf, Chain, FlatOf, Times, ClusterOf, InRange, Staging, WaypointsOk, OnDisk, OnFlat, OnlyFirst;
    StagingFacts(f, v.store.bpc, FlatOf(v.store.data, v.store.bpc, cl), bytes);
    NothingStored(v.store.data, cl, StagedIndex(f.offset, f.bufPos, v.store.bpc));
    ok := FlushWrite(v, f, failures, cl, bytes);
    if ok {
      NextIndex(f.offset, v.store.bpc);
      StagingAligned(f.buf, f.offset, v.store.bpc, FlatOf(v.store.data, v.store.bpc, cl), bytes);
      var _ := SeekCursor(v, f, f.curIdx + 1, cl);
    }
  }

  /** Reserve clusters for a write and put the cursor on the chain. */
  method Reserve(v: Fat32, f: Fd, n: nat, ghost cl: seq<nat>, ghost bytes: seq<byte>) returns (ok: bool, ghost extra: seq<nat>)
    requires Streaming(v, f, cl, bytes) && |bytes| + n + v.store.bpc <= 0x1_0000_0000
    modifies v`hint, v.fat, v.store, f`first, f`cur, f`curIdx, f`chainLen, f`chainLast, f`metaDirty, f`wpCluster, f`wpIdx
    ensures Streaming(v, f, cl + extra, bytes) && v.store.data == old(v.store.data)
    ensures Fresh(old(v.Links()), v.total + 2, extra) && LastOf(0, cl) < |old(v.Links())|
    ensures v.Links() == LinkAll(old(v.Links()), LastOf(0, cl), extra)
    ensures ok ==> |bytes| + n <= |cl + extra| * v.store.bpc
    ensures ok <==> CeilDiv(|bytes| + n, v.store.bpc) <= |cl + extra|
    ensures !ok ==> NoneFree(v.Links(), v.total + 2)
  {
    hide LinksOf, Chain, FlatOf, Times, ClusterOf, InRange, Staging, WaypointsOk, OnDisk, LinkAll, Fresh, NoneFree, CeilDiv, Needed, CacheOk, SlotsOk, StampsOk;
    StagingFacts(f, v.store.bpc, FlatOf(v.store.data, v.store.bpc, cl), bytes);
    NeededFits(f.offset + n, v.store.bpc);
    ok, extra := EnsureClusters(v, f, f.offset + n, cl);
    LongerChain(v, f, cl, extra, bytes);
    Covered(|bytes|, n, v.store.bpc, |cl|, |cl + extra|);
    if ok && f.cur < 2 && f.first >= 2 {
      var _ := SeekCursor(v, f, ClusterOf(f.offset, v.store.bpc), cl + extra);
    }
  }

  /** The staged bytes on a longer chain. */
  lemma LongerChain(v: Fat32, f: Fd, cl: seq<nat>, extra: seq<nat>, bytes: seq<byte>)
    requires FdOk(v, f, cl + extra) && OnDisk(v.store.data, v.store.bpc, cl) && |bytes| <= |cl| * v.store.bpc
    requires Staging(f.buf, f.bufPos, f.bufDirty, f.offset, v.store.bpc, FlatOf(v.store.data, v.store.bpc, cl), bytes)
    ensures WriteOk(v, f, cl + extra, bytes)
  {
    hide LinksOf, Chain, FlatOf, Times, ClusterOf, InRange, Staging, WaypointsOk, OnDisk;
    ClustersOnDisk(v, f.first, cl + extra);
    FlatExtended(v.store.data, v.store.bpc, cl, extra);
    StagingExtended(f.buf, f.bufPos, f.bufDirty, f.offset, v.store.bpc, FlatOf(v.store.data, v.store.bpc, cl),
                    FlatOf(v.store.data, v.store.bpc, cl + extra), bytes);
    MulMonotone(|cl|, |cl + extra|, v.store.bpc);
  }

  lemma Covered(b: nat, n: nat, bpc: nat, prior: nat, now: nat)
    requires bpc >= 1 && b <= prior * bpc && prior <= now
    ensures b <= now * bpc
    ensures CeilDiv(b + n, bpc) <= now ==> b + n <= now * bpc
  {
    MulMonotone(prior, now, bpc);
    CeilDivBounds(b + n, bpc);
    if CeilDiv(b + n, bpc) <= now {
      MulMonotone(CeilDiv(b + n, bpc), now, bpc);
    }
  }

  /** What a write reports: all of the payload (up to a message) taken, no space, or a device that
    * refused a full cluster after `n` bytes were taken.
    */
  datatype WriteResult = Written(n: nat) | NoSpace | Broken(n: nat) | NotIssued

  /** Bytes of the payload the handle took. */
  function Took(out: WriteResult): nat {
    match out
    case Written(n) => n
    case Broken(n) => n
    case _ => 0
  }

  /** What a write of `len` bytes can report. */
  predicate CanReport(len: nat, out: WriteResult) {
    match out
    case Written(n) => n == Min(len, IPC_BUF)
    case Broken(n) => n <= Min(len, IPC_BUF)
    case _ => true
  }

  /** The device refuses some cluster for good. */
  predicate Refusing(failures: seq<nat>) {
    exists k :: 0 <= k < |failures| && failures[k] >= FLUSH_RETRIES
  }

  /** A handle with nothing staged may hold bytes that were read: they are dropped. */
  method DropReadBuffer(v: Fat32, f: Fd, ghost cl: seq<nat>, ghost bytes: seq<byte>)
    requires Streaming(v, f, cl, bytes)
    modifies f`bufPos, f`bufValid, f`bufStart
    ensures Streaming(v, f, cl, bytes) && f.bufPos == old(f.bufPos)
  {
    hide LinksOf, Chain, FlatOf, InRange, Staging, WaypointsOk, OnDisk;
    StagingFacts(f, v.store.bpc, FlatOf(v.store.data, v.store.bpc, cl), bytes);
    if !f.bufDirty {
      f.bufValid, f.bufPos, f.bufStart := 0, 0, 0;
    }
  }

  /** Append a payload, at most one message buffer of it, to a file written from its start. The
    * device refuses the k-th cluster flushed `failures[k]` times. If it refuses one for good the write
    * reports an error, with the cluster still staged and the size as it was.
    */
  method WriteFd(v: Fat32, f: Fd, payload: seq<byte>, failures: seq<nat>, ghost cl: seq<nat>, ghost bytes: seq<byte>)
    returns (out: WriteResult, ghost extra: seq<nat>)
    requires Streaming(v, f, cl, bytes) && |bytes| + IPC_BUF + v.store.bpc <= 0x1_0000_0000
    modifies v`hint, v.fat, v.store, f`first, f`cur, f`curIdx, f`chainLen, f`chainLast, f`metaDirty, f`wpCluster, f`wpIdx
    modifies f`bufDirty, f`bufPos, f`bufValid, f`bufStart, f`buf, f`offset, f`size
    ensures !out.NotIssued? && CanReport(|payload|, out) && Took(out) <= |payload|
    ensures Streaming(v, f, cl + extra, bytes + payload[..Took(out)])
    ensures f.size == if out.Written? && out.n > 0 then |bytes| + out.n else old(f.size)
    ensures Fresh(old(v.Links()), v.total + 2, extra) && LastOf(0, cl) < |old(v.Links())|
    ensures v.Links() == LinkAll(old(v.Links()), LastOf(0, cl), extra)
    ensures StoredUpTo(f, old(v.store.data), v.store.data, v.store.bpc, cl + extra, old(StagedIndex(f.offset, f.bufPos, v.store.bpc)))
    ensures out.NoSpace? ==> NoneFree(v.Links(), v.total + 2)
    ensures out.NoSpace? <==> payload != [] && CeilDiv(|bytes| + Min(|payload|, IPC_BUF), v.store.bpc) > |cl + extra|
    ensures out.Broken? ==> Refusing(failures)
  {
    hide LinksOf, Chain, FlatOf, Times, ClusterOf, InRange, Staging, WaypointsOk, OnDisk, LinkAll, Fresh, NoneFree, CeilDiv, OnlyFirst;
    extra := [];
    NothingStored(v.store.data, cl, StagedIndex(f.offset, f.bufPos, v.store.bpc));
    assert cl + [] == cl;
    assert bytes + payload[..0] == bytes;
    if payload == [] {
      NothingNew(v.Links(), v.total + 2, f.first, cl);
      return Written(0), [];
    }
    var src := payload[..Min(|payload|, IPC_BUF)];
    DropReadBuffer(v, f, cl, bytes);
    var ok;
    ok, extra := Reserve(v, f, |src|, cl, bytes);
    if !ok {
      NothingStored(v.store.data, cl + extra, StagedIndex(f.offset, f.bufPos, v.store.bpc));
      return NoSpace, extra;
    }
    out := WriteBody(v, f, src, failures, cl + extra, bytes);
    assert src[..Took(out)] == payload[..Took(out)];
  }

  /** The copying loop of a write. */
  method WriteBody(v: Fat32, f: Fd, src: seq<byte>, failures: seq<nat>, ghost cl: seq<nat>, ghost bytes: seq<byte>) returns (out: WriteResult)
    requires Streaming(v, f, cl, bytes) && |bytes| + |src| <= |cl| * v.store.bpc && 0 < |src| <= IPC_BUF
    modifies v.fat, v.store, f`cur, f`curIdx, f`metaDirty, f`wpCluster, f`wpIdx
    modifies f`bufDirty, f`bufPos, f`bufValid, f`bufStart, f`buf, f`offset, f`size
    ensures out == Written(|src|) || (out.Broken? && out.n <= |src| && Refusing(failures))
    ensures Streaming(v, f, cl, bytes + src[..Took(out)]) && v.Links() == old(v.Links())
    ensures f.size == if out.Written? then |bytes| + |src| else old(f.size)
    ensures StoredUpTo(f, old(v.store.data), v.store.data, v.store.bpc, cl, old(StagedIndex(f.offset, f.bufPos, v.store.bpc)))
  {
    hide LinksOf, Chain, FlatOf, Times, ClusterOf, InRange, Staging, WaypointsOk, OnDisk, OnlyFirst, CacheOk, SlotsOk, StampsOk, StagedIndex;
    NothingStored(v.store.data, cl, StagedIndex(f.offset, f.bufPos, v.store.bpc));
    var written, flushes := 0, 0;
    assert bytes + src[..0] == bytes;
    while written < |src|
      invariant written <= |src| && WriteOk(v, f, cl, bytes + src[..written])
      invariant v.Links() == old(v.Links())
      invariant StoredUpTo(f, old(v.store.data), v.store.data, v.store.bpc, cl, old(StagedIndex(f.offset, f.bufPos, v.store.bpc)))
      invariant f.size == old(f.size) && f.metaDirty == old(f.metaDirty)
      decreases |src| - written, if f.bufPos >= v.store.bpc then 1 else 0
    {
      StagingFacts(f, v.store.bpc, FlatOf(v.store.data, v.store.bpc, cl), bytes + src[..written]);
      var chunk := Min(v.store.bpc - f.bufPos, |src| - written);
      assert bytes + src[..written] + src[written..written + chunk] == bytes + src[..written + chunk];
      var failed := if flushes < |failures| then failures[flushes] else 0;
      ghost var data1, k1 := v.store.data, StagedIndex(f.offset, f.bufPos, v.store.bpc);
      var ok := StageChunk(v, f, src[written..written + chunk], failed, cl, bytes + src[..written]);
      FirstThen(old(v.store.data), data1, v.store.data, cl, k1, StagedIndex(f.offset, f.bufPos, v.store.bpc));
      if !ok {
        assert failures[flushes] >= FLUSH_RETRIES;
        return Broken(written + chunk);
      }
      if f.bufPos == 0 {
        flushes := flushes + 1;
      }
      written := written + chunk;
    }
    assert bytes + src[..written] == bytes + src && src[..|src|] == src;
    StagingFacts(f, v.store.bpc, FlatOf(v.store.data, v.store.bpc, cl), bytes + src);
    HasChain(cl, |bytes| + |src|, v.store.bpc);
    if f.offset > f.size {
      f.size := f.offset;
      f.metaDirty := true;
    }
    out := Written(|src|);
  }

  lemma HasChain(cl: seq<nat>, n: nat, bpc: nat)
    requires 0 < n <= |cl| * bpc
    ensures cl != []
  {
  }
}
