/** Writing FAT32 files from any position: where the bytes of a handle that was opened for appending,
  * or moved by a seek, land on the disk.
  */
module FatAppend {
  import opened Arith
  import opened Bytes
  import opened FatTable
  import opened FatClusters
  import opened FatChains
  import opened FatFiles
  import opened FatWrite
  import FatClose

  // ---- where staged bytes land ----

  /** The cluster of the chain that bytes staged from offset `at` on go to, from its first byte on. */
  function Slot(at: nat, bpc: nat): nat
    requires bpc >= 1
  {
    ClusterOf(at % 0x1_0000_0000, bpc)
  }

  /** Where the last block starts of `n` bytes staged a cluster at a time. */
  function LastBlock(n: nat, bpc: nat): (r: nat)
    requires n >= 1 && bpc >= 1
    ensures r < n <= r + bpc
  {
    BlockBounds(n - 1, bpc);
    Times(ClusterOf(n - 1, bpc), bpc)
  }

  lemma BlockBounds(n: nat, bpc: nat)
    requires bpc >= 1
    ensures Times(ClusterOf(n, bpc), bpc) <= n < Times(ClusterOf(n, bpc), bpc) + bpc
  {
    assert n == n / bpc * bpc + n % bpc;
  }

  /** A whole number of clusters. */
  predicate Whole(n: nat, bpc: nat)
    requires bpc >= 1
  {
    n == Times(ClusterOf(n, bpc), bpc)
  }

  /** After whole clusters, what comes next up to a cluster more is the last block. */
  lemma BlockAfter(m: nat, p: nat, bpc: nat)
    requires bpc >= 1 && Whole(m, bpc) && 0 < p <= bpc
    ensures LastBlock(m + p, bpc) == m
  {
    hide ClusterOf;
    BlockOf(ClusterOf(m, bpc), m, p - 1, bpc);
  }

  lemma BlockOf(k: nat, m: nat, r: nat, bpc: nat)
    requires m == Times(k, bpc) && r < bpc
    ensures ClusterOf(m + r, bpc) == k
  {
    DivModUnique(k, r, bpc);
  }

  /** A cluster more is whole clusters again. */
  lemma WholeMore(m: nat, bpc: nat)
    requires bpc >= 1 && Whole(m, bpc)
    ensures Whole(m + bpc, bpc)
  {
    hide ClusterOf;
    var k := ClusterOf(m, bpc);
    assert Times(k + 1, bpc) == m + bpc;
    BlockOf(k + 1, m + bpc, 0, bpc);
  }

  /** The chain has a cluster for each block of the `n` bytes staged from `start` on. */
  ghost predicate Reached(start: nat, n: nat, bpc: nat, clusters: nat)
    requires bpc >= 1
    decreases n
  {
    n == 0 || (Slot(start + LastBlock(n, bpc), bpc) < clusters && Reached(start, LastBlock(n, bpc), bpc, clusters))
  }

  lemma BlockFits(k: nat, p: nat, bpc: nat, clusters: nat, size: nat)
    requires k < clusters && p <= bpc && size == Times(clusters, bpc)
    ensures Times(k, bpc) + p <= size
  {
    MulStep(k, clusters, bpc);
  }

  /** A file of whole clusters after `bytes` were staged from `start` on and stored: each block lands at
    * the first byte of its cluster.
    */
  ghost function Landed(flat: seq<byte>, start: nat, bytes: seq<byte>, bpc: nat, clusters: nat): (r: seq<byte>)
    requires bpc >= 1 && |flat| == Times(clusters, bpc) && Reached(start, |bytes|, bpc, clusters)
    ensures |r| == |flat|
    decreases |bytes|
  {
    if bytes == [] then flat
    else
      var b := LastBlock(|bytes|, bpc);
      BlockFits(Slot(start + b, bpc), |bytes| - b, bpc, clusters, |flat|);
      Put(Landed(flat, start, bytes[..b], bpc, clusters), Times(Slot(start + b, bpc), bpc), bytes[b..])
  }

  /** One more block. */
  lemma LandedMore(flat: seq<byte>, start: nat, bytes: seq<byte>, m: nat, bpc: nat, clusters: nat)
    requires bpc >= 1 && |flat| == Times(clusters, bpc) && m < |bytes| <= m + bpc && Whole(m, bpc)
    requires Reached(start, m, bpc, clusters) && Slot(start + m, bpc) < clusters
    ensures Reached(start, |bytes|, bpc, clusters) && Times(Slot(start + m, bpc), bpc) + (|bytes| - m) <= |flat|
    ensures Landed(flat, start, bytes, bpc, clusters) ==
            Put(Landed(flat, start, bytes[..m], bpc, clusters), Times(Slot(start + m, bpc), bpc), bytes[m..])
  {
    BlockAfter(m, |bytes| - m, bpc);
    BlockFits(Slot(start + m, bpc), |bytes| - m, bpc, clusters, |flat|);
  }

  /** The last block over those before it. */
  lemma LandedLast(flat: seq<byte>, start: nat, bytes: seq<byte>, bpc: nat, clusters: nat)
    requires bpc >= 1 && |flat| == Times(clusters, bpc) && Reached(start, |bytes|, bpc, clusters) && bytes != []
    ensures var b := LastBlock(|bytes|, bpc);
            && Reached(start, b, bpc, clusters) && Times(Slot(start + b, bpc), bpc) + (|bytes| - b) <= |flat|
            && Landed(flat, start, bytes, bpc, clusters) ==
               Put(Landed(flat, start, bytes[..b], bpc, clusters), Times(Slot(start + b, bpc), bpc), bytes[b..])
  {
    var b := LastBlock(|bytes|, bpc);
    BlockFits(Slot(start + b, bpc), |bytes| - b, bpc, clusters, |flat|);
  }

  lemma PutLonger(b: seq<byte>, tail: seq<byte>, p: nat, data: seq<byte>)
    requires p + |data| <= |b|
    ensures Put(b + tail, p, data) == Put(b, p, data) + tail
  {
  }

  lemma {:induction false} ReachedLonger(start: nat, n: nat, bpc: nat, clusters: nat, more: nat)
    requires bpc >= 1 && Reached(start, n, bpc, clusters) && clusters <= more
    ensures Reached(start, n, bpc, more)
    decreases n
  {
    if n > 0 {
      ReachedLonger(start, LastBlock(n, bpc), bpc, clusters, more);
    }
  }

  /** A longer chain keeps what landed before. */
  lemma {:induction false} LandedLonger(flat: seq<byte>, tail: seq<byte>, start: nat, bytes: seq<byte>, bpc: nat, clusters: nat, more: nat)
    requires bpc >= 1 && |flat| == Times(clusters, bpc) && |flat + tail| == Times(more, bpc) && clusters <= more
    requires Reached(start, |bytes|, bpc, clusters)
    ensures Reached(start, |bytes|, bpc, more)
    ensures Landed(flat + tail, start, bytes, bpc, more) == Landed(flat, start, bytes, bpc, clusters) + tail
    decreases |bytes|
  {
    hide Reached, Put, Times, Slot, LastBlock;
    ReachedLonger(start, |bytes|, bpc, clusters, more);
    if bytes != [] {
      var b := LastBlock(|bytes|, bpc);
      LandedLast(flat, start, bytes, bpc, clusters);
      LandedLast(flat + tail, start, bytes, bpc, more);
      LandedLonger(flat, tail, start, bytes[..b], bpc, clusters, more);
      PutLonger(Landed(flat, start, bytes[..b], bpc, clusters), tail, Times(Slot(start + b, bpc), bpc), bytes[b..]);
    }
  }

  // ---- where they should land ----

  /** Below 4 GiB every block lands where the one before it ends, counted from the start of the cluster
    * the first one begins in.
    */
  lemma SlotWithin(start: nat, m: nat, bpc: nat)
    requires bpc >= 1 && Whole(m, bpc) && start + m < 0x1_0000_0000
    ensures Times(Slot(start + m, bpc), bpc) == Times(ClusterOf(start, bpc), bpc) + m
  {
    var k, j := ClusterOf(m, bpc), ClusterOf(start, bpc);
    BlockBounds(start, bpc);
    assert start + m == (j + k) * bpc + start % bpc;
    DivModUnique(j + k, start % bpc, bpc);
  }

  lemma {:induction false} ReachedWithin(start: nat, n: nat, bpc: nat, clusters: nat)
    requires bpc >= 1 && start + n <= 0x1_0000_0000 && start + n <= Times(clusters, bpc)
    ensures Reached(start, n, bpc, clusters)
    decreases n
  {
    if n > 0 {
      var b := LastBlock(n, bpc);
      DivBelow(start + b, clusters, bpc);
      ReachedWithin(start, b, bpc, clusters);
    }
  }

  /** Where the bytes of a handle at `start` really go: the start of its cluster. */
  function Landing(start: nat, bpc: nat): (r: nat)
    requires bpc >= 1
    ensures r <= start < r + bpc
  {
    BlockBounds(start, bpc);
    Times(ClusterOf(start, bpc), bpc)
  }

  lemma BlockWhole(n: nat, bpc: nat)
    requires bpc >= 1 && n >= 1
    ensures Whole(LastBlock(n, bpc), bpc)
  {
    DivModUnique(ClusterOf(n - 1, bpc), 0, bpc);
  }

  lemma PutNothing(s: seq<byte>, p: nat)
    requires p <= |s|
    ensures Put(s, p, []) == s
  {
  }

  lemma PutParts(s: seq<byte>, p: nat, bytes: seq<byte>, b: nat)
    requires b <= |bytes| && p + |bytes| <= |s|
    ensures Put(Put(s, p, bytes[..b]), p + b, bytes[b..]) == Put(s, p, bytes)
  {
    PutPut(s, p, bytes[..b], bytes[b..]);
    assert bytes[..b] + bytes[b..] == bytes;
  }

  /** Below 4 GiB the bytes land in one piece at the start of the cluster that holds the cursor. */
  lemma {:induction false} LandedTogether(flat: seq<byte>, start: nat, bytes: seq<byte>, bpc: nat, clusters: nat)
    requires bpc >= 1 && |flat| == Times(clusters, bpc) && start + |bytes| <= 0x1_0000_0000
    requires Reached(start, |bytes|, bpc, clusters) && Landing(start, bpc) <= |flat|
    ensures Landing(start, bpc) + |bytes| <= |flat|
    ensures Landed(flat, start, bytes, bpc, clusters) == Put(flat, Landing(start, bpc), bytes)
    decreases |bytes|
  {
    hide Reached, Times, Slot, LastBlock, Whole;
    hide Put;
    var f := Landing(start, bpc);
    if bytes == [] {
      PutNothing(flat, f);
    } else {
      var b := LastBlock(|bytes|, bpc);
      BlockWhole(|bytes|, bpc);
      LandedLast(flat, start, bytes, bpc, clusters);
      SlotWithin(start, b, bpc);
      LandedTogether(flat, start, bytes[..b], bpc, clusters);
      PutParts(flat, f, bytes, b);
    }
  }

  lemma LandingInside(start: nat, n: nat, bpc: nat, clusters: nat)
    requires bpc >= 1 && n >= 1 && start + n <= 0x1_0000_0000 && Reached(start, n, bpc, clusters)
    ensures Landing(start, bpc) <= Times(clusters, bpc)
  {
    hide Times;
    var b := LastBlock(n, bpc);
    BlockWhole(n, bpc);
    SlotWithin(start, b, bpc);
    BlockFits(Slot(start + b, bpc), 0, bpc, clusters, Times(clusters, bpc));
  }

  /** The bytes are where the cursor stood, and nothing else changed. */
  ghost predicate InPlace(flat: seq<byte>, start: nat, bytes: seq<byte>, bpc: nat, clusters: nat)
    requires bpc >= 1 && |flat| == Times(clusters, bpc) && start + |bytes| <= Min(|flat|, 0x1_0000_0000)
  {
    ReachedWithin(start, |bytes|, bpc, clusters);
    Landed(flat, start, bytes, bpc, clusters) == Put(flat, start, bytes)
  }

  /** Whatever the file holds and whatever is written. */
  ghost predicate AlwaysInPlace(start: nat, n: nat, bpc: nat, clusters: nat)
    requires bpc >= 1 && start + n <= Min(Times(clusters, bpc), 0x1_0000_0000)
  {
    forall flat: seq<byte>, bytes: seq<byte> :: |flat| == Times(clusters, bpc) && |bytes| == n ==> InPlace(flat, start, bytes, bpc, clusters)
  }

  function Fill(n: nat, b: byte): (r: seq<byte>)
    ensures |r| == n && forall i :: 0 <= i < n ==> r[i] == b
  {
    seq(n, _ => b)
  }

  /** Writing, and with it appending, puts bytes where the cursor stands exactly if the cursor is at the
    * start of a cluster.
    */
  lemma InPlaceExactly(start: nat, n: nat, bpc: nat, clusters: nat)
    requires bpc >= 1 && n >= 1 && start + n <= Min(Times(clusters, bpc), 0x1_0000_0000)
    ensures AlwaysInPlace(start, n, bpc, clusters) <==> start % bpc == 0
  {
    var f := Landing(start, bpc);
    assert start % bpc == 0 <==> f == start by { assert start == start / bpc * bpc + start % bpc; }
    if f == start {
      forall flat: seq<byte>, bytes: seq<byte> | |flat| == Times(clusters, bpc) && |bytes| == n
        ensures InPlace(flat, start, bytes, bpc, clusters)
      {
        ReachedWithin(start, n, bpc, clusters);
        LandedTogether(flat, start, bytes, bpc, clusters);
      }
    } else {
      var flat, bytes := Fill(Times(clusters, bpc), 0), Fill(n, 1);
      ReachedWithin(start, n, bpc, clusters);
      LandedTogether(flat, start, bytes, bpc, clusters);
      assert Put(flat, f, bytes)[f] == 1 && Put(flat, start, bytes)[f] == 0;
      assert !InPlace(flat, start, bytes, bpc, clusters);
    }
  }

  /** A byte appended to a file of one byte replaces it. */
  lemma AppendReplaces(flat: seq<byte>, b: byte, bpc: nat)
    requires bpc >= 2 && |flat| == Times(1, bpc)
    ensures Reached(1, 1, bpc, 1) && Landed(flat, 1, [b], bpc, 1) == Put(flat, 0, [b])
  {
    DivModUnique(0, 1, bpc);
    DivModUnique(0, 0, bpc);
    ReachedWithin(1, 1, bpc, 1);
    LandedTogether(flat, 1, [b], bpc, 1);
  }

  /** Past 4 GiB the bytes land on those at the start of the file. */
  lemma WrapsToFront(flat: seq<byte>, start: nat, bytes: seq<byte>, m: nat, bpc: nat, clusters: nat)
    requires bpc >= 1 && |flat| == Times(clusters, bpc) && start + m == 0x1_0000_0000 && m < |bytes| <= m + bpc && Whole(m, bpc)
    requires 0x1_0000_0000 <= |flat|
    ensures Reached(start, |bytes|, bpc, clusters) && |bytes[m..]| <= |flat|
    ensures Landed(flat, start, bytes, bpc, clusters) == Put(Put(flat, Landing(start, bpc), bytes[..m]), 0, bytes[m..])
  {
    hide Put, Times, Whole, Reached;
    ReachedWithin(start, m, bpc, clusters);
    LandedTogether(flat, start, bytes[..m], bpc, clusters);
    FrontSlot(flat, bpc, clusters);
    LandedMore(flat, start, bytes, m, bpc, clusters);
  }

  lemma FrontSlot(flat: seq<byte>, bpc: nat, clusters: nat)
    requires bpc >= 1 && |flat| == Times(clusters, bpc) >= 1
    ensures clusters >= 1 && Slot(0x1_0000_0000, bpc) == 0 && Times(0, bpc) == 0
  {
    DivModUnique(0, 0, bpc);
  }

  // ---- the handle ----

  /** What is staged: the bytes of `bytes` after whole clusters of them. */
  ghost predicate Held(buf: seq<byte>, pos: nat, dirty: bool, offset: nat, bpc: nat, start: nat, bytes: seq<byte>)
    requires bpc >= 1
  {
    && offset == start + |bytes| && pos <= bpc && pos <= |buf| && pos <= |bytes| && (dirty <==> pos > 0)
    && Whole(|bytes| - pos, bpc) && buf[..pos] == bytes[|bytes| - pos..]
  }

  /** The chain holds what landed of `bytes`, staged from `start` on over the bytes `flat`. */
  ghost predicate Shows(data: seq<seq<byte>>, bpc: nat, cl: seq<nat>, flat: seq<byte>, start: nat, bytes: seq<byte>)
    requires bpc >= 1
  {
    && OnDisk(data, bpc, cl) && |flat| == Times(|cl|, bpc) && Reached(start, |bytes|, bpc, |cl|)
    && FlatOf(data, bpc, cl) == Landed(flat, start, bytes, bpc, |cl|)
  }

  /** A handle whose cursor stood at `start` with nothing staged when the file's clusters held `flat`, and
    * which took `bytes` since.
    */
  ghost predicate Writing(v: Fat32, f: Fd, cl: seq<nat>, flat: seq<byte>, start: nat, bytes: seq<byte>)
    reads v, v.fat, v.store, f
  {
    && FdOk(v, f, cl) && Held(f.buf, f.bufPos, f.bufDirty, f.offset, v.store.bpc, start, bytes)
    && Shows(v.store.data, v.store.bpc, cl, flat, start, bytes[..|bytes| - f.bufPos])
  }

  lemma HeldFacts(f: Fd, bpc: nat, start: nat, bytes: seq<byte>)
    requires bpc >= 1 && Held(f.buf, f.bufPos, f.bufDirty, f.offset, bpc, start, bytes)
    ensures f.offset == start + |bytes| && f.bufPos <= bpc && f.bufPos <= |f.buf| && f.bufPos <= |bytes| && (f.bufDirty <==> f.bufPos > 0)
    ensures Whole(|bytes| - f.bufPos, bpc) && f.buf[..f.bufPos] == bytes[|bytes| - f.bufPos..]
  {
  }

  lemma HeldMore(buf: seq<byte>, pos: nat, dirty: bool, offset: nat, bpc: nat, start: nat, bytes: seq<byte>, part: seq<byte>)
    requires bpc >= 1 && Held(buf, pos, dirty, offset, bpc, start, bytes) && 0 < pos + |part| <= bpc
    ensures Held(buf[..pos] + part, pos + |part|, true, offset + |part|, bpc, start, bytes + part)
    ensures (bytes + part)[..|bytes + part| - (pos + |part|)] == bytes[..|bytes| - pos]
  {
    assert (bytes + part)[|bytes| - pos..] == bytes[|bytes| - pos..] + part;
    assert (buf[..pos] + part)[..pos + |part|] == buf[..pos] + part;
  }

  /** The staged block written into its cluster. */
  lemma BlockStored(data: seq<seq<byte>>, bpc: nat, cl: seq<nat>, flat: seq<byte>, start: nat, bytes: seq<byte>, m: nat, out: seq<byte>)
    requires bpc >= 1 && FatChains.Distinct(cl) && m < |bytes| <= m + bpc && Whole(m, bpc)
    requires Shows(data, bpc, cl, flat, start, bytes[..m]) && Slot(start + m, bpc) < |cl| && |out| == bpc
    requires var c := cl[Slot(start + m, bpc)]; c < |data| && |data[c]| == bpc && out == bytes[m..] + data[c][|bytes| - m..]
    ensures Shows(data[cl[Slot(start + m, bpc)] := out], bpc, cl, flat, start, bytes)
  {
    hide FlatOf, Landed;
    var k := Slot(start + m, bpc);
    FlatCluster(data, bpc, cl, k);
    FlatWritten(data, bpc, cl, k, out);
    LandedMore(flat, start, bytes, m, bpc, |cl|);
    var old1 := FlatOf(data, bpc, cl);
    PutBlock(old1, k * bpc, bpc, bytes[m..], out);
  }

  lemma PutBlock(b: seq<byte>, p: nat, bpc: nat, part: seq<byte>, out: seq<byte>)
    requires p + bpc <= |b| && |part| <= bpc && out == part + b[p..p + bpc][|part|..]
    ensures b[..p] + out + b[p + bpc..] == Put(b, p, part)
  {
  }

  /** Write the staged bytes to their cluster: it fails if the device refuses five times or the chain has
    * no such cluster.
    */
  method Flush(v: Fat32, f: Fd, failures: nat, ghost cl: seq<nat>, ghost flat: seq<byte>, ghost start: nat, ghost bytes: seq<byte>) returns (ok: bool)
    requires Writing(v, f, cl, flat, start, bytes) && f.bufDirty
    modifies v.fat, v.store, f`cur, f`curIdx, f`wpCluster, f`wpIdx, f`bufDirty, f`bufPos, f`bufValid, f`bufStart
    ensures v.Valid() && v.store.bpc >= 1 && v.Links() == old(v.Links())
    ensures ok <==> failures < FLUSH_RETRIES && Slot(f.offset - old(f.bufPos), v.store.bpc) < |cl|
    ensures FdOk(v, f, cl)
    ensures if ok then f.bufPos == 0 && !f.bufDirty && Shows(v.store.data, v.store.bpc, cl, flat, start, bytes)
            else Writing(v, f, cl, flat, start, bytes) && f.bufPos == old(f.bufPos)
  {
    hide LinksOf, Chain, FlatOf, Shows, InRange, WaypointsOk, OnDisk, Held, CacheOk, SlotsOk, StampsOk, Slot;
    HeldFacts(f, v.store.bpc, start, bytes);
    ok := SeekCursor(v, f, Slot(f.offset - f.bufPos, v.store.bpc), cl);
    if !ok {
      return;
    }
    ok := StoreBlock(v, f, failures, cl, flat, start, bytes);
    if ok {
      f.bufDirty, f.bufPos, f.bufValid, f.bufStart := false, 0, 0, 0;
    }
  }

  /** Store the staged bytes in the cluster the cursor is on. */
  method StoreBlock(v: Fat32, f: Fd, failures: nat, ghost cl: seq<nat>, ghost flat: seq<byte>, ghost start: nat, ghost bytes: seq<byte>) returns (ok: bool)
    requires Writing(v, f, cl, flat, start, bytes) && f.bufDirty
    requires f.bufPos <= f.offset && Slot(f.offset - f.bufPos, v.store.bpc) < |cl| && f.cur == cl[Slot(f.offset - f.bufPos, v.store.bpc)]
    modifies v.store
    ensures v.Valid() && v.Links() == old(v.Links()) && (ok <==> failures < FLUSH_RETRIES)
    ensures if ok then Shows(v.store.data, v.store.bpc, cl, flat, start, bytes) else v.store.data == old(v.store.data)
  {
    hide LinksOf, Chain, FlatOf, Shows, InRange, WaypointsOk, OnDisk, Held, Slot, CursorOk;
    HeldFacts(f, v.store.bpc, start, bytes);
    ClustersInside(v, f, cl);
    var out := StagedImage(v, f);
    ghost var data := v.store.data;
    ok := StoreCluster(v, f.cur, out, failures);
    if ok {
      assert out == out[..f.bufPos] + out[f.bufPos..];
      BlockStored(data, v.store.bpc, cl, flat, start, bytes, |bytes| - f.bufPos, out);
    }
  }

  /** Stage the next bytes, at most up to the end of the buffer's cluster; a full one is flushed. */
  method Stage(v: Fat32, f: Fd, part: seq<byte>, failures: nat, ghost cl: seq<nat>, ghost flat: seq<byte>, ghost start: nat, ghost bytes: seq<byte>)
    returns (ok: bool)
    requires Writing(v, f, cl, flat, start, bytes) && 0 < f.bufPos + |part| <= v.store.bpc
    modifies v.fat, v.store, f`cur, f`curIdx, f`wpCluster, f`wpIdx, f`bufDirty, f`bufPos, f`bufValid, f`bufStart, f`buf, f`offset
    ensures Writing(v, f, cl, flat, start, bytes + part) && v.Valid() && v.Links() == old(v.Links())
    ensures f.offset == old(f.offset) + |part|
    ensures ok ==> f.bufPos < v.store.bpc && f.bufPos == if old(f.bufPos) + |part| < v.store.bpc then old(f.bufPos) + |part| else 0
    ensures !ok ==> f.bufPos == v.store.bpc == old(f.bufPos) + |part|
    ensures !ok ==> failures >= FLUSH_RETRIES || Slot(f.offset - f.bufPos, v.store.bpc) >= |cl|
  {
    hide LinksOf, Writing, CacheOk, SlotsOk, StampsOk, Slot;
    Take(v, f, part, cl, flat, start, bytes);
    WritingFacts(v, f, cl, flat, start, bytes + part);
    ok := true;
    if f.bufPos >= v.store.bpc {
      ok := FlushFull(v, f, failures, cl, flat, start, bytes + part);
    }
  }

  /** Stage bytes. */
  method Take(v: Fat32, f: Fd, part: seq<byte>, ghost cl: seq<nat>, ghost flat: seq<byte>, ghost start: nat, ghost bytes: seq<byte>)
    requires Writing(v, f, cl, flat, start, bytes) && 0 < f.bufPos + |part| <= v.store.bpc
    modifies f`bufDirty, f`bufPos, f`buf, f`offset
    ensures Writing(v, f, cl, flat, start, bytes + part) && f.bufDirty
    ensures f.offset == old(f.offset) + |part| && f.bufPos == old(f.bufPos) + |part|
  {
    hide LinksOf, Chain, FlatOf, Shows, InRange, WaypointsOk, OnDisk, Held, CacheOk, SlotsOk, StampsOk;
    HeldFacts(f, v.store.bpc, start, bytes);
    HeldMore(f.buf, f.bufPos, f.bufDirty, f.offset, v.store.bpc, start, bytes, part);
    f.buf := f.buf[..f.bufPos] + part;
    f.bufPos := f.bufPos + |part|;
    f.bufDirty := true;
    f.offset := f.offset + |part|;
  }

  /** Flush a full buffer and move the cursor to the next cluster. */
  method FlushFull(v: Fat32, f: Fd, failures: nat, ghost cl: seq<nat>, ghost flat: seq<byte>, ghost start: nat, ghost bytes: seq<byte>) returns (ok: bool)
    requires Writing(v, f, cl, flat, start, bytes) && f.bufPos == v.store.bpc && f.bufDirty
    modifies v.fat, v.store, f`cur, f`curIdx, f`wpCluster, f`wpIdx, f`bufDirty, f`bufPos, f`bufValid, f`bufStart
    ensures Writing(v, f, cl, flat, start, bytes) && v.Valid() && v.Links() == old(v.Links())
    ensures f.bufPos == if ok then 0 else v.store.bpc
    ensures !ok ==> failures >= FLUSH_RETRIES || Slot(f.offset - f.bufPos, v.store.bpc) >= |cl|
  {
    hide LinksOf, Chain, FlatOf, Shows, InRange, WaypointsOk, OnDisk, Held, CacheOk, SlotsOk, StampsOk, Slot;
    HeldFacts(f, v.store.bpc, start, bytes);
    ok := Flush(v, f, failures, cl, flat, start, bytes);
    if ok {
      HeldNone(f.buf, f.offset, v.store.bpc, start, bytes);
      var _ := SeekCursor(v, f, f.curIdx + 1, cl);
    }
  }

  lemma WritingFacts(v: Fat32, f: Fd, cl: seq<nat>, flat: seq<byte>, start: nat, bytes: seq<byte>)
    requires Writing(v, f, cl, flat, start, bytes)
    ensures v.Valid() && v.store.bpc >= 1 && f.bufPos <= v.store.bpc && f.bufPos <= f.offset && (f.bufDirty <==> f.bufPos > 0)
  {
    HeldFacts(f, v.store.bpc, start, bytes);
  }

  /** A handle with nothing staged may hold bytes that were read: they are dropped. */
  method DropRead(v: Fat32, f: Fd, ghost cl: seq<nat>, ghost flat: seq<byte>, ghost start: nat, ghost bytes: seq<byte>)
    requires Writing(v, f, cl, flat, start, bytes)
    modifies f`bufValid, f`bufPos, f`bufStart
    ensures Writing(v, f, cl, flat, start, bytes) && f.bufPos == old(f.bufPos)
  {
    hide LinksOf, Chain, FlatOf, Shows, InRange, WaypointsOk, OnDisk, Held, CacheOk, SlotsOk, StampsOk;
    HeldFacts(f, v.store.bpc, start, bytes);
    if !f.bufDirty {
      f.bufValid, f.bufPos, f.bufStart := 0, 0, 0;
    }
  }

  /** A write that went through counts for the size. */
  method NoteSize(v: Fat32, f: Fd, ghost cl: seq<nat>, ghost flat: seq<byte>, ghost start: nat, ghost bytes: seq<byte>)
    requires Writing(v, f, cl, flat, start, bytes)
    modifies f`size, f`metaDirty
    ensures Writing(v, f, cl, flat, start, bytes) && f.size == Max(old(f.size), f.offset)
  {
    hide LinksOf, Chain, FlatOf, Shows, InRange, WaypointsOk, OnDisk, Held, CacheOk, SlotsOk, StampsOk;
    if f.offset > f.size {
      f.size := f.offset;
      f.metaDirty := true;
    }
  }

  lemma HeldNone(buf: seq<byte>, offset: nat, bpc: nat, start: nat, bytes: seq<byte>)
    requires bpc >= 1 && offset == start + |bytes| && |bytes| >= bpc && Whole(|bytes| - bpc, bpc)
    ensures Held(buf, 0, false, offset, bpc, start, bytes) && bytes[..|bytes| - 0] == bytes
  {
    WholeMore(|bytes| - bpc, bpc);
  }

  /** Append a payload, at most one message buffer of it, wherever the cursor stands. `tail` is what the
    * clusters taken for it held.
    */
  method WriteOn(v: Fat32, f: Fd, payload: seq<byte>, failures: seq<nat>, ghost cl: seq<nat>, ghost flat: seq<byte>, ghost start: nat, ghost bytes: seq<byte>)
    returns (out: WriteResult, ghost extra: seq<nat>, ghost tail: seq<byte>)
    requires Writing(v, f, cl, flat, start, bytes)
    modifies v`hint, v.fat, v.store, f`first, f`cur, f`curIdx, f`chainLen, f`chainLast, f`metaDirty, f`wpCluster, f`wpIdx
    modifies f`bufDirty, f`bufPos, f`bufValid, f`bufStart, f`buf, f`offset, f`size
    ensures !out.NotIssued? && CanReport(|payload|, out) && Took(out) <= |payload|
    ensures Writing(v, f, cl + extra, flat + tail, start, bytes + payload[..Took(out)])
    ensures f.size == if out.Written? && payload != [] then Max(old(f.size), f.offset) else old(f.size)
    ensures out.NoSpace? ==> NoneFree(v.Links(), v.total + 2)
    ensures var end := old(f.offset) + Min(|payload|, IPC_BUF);
            && (out.NoSpace? <==> payload != [] && end % 0x1_0000_0000 != 0 && (cl + extra == [] || Needed(end, v.store.bpc) > |cl + extra|))
            && (cl != [] && Needed(end, v.store.bpc) <= |cl| ==> extra == [])
    ensures out.Broken? ==> old(f.bufPos) + out.n >= v.store.bpc == f.bufPos
    ensures out.Broken? ==> Refusing(failures) || Slot(f.offset - f.bufPos, v.store.bpc) >= |cl + extra|
  {
    hide LinksOf, Writing, CacheOk, SlotsOk, StampsOk, Slot, NoneFree, Needed;
    WritingFacts(v, f, cl, flat, start, bytes);
    extra, tail := [], [];
    if payload == [] {
      assert cl + [] == cl && flat + [] == flat && bytes + payload[..0] == bytes;
      return Written(0), [], [];
    }
    var src := payload[..Min(|payload|, IPC_BUF)];
    DropRead(v, f, cl, flat, start, bytes);
    var ok;
    ok, extra, tail := Make(v, f, |src|, cl, flat, start, bytes);
    if !ok {
      assert bytes + payload[..0] == bytes;
      return NoSpace, extra, tail;
    }
    out := Pour(v, f, src, failures, cl + extra, flat + tail, start, bytes);
    assert src[..Took(out)] == payload[..Took(out)];
  }

  /** Reserve clusters for a write and put the cursor on the chain. */
  method Make(v: Fat32, f: Fd, n: nat, ghost cl: seq<nat>, ghost flat: seq<byte>, ghost start: nat, ghost bytes: seq<byte>)
    returns (ok: bool, ghost extra: seq<nat>, ghost tail: seq<byte>)
    requires Writing(v, f, cl, flat, start, bytes)
    modifies v`hint, v.fat, v.store, f`first, f`cur, f`curIdx, f`chainLen, f`chainLast, f`metaDirty, f`wpCluster, f`wpIdx
    ensures Writing(v, f, cl + extra, flat + tail, start, bytes)
    ensures !ok ==> NoneFree(v.Links(), v.total + 2)
    ensures ok <==> (f.offset + n) % 0x1_0000_0000 == 0 || (cl + extra != [] && Needed(f.offset + n, v.store.bpc) <= |cl + extra|)
    ensures cl != [] && Needed(f.offset + n, v.store.bpc) <= |cl| ==> extra == []
  {
    hide LinksOf, Chain, FlatOf, Shows, InRange, WaypointsOk, OnDisk, Held, CacheOk, SlotsOk, StampsOk, CursorOk, NoneFree, Needed, Fresh, LinkAll;
    HeldFacts(f, v.store.bpc, start, bytes);
    ok, extra := EnsureClusters(v, f, f.offset + n, cl);
    ClustersOnDisk(v, f.first, cl + extra);
    tail := LongerShows(v.store.data, v.store.bpc, cl, extra, flat, start, bytes[..|bytes| - f.bufPos]);
    if ok && f.cur < 2 && f.first >= 2 {
      var _ := SeekCursor(v, f, Slot(f.offset, v.store.bpc), cl + extra);
    }
  }

  lemma LongerShows(data: seq<seq<byte>>, bpc: nat, cl: seq<nat>, extra: seq<nat>, flat: seq<byte>, start: nat, bytes: seq<byte>)
    returns (tail: seq<byte>)
    requires bpc >= 1 && Shows(data, bpc, cl, flat, start, bytes) && OnDisk(data, bpc, cl + extra)
    ensures Shows(data, bpc, cl + extra, flat + tail, start, bytes)
  {
    hide FlatOf, Landed;
    FlatExtended(data, bpc, cl, extra);
    FlatLength(data, bpc, cl);
    FlatLength(data, bpc, cl + extra);
    var b := FlatOf(data, bpc, cl + extra);
    tail := b[|flat|..];
    assert b == FlatOf(data, bpc, cl) + tail;
    LandedLonger(flat, tail, start, bytes, bpc, |cl|, |cl + extra|);
  }

  /** The copying loop of a write. */
  method Pour(v: Fat32, f: Fd, src: seq<byte>, failures: seq<nat>, ghost cl: seq<nat>, ghost flat: seq<byte>, ghost start: nat, ghost bytes: seq<byte>)
    returns (out: WriteResult)
    requires Writing(v, f, cl, flat, start, bytes) && 0 < |src| <= IPC_BUF
    modifies v.fat, v.store, f`cur, f`curIdx, f`metaDirty, f`wpCluster, f`wpIdx
    modifies f`bufDirty, f`bufPos, f`bufValid, f`bufStart, f`buf, f`offset, f`size
    ensures out == Written(|src|) || (out.Broken? && out.n <= |src|)
    ensures Writing(v, f, cl, flat, start, bytes + src[..Took(out)]) && v.Links() == old(v.Links())
    ensures f.size == if out.Written? then Max(old(f.size), f.offset) else old(f.size)
    ensures out.Broken? ==> old(f.bufPos) + out.n >= v.store.bpc == f.bufPos
    ensures out.Broken? ==> Refusing(failures) || Slot(f.offset - f.bufPos, v.store.bpc) >= |cl|
  {
    hide LinksOf, Writing, CacheOk, SlotsOk, StampsOk, Slot;
    var written, flushes := 0, 0;
    assert bytes + src[..0] == bytes;
    WritingFacts(v, f, cl, flat, start, bytes);
    while written < |src|
      invariant written <= |src| && Writing(v, f, cl, flat, start, bytes + src[..written])
      invariant v.Valid() && v.Links() == old(v.Links()) && f.size == old(f.size)
      invariant f.bufPos <= old(f.bufPos) + written
      decreases |src| - written, if f.bufPos >= v.store.bpc then 1 else 0
    {
      WritingFacts(v, f, cl, flat, start, bytes + src[..written]);
      var chunk := Min(v.store.bpc - f.bufPos, |src| - written);
      assert bytes + src[..written] + src[written..written + chunk] == bytes + src[..written + chunk];
      var failed := if flushes < |failures| then failures[flushes] else 0;
      var ok := Stage(v, f, src[written..written + chunk], failed, cl, flat, start, bytes + src[..written]);
      if !ok {
        assert failed >= FLUSH_RETRIES ==> failures[flushes] >= FLUSH_RETRIES;
        return Broken(written + chunk);
      }
      if f.bufPos == 0 {
        flushes := flushes + 1;
      }
      written := written + chunk;
    }
    assert bytes + src[..written] == bytes + src && src[..|src|] == src;
    NoteSize(v, f, cl, flat, start, bytes + src);
    out := Written(|src|);
  }

  // ---- a whole append ----

  /** A handle with nothing staged. */
  lemma WritingStarts(v: Fat32, f: Fd, cl: seq<nat>)
    requires FdOk(v, f, cl) && f.bufPos == 0 && !f.bufDirty
    ensures OnDisk(v.store.data, v.store.bpc, cl)
    ensures Writing(v, f, cl, FlatOf(v.store.data, v.store.bpc, cl), f.offset, [])
  {
    ClustersOnDisk(v, f.first, cl);
    FlatLength(v.store.data, v.store.bpc, cl);
    DivModUnique(0, 0, v.store.bpc);
  }

  /** Write payloads from wherever the cursor stands, and store what is still staged at the end. What the
    * chain then holds is what it held with the stream landed in it, below 4 GiB in one piece from the start
    * of the cursor's cluster. `tail` is what the clusters taken for it held.
    */
  method AppendAll(v: Fat32, f: Fd, payloads: seq<seq<byte>>, failures: seq<seq<nat>>, closing: nat, ghost cl: seq<nat>)
    returns (outs: seq<WriteResult>, ok: bool, ghost cl': seq<nat>, ghost tail: seq<byte>)
    requires FdOk(v, f, cl) && OnDisk(v.store.data, v.store.bpc, cl) && f.bufPos == 0 && !f.bufDirty && |failures| == |payloads|
    modifies v`hint, v.fat, v.store, f`first, f`cur, f`curIdx, f`chainLen, f`chainLast, f`metaDirty, f`wpCluster, f`wpIdx
    modifies f`bufDirty, f`bufPos, f`bufValid, f`bufStart, f`buf, f`offset, f`size
    ensures FatClose.Reports(payloads, outs) && |outs| == |payloads| && FdOk(v, f, cl')
    ensures var flat, stream := old(FlatOf(v.store.data, v.store.bpc, cl)) + tail, FatClose.StreamOf(payloads, outs);
            && f.offset == old(f.offset) + |stream|
            && (ok ==> Shows(v.store.data, v.store.bpc, cl', flat, old(f.offset), stream))
            && (ok && stream != [] && f.offset <= 0x1_0000_0000 ==>
                  && OnDisk(v.store.data, v.store.bpc, cl') && Landing(old(f.offset), v.store.bpc) + |stream| <= |flat|
                  && FlatOf(v.store.data, v.store.bpc, cl') == Put(flat, Landing(old(f.offset), v.store.bpc), stream))
  {
    hide LinksOf, Writing, CacheOk, SlotsOk, StampsOk, FatClose.Reports, FatClose.StreamOf;
    ghost var flat0, start := FlatOf(v.store.data, v.store.bpc, cl), f.offset;
    outs, cl', tail := [], cl, [];
    WritingStarts(v, f, cl);
    FatClose.NothingReported(payloads);
    assert flat0 + [] == flat0;
    for i := 0 to |payloads|
      invariant FatClose.Reports(payloads, outs) && |outs| == i
      invariant Writing(v, f, cl', flat0 + tail, start, FatClose.StreamOf(payloads, outs))
    {
      var out, extra, more := WriteOn(v, f, payloads[i], failures[i], cl', flat0 + tail, start, FatClose.StreamOf(payloads, outs));
      assert flat0 + tail + more == flat0 + (tail + more);
      FatClose.ReportsMore(payloads, outs, out);
      outs, cl', tail := outs + [out], cl' + extra, tail + more;
    }
    ghost var stream := FatClose.StreamOf(payloads, outs);
    ok := Settle(v, f, closing, cl', flat0 + tail, start, stream);
    if ok && stream != [] && f.offset <= 0x1_0000_0000 {
      ShownTogether(v.store.data, v.store.bpc, cl', flat0 + tail, start, stream);
    }
  }

  lemma ShownTogether(data: seq<seq<byte>>, bpc: nat, cl: seq<nat>, flat: seq<byte>, start: nat, bytes: seq<byte>)
    requires bpc >= 1 && Shows(data, bpc, cl, flat, start, bytes) && bytes != [] && start + |bytes| <= 0x1_0000_0000
    ensures OnDisk(data, bpc, cl) && Landing(start, bpc) + |bytes| <= |flat|
    ensures FlatOf(data, bpc, cl) == Put(flat, Landing(start, bpc), bytes)
  {
    LandingInside(start, |bytes|, bpc, |cl|);
    LandedTogether(flat, start, bytes, bpc, |cl|);
  }

  /** Store what is staged, if anything is. */
  method Settle(v: Fat32, f: Fd, failures: nat, ghost cl: seq<nat>, ghost flat: seq<byte>, ghost start: nat, ghost bytes: seq<byte>) returns (ok: bool)
    requires Writing(v, f, cl, flat, start, bytes)
    modifies v.fat, v.store, f`cur, f`curIdx, f`wpCluster, f`wpIdx, f`bufDirty, f`bufPos, f`bufValid, f`bufStart
    ensures v.Valid() && v.store.bpc >= 1 && FdOk(v, f, cl) && f.offset == start + |bytes|
    ensures ok ==> Shows(v.store.data, v.store.bpc, cl, flat, start, bytes)
    ensures ok <==> old(f.bufPos) == 0 || (failures < FLUSH_RETRIES && old(f.bufPos) <= f.offset && Slot(f.offset - old(f.bufPos), v.store.bpc) < |cl|)
  {
    hide LinksOf, Chain, FlatOf, Shows, InRange, WaypointsOk, OnDisk, Held, CacheOk, SlotsOk, StampsOk, Slot, CursorOk;
    HeldFacts(f, v.store.bpc, start, bytes);
    ok := true;
    if f.bufDirty {
      ok := Flush(v, f, failures, cl, flat, start, bytes);
    } else {
      assert bytes[..|bytes| - 0] == bytes;
    }
  }

  /** Less than a cluster below 4 GiB the end rounds to no clusters, and the chain has none there. */
  lemma RoundsToNothing(clusters: nat, bpc: nat, n: nat)
    requires 0 < n < bpc && Times(clusters, bpc) == 0x1_0000_0000 - bpc
    ensures Needed(Times(clusters, bpc) + n, bpc) == 0 && Slot(Times(clusters, bpc), bpc) == clusters
    ensures bpc <= 0x1_0000 ==> clusters >= 1 && (Times(clusters, bpc) + n) % 0x1_0000_0000 != 0
  {
    var end := Times(clusters, bpc) + n;
    WrappedIsZero(end + bpc - 1, bpc);
    DivModUnique(clusters, 0, bpc);
  }

  lemma AllStaged(f: Fd, bpc: nat, start: nat, bytes: seq<byte>)
    requires bpc >= 1 && Held(f.buf, f.bufPos, f.bufDirty, f.offset, bpc, start, bytes) && 0 < |bytes| < bpc
    ensures f.bufPos == |bytes|
  {
    var k := ClusterOf(|bytes| - f.bufPos, bpc);
    if k >= 1 {
      MulMonotone(1, k, bpc);
    }
  }

  lemma AllStagedIn(v: Fat32, f: Fd, cl: seq<nat>, flat: seq<byte>, start: nat, bytes: seq<byte>)
    requires Writing(v, f, cl, flat, start, bytes) && 0 < |bytes| < v.store.bpc
    ensures f.bufPos == |bytes| && f.offset == start + |bytes|
  {
    AllStaged(f, v.store.bpc, start, bytes);
  }

  /** Close to 4 GiB a write is acknowledged for which the chain has no cluster, free ones or not: with the
    * chain ending at the cursor less than a cluster below 4 GiB the rounded count is zero, nothing is
    * taken, the bytes are staged and count for the size, and no flush can store them.
    */
  method AcknowledgedUnbacked(v: Fat32, f: Fd, payload: seq<byte>, failures: seq<nat>, closing: nat, ghost cl: seq<nat>)
    returns (out: WriteResult, ok: bool)
    requires FdOk(v, f, cl) && OnDisk(v.store.data, v.store.bpc, cl) && f.bufPos == 0 && !f.bufDirty && v.store.bpc <= 0x1_0000
    requires f.offset == Times(|cl|, v.store.bpc) == 0x1_0000_0000 - v.store.bpc && 0 < |payload| < v.store.bpc
    modifies v`hint, v.fat, v.store, f`first, f`cur, f`curIdx, f`chainLen, f`chainLast, f`metaDirty, f`wpCluster, f`wpIdx
    modifies f`bufDirty, f`bufPos, f`bufValid, f`bufStart, f`buf, f`offset, f`size
    ensures out == Written(|payload|) && f.size == Max(old(f.size), old(f.offset) + |payload|)
    ensures !ok
  {
    hide LinksOf, Writing, CacheOk, SlotsOk, StampsOk;
    ghost var flat, start, bpc := FlatOf(v.store.data, v.store.bpc, cl), f.offset, v.store.bpc;
    WritingStarts(v, f, cl);
    RoundsToNothing(|cl|, bpc, |payload|);
    ghost var extra, tail;
    out, extra, tail := WriteOn(v, f, payload, failures, cl, flat, start, []);
    assert cl + extra == cl;
    assert payload[..|payload|] == payload && [] + payload == payload;
    AllStagedIn(v, f, cl, flat + tail, start, payload);
    ok := Settle(v, f, closing, cl, flat + tail, start, payload);
  }
}
