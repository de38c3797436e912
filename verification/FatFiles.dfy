/** Open FAT32 files: the cursor with its waypoints and the multi-cluster read buffer, proved to
  * read as one flat byte sequence.
  */
module FatFiles {
  import opened Arith
  import opened Bytes
  import opened FatTable
  import opened FatClusters
  import opened FatChains

  const WP_INTERVAL: nat := 64
  const MAX_WAYPOINTS: nat := 16
  const READ_BUF: nat := 65536
  const IPC_BUF: nat := 65536

  // ---- the bytes of a chain ----

  /** Clusters of `cl` are on the disk, `bpc` bytes each. */
  ghost predicate OnDisk(data: seq<seq<byte>>, bpc: nat, cl: seq<nat>) {
    forall i :: 0 <= i < |cl| ==> cl[i] < |data| && |data[cl[i]]| == bpc
  }

  ghost function FlatOf(data: seq<seq<byte>>, bpc: nat, cl: seq<nat>): (b: seq<byte>)
    requires OnDisk(data, bpc, cl)
  {
    if cl == [] then [] else FlatOf(data, bpc, cl[..|cl| - 1]) + data[cl[|cl| - 1]]
  }

  lemma {:induction false} FlatLength(data: seq<seq<byte>>, bpc: nat, cl: seq<nat>)
    requires OnDisk(data, bpc, cl)
    ensures |FlatOf(data, bpc, cl)| == |cl| * bpc
  {
    if cl != [] {
      FlatLength(data, bpc, cl[..|cl| - 1]);
      assert (|cl| - 1) * bpc + bpc == |cl| * bpc;
    }
  }

  /** The bytes of one cluster of the chain. */
  lemma {:induction false} FlatCluster(data: seq<seq<byte>>, bpc: nat, cl: seq<nat>, k: nat)
    requires OnDisk(data, bpc, cl) && k < |cl|
    ensures k * bpc + bpc <= |cl| * bpc == |FlatOf(data, bpc, cl)|
    ensures FlatOf(data, bpc, cl)[k * bpc..k * bpc + bpc] == data[cl[k]]
  {
    var n := |cl| - 1;
    FlatLength(data, bpc, cl);
    FlatLength(data, bpc, cl[..n]);
    MulStep(k, |cl|, bpc);
    if k < n {
      MulStep(k, n, bpc);
      FlatCluster(data, bpc, cl[..n], k);
      assert FlatOf(data, bpc, cl)[k * bpc..k * bpc + bpc] == FlatOf(data, bpc, cl[..n])[k * bpc..k * bpc + bpc];
    }
  }

  /** A run of neighbouring clusters, read at once. */
  function RunBytes(data: seq<seq<byte>>, start: nat, n: nat): seq<byte>
    requires start + n <= |data|
  {
    if n == 0 then [] else RunBytes(data, start, n - 1) + data[start + n - 1]
  }

  lemma TimesStep(k: nat, bpc: nat)
    ensures Times(k + 1, bpc) == Times(k, bpc) + bpc
  {
  }

  lemma TimesSum(k: nat, n: nat, bpc: nat)
    ensures Times(k + n, bpc) == Times(k, bpc) + Times(n, bpc)
    ensures n >= 1 ==> bpc <= Times(n, bpc)
  {
    if n >= 1 {
      MulMonotone(1, n, bpc);
    }
  }

  lemma ClusterSlice(data: seq<seq<byte>>, bpc: nat, cl: seq<nat>, k: nat)
    requires OnDisk(data, bpc, cl) && k < |cl|
    ensures Times(k, bpc) + bpc <= |FlatOf(data, bpc, cl)|
    ensures FlatOf(data, bpc, cl)[Times(k, bpc)..Times(k, bpc) + bpc] == data[cl[k]]
  {
    FlatCluster(data, bpc, cl, k);
  }

  lemma {:induction false} RunIsFlat(data: seq<seq<byte>>, bpc: nat, cl: seq<nat>, k: nat, n: nat)
    requires OnDisk(data, bpc, cl) && n >= 1 && k + n <= |cl| && cl[k] + n <= |data|
    requires forall j :: k <= j < k + n ==> cl[j] == cl[k] + (j - k)
    ensures Times(k, bpc) <= Times(k + n, bpc) <= |FlatOf(data, bpc, cl)|
    ensures RunBytes(data, cl[k], n) == FlatOf(data, bpc, cl)[Times(k, bpc)..Times(k + n, bpc)]
  {
    hide Times, FlatOf;
    ClusterSlice(data, bpc, cl, k + n - 1);
    TimesStep(k + n - 1, bpc);
    if n > 1 {
      RunIsFlat(data, bpc, cl, k, n - 1);
      RunJoined(FlatOf(data, bpc, cl), Times(k, bpc), Times(k + n - 1, bpc), bpc);
    } else {
      assert RunBytes(data, cl[k], 0) == [];
    }
  }

  lemma RunJoined(flat: seq<byte>, a: nat, b: nat, bpc: nat)
    requires a <= b && b + bpc <= |flat|
    ensures flat[a..b + bpc] == flat[a..b] + flat[b..b + bpc]
  {
  }

  // ---- the open file ----

  class Fd {
    var first: nat
    var size: nat
    var offset: nat
    var writable: bool
    var buf: seq<byte>
    var bufPos: nat
    var bufValid: nat
    var bufDirty: bool
    var bufStart: nat
    var cur: nat
    var curIdx: nat
    var chainLen: nat
    var chainLast: nat
    var wpCluster: seq<nat>
    var wpIdx: seq<nat>
    var metaDirty: bool
    var truncOld: nat

    constructor (first: nat, size: nat, writable: bool)
      ensures this.first == first && this.size == size && this.writable == writable && offset == 0
      ensures bufPos == bufValid == bufStart == 0 && !bufDirty && cur == first && curIdx == 0
      ensures chainLen == chainLast == 0 && wpCluster == wpIdx == [] && !metaDirty && truncOld == 0
    {
      this.first, this.size, this.offset, this.writable := first, size, 0, writable;
      buf, bufPos, bufValid, bufDirty, bufStart := [], 0, 0, false, 0;
      cur, curIdx, chainLen, chainLast := first, 0, 0, 0;
      wpCluster, wpIdx, metaDirty, truncOld := [], [], false, 0;
    }
  }

  /** Every waypoint is a cluster of the chain at its index. */
  ghost predicate WaypointsOk(wpCluster: seq<nat>, wpIdx: seq<nat>, cl: seq<nat>) {
    && |wpCluster| == |wpIdx| <= MAX_WAYPOINTS
    && forall i :: 0 <= i < |wpIdx| ==> wpIdx[i] < |cl| && wpCluster[i] == cl[wpIdx[i]]
  }

  /** The cursor and the waypoints stand on the chain. */
  ghost predicate CursorOk(f: Fd, cl: seq<nat>)
    reads f
  {
    && (f.first < 2 <==> cl == [])
    && (f.cur >= 2 ==> f.curIdx < |cl| && f.cur == cl[f.curIdx])
    && WaypointsOk(f.wpCluster, f.wpIdx, cl)
  }

  /** Note the cursor as a waypoint, every 64 clusters. */
  method RecordWaypoint(f: Fd, ghost cl: seq<nat>)
    requires CursorOk(f, cl) && f.cur >= 2
    modifies f`wpCluster, f`wpIdx
    ensures CursorOk(f, cl)
  {
    if f.curIdx % WP_INTERVAL != 0 || |f.wpIdx| >= MAX_WAYPOINTS {
      return;
    }
    if |f.wpIdx| > 0 && f.wpIdx[|f.wpIdx| - 1] == f.curIdx {
      return;
    }
    f.wpCluster := f.wpCluster + [f.cur];
    f.wpIdx := f.wpIdx + [f.curIdx];
  }

  /** The link of a chain's cluster: its next one, or an end marker at the last. */
  lemma LinkOfChain(links: seq<nat>, limit: nat, first: nat, cl: seq<nat>, i: nat)
    requires Chain(links, limit, first, cl) && i < |cl|
    ensures 2 <= cl[i] < limit <= |links|
    ensures if i == |cl| - 1 then IsEoc(links[cl[i]]) else links[cl[i]] == cl[i + 1]
  {
  }

  /** The link of cluster `i` of the chain. */
  method NeighbourAt(v: Fat32, c: nat, ghost first: nat, ghost cl: seq<nat>, ghost i: nat) returns (next: nat)
    requires v.Valid() && Chain(v.Links(), v.total + 2, first, cl) && i < |cl| && c == cl[i]
    modifies v.fat
    ensures v.Valid() && v.Links() == old(v.Links())
    ensures if i + 1 < |cl| then 2 <= next == cl[i + 1] < v.total + 2 else IsEoc(next)
  {
    hide LinksOf, Chain;
    LinkOfChain(v.Links(), v.total + 2, first, cl, i);
    if i + 1 < |cl| {
      LinkOfChain(v.Links(), v.total + 2, first, cl, i + 1);
    }
    next := v.ReadLink(c);
  }

  /** Walk the chain from one index to another; false if the chain ends before. */
  method Walk(v: Fat32, start: nat, startIdx: nat, target: nat, ghost first: nat, ghost cl: seq<nat>) returns (ok: bool, c: nat)
    requires v.Valid() && Chain(v.Links(), v.total + 2, first, cl) && startIdx <= target && startIdx < |cl| && start == cl[startIdx]
    modifies v.fat
    ensures v.Valid() && v.Links() == old(v.Links())
    ensures (ok <==> target < |cl|) && (ok ==> c == cl[target])
  {
    hide LinksOf, Chain;
    c := start;
    var i := startIdx;
    while i < target
      invariant startIdx <= i <= target && i < |cl| && c == cl[i] && v.Valid() && v.Links() == old(v.Links())
    {
      var next := NeighbourAt(v, c, first, cl, i);
      if next < 2 || IsEoc(next) {
        return false, c;
      }
      c := next;
      i := i + 1;
    }
    ok := true;
  }

  /** The best known place at or before `target`: the last fitting waypoint, or the cursor. */
  method StartFor(f: Fd, target: nat, ghost cl: seq<nat>) returns (start: nat, startIdx: nat)
    requires CursorOk(f, cl) && f.first >= 2 && cl[0] == f.first
    ensures startIdx <= target && startIdx < |cl| && start == cl[startIdx]
  {
    start, startIdx := f.first, 0;
    var i := |f.wpIdx|;
    while i > 0
      invariant 0 <= i <= |f.wpIdx| && start == f.first && startIdx == 0
    {
      if f.wpIdx[i - 1] <= target {
        start, startIdx := f.wpCluster[i - 1], f.wpIdx[i - 1];
        break;
      }
      i := i - 1;
    }
    if f.cur >= 2 && f.curIdx <= target && f.curIdx >= startIdx {
      start, startIdx := f.cur, f.curIdx;
    }
  }

  /** Move the cursor to cluster number `target` of the chain; false if there is none. */
  method SeekCursor(v: Fat32, f: Fd, target: nat, ghost cl: seq<nat>) returns (ok: bool)
    requires v.Valid() && Chain(v.Links(), v.total + 2, f.first, cl) && CursorOk(f, cl)
    modifies v.fat, f`cur, f`curIdx, f`wpCluster, f`wpIdx
    ensures v.Valid() && v.Links() == old(v.Links()) && CursorOk(f, cl)
    ensures (ok <==> target < |cl|) && (ok ==> f.cur == cl[target] && f.curIdx == target && f.cur >= 2)
    ensures !ok ==> f.cur == old(f.cur) && f.curIdx == old(f.curIdx)
  {
    hide LinksOf, Chain;
    ChainShape(v.Links(), v.total + 2, f.first, cl);
    if f.first < 2 {
      return false;
    }
    if f.cur >= 2 && f.curIdx == target {
      return true;
    }
    var start, startIdx;
    if f.cur >= 2 && f.curIdx + 1 == target {
      start, startIdx := f.cur, f.curIdx;
    } else {
      start, startIdx := StartFor(f, target, cl);
    }
    var c;
    ok, c := Walk(v, start, startIdx, target, f.first, cl);
    if ok {
      f.cur := c;
      f.curIdx := target;
      RecordWaypoint(f, cl);
    }
  }

  // ---- reading ----

  /** Whole clusters left from a cluster start to the end of the file, in 32-bit arithmetic. */
  function RemainingClusters(size: nat, start: nat, bpc: nat): nat
    requires bpc >= 1
  {
    WholeClusters(if size > start then (size - start) % 0x1_0000_0000 else 0, bpc)
  }

  /** Bytes rounded up to clusters, in 32-bit arithmetic. */
  function WholeClusters(n: nat, bpc: nat): nat
    requires bpc >= 1
  {
    (n + bpc - 1) % 0x1_0000_0000 / bpc
  }

  /** The rounding is exact precisely when it does not wrap. */
  lemma RemainingExact(size: nat, start: nat, bpc: nat)
    requires start < size < 0x1_0000_0000 && 1 <= bpc <= 0x1_0000
    ensures RemainingClusters(size, start, bpc) == CeilDiv(size - start, bpc) <==> size - start + bpc <= 0x1_0000_0000
  {
    CeilDivBounds(size - start, bpc);
    var x := size - start + bpc - 1;
    if x >= 0x1_0000_0000 {
      assert x % 0x1_0000_0000 == x - 0x1_0000_0000;
      WrappedIsZero(x, bpc);
    }
  }

  lemma WrappedIsZero(x: nat, bpc: nat)
    requires 0x1_0000_0000 <= x < 0x1_0000_0000 + bpc && bpc >= 1
    ensures (x - 0x1_0000_0000) / bpc == 0
  {
  }

  /** The clusters of a file of this size do not all fit 32 bits: rounding up at its start wraps. */
  predicate StartWraps(size: nat, bpc: nat) {
    size + bpc > 0x1_0000_0000
  }

  /** The offset is in a cluster that the wrapped rounding leaves no bytes from. */
  predicate Unreadable(size: nat, offset: nat, bpc: nat) {
    StartWraps(size, bpc) && offset < bpc
  }

  /** The first `valid` bytes of a buffer are the flat bytes from `start` on. */
  ghost predicate Holds(buf: seq<byte>, valid: nat, start: nat, size: nat, flat: seq<byte>) {
    && valid <= |buf| && valid < 0x1_0000_0000
    && (valid > 0 ==> start < size && start + valid <= |flat| && buf[..valid] == flat[start..start + valid])
  }

  /** The read buffer holds the flat bytes from the start of cluster `bufStart` on. */
  ghost predicate BufferOk(f: Fd, bpc: nat, flat: seq<byte>)
    reads f
  {
    && Holds(f.buf, f.bufValid, Times(f.bufStart, bpc), f.size, flat)
    && (f.bufValid > 0 ==> !Unreadable(f.size, Times(f.bufStart, bpc), bpc))
  }

  /** An open file that is only read: its chain covers its size, which is a 32-bit number. */
  ghost predicate ReadOk(v: Fat32, f: Fd, cl: seq<nat>)
    reads v, v.fat, v.store, f
  {
    && v.Valid() && Chain(v.Links(), v.total + 2, f.first, cl) && CursorOk(f, cl)
    && 1 <= v.store.bpc <= 0x1_0000 && f.size < 0x1_0000_0000
    && OnDisk(v.store.data, v.store.bpc, cl) && f.size <= |cl| * v.store.bpc
    && BufferOk(f, v.store.bpc, FlatOf(v.store.data, v.store.bpc, cl)) && !f.bufDirty
  }

  /** The file's bytes. */
  ghost function FileBytes(v: Fat32, f: Fd, cl: seq<nat>): (b: seq<byte>)
    requires ReadOk(v, f, cl)
    reads v, v.fat, v.store, f
    ensures |b| == f.size
  {
    FlatLength(v.store.data, v.store.bpc, cl);
    FlatOf(v.store.data, v.store.bpc, cl)[..f.size]
  }

  /** Neighbouring clusters of the chain from index `k` on. */
  ghost predicate Neighbours(cl: seq<nat>, k: nat, n: nat) {
    n >= 1 && k + n <= |cl| && forall j :: k <= j < k + n ==> cl[j] == cl[k] + (j - k)
  }

  /** The run of neighbouring clusters of the chain from the cursor on, at most `want` long. */
  method CountRun(v: Fat32, f: Fd, want: nat, ghost cl: seq<nat>, ghost k: nat) returns (n: nat)
    requires v.Valid() && Chain(v.Links(), v.total + 2, f.first, cl) && k < |cl| && f.cur == cl[k] && want >= 1
    modifies v.fat
    ensures v.Valid() && v.Links() == old(v.Links()) && 1 <= n <= want && Neighbours(cl, k, n)
    ensures f.cur + n <= v.total + 2
  {
    hide LinksOf, Chain, Neighbours;
    n := 1;
    var prev := f.cur;
    ghost var links := v.Links();
    LinkOfChain(links, v.total + 2, f.first, cl, k);
    assert Neighbours(cl, k, 1) by { OneNeighbour(cl, k); }
    while n < want
      invariant 1 <= n <= want && Neighbours(cl, k, n) && k + n <= |cl| && prev == cl[k + n - 1] == f.cur + n - 1 < v.total + 2
      invariant v.Valid() && v.Links() == links
    {
      var next := NeighbourAt(v, prev, f.first, cl, k + n - 1);
      if IsEoc(next) || next != prev + 1 {
        break;
      }
      NextNeighbour(cl, k, n);
      n := n + 1;
      prev := next;
    }
  }

  lemma OneNeighbour(cl: seq<nat>, k: nat)
    requires k < |cl|
    ensures Neighbours(cl, k, 1)
  {
  }

  lemma NextNeighbour(cl: seq<nat>, k: nat, n: nat)
    requires Neighbours(cl, k, n) && k + n < |cl| && cl[k + n] == cl[k] + n
    ensures Neighbours(cl, k, n + 1)
  {
  }

  /** The cluster of the chain an offset is in. */
  function ClusterOf(offset: nat, bpc: nat): nat
    requires bpc >= 1
  {
    offset / bpc
  }

  /** Where the offset is in the chain, and what is left from its cluster on. */
  lemma OffsetPlace(offset: nat, size: nat, n: nat, bpc: nat)
    requires 1 <= bpc <= 0x1_0000 && offset < size <= n * bpc && size < 0x1_0000_0000
    ensures ClusterOf(offset, bpc) < n && Times(ClusterOf(offset, bpc), bpc) <= offset < Times(ClusterOf(offset, bpc), bpc) + bpc
    ensures RemainingClusters(size, Times(ClusterOf(offset, bpc), bpc), bpc) >= 1 <==> !Unreadable(size, offset, bpc)
    ensures Unreadable(size, Times(ClusterOf(offset, bpc), bpc), bpc) <==> Unreadable(size, offset, bpc)
  {
    DivBelow(offset, n, bpc);
    var k := ClusterOf(offset, bpc);
    var start := Times(k, bpc);
    RemainingExact(size, start, bpc);
    CeilDivBounds(size - start, bpc);
    if k >= 1 {
      MulMonotone(1, k, bpc);
    } else if StartWraps(size, bpc) {
      var x := size + bpc - 1;
      assert x % 0x1_0000_0000 == x - 0x1_0000_0000;
      WrappedIsZero(x, bpc);
    }
  }

  /** A run of clusters in the buffer. */
  lemma RunInBuffer(data: seq<seq<byte>>, bpc: nat, cl: seq<nat>, k: nat, n: nat)
    requires bpc >= 1 && OnDisk(data, bpc, cl) && Neighbours(cl, k, n) && cl[k] + n <= |data|
    ensures bpc <= Times(n, bpc) && |RunBytes(data, cl[k], n)| == Times(n, bpc)
    ensures Times(k, bpc) + Times(n, bpc) <= |FlatOf(data, bpc, cl)|
    ensures RunBytes(data, cl[k], n) == FlatOf(data, bpc, cl)[Times(k, bpc)..Times(k, bpc) + Times(n, bpc)]
  {
    hide Times, FlatOf, RunBytes;
    RunIsFlat(data, bpc, cl, k, n);
    TimesSum(k, n, bpc);
  }

  /** Clusters that fit the buffer, at least one. */
  function BufferClusters(bpc: nat): (n: nat)
    requires bpc >= 1
    ensures n >= 1
  {
    Max(1, READ_BUF / bpc)
  }

  /** Bytes of a span that the buffer counts as valid, in 32-bit arithmetic: up to the end of the
    * file, unless the end of the span wraps.
    */
  function ValidBytes(start: nat, len: nat, size: nat): nat {
    var end := (start + len) % 0x1_0000_0000;
    ((if end > size then size else end) - start) % 0x1_0000_0000
  }

  lemma ValidCovers(start: nat, len: nat, size: nat, offset: nat)
    requires start <= offset < size < 0x1_0000_0000 && offset < start + len && len < 0x1_0000_0000
    ensures offset < start + ValidBytes(start, len, size) && ValidBytes(start, len, size) <= len
  {
    var end := start + len;
    if end >= 0x1_0000_0000 {
      assert end % 0x1_0000_0000 == end - 0x1_0000_0000;
      assert (end - 0x1_0000_0000 - start) % 0x1_0000_0000 == len;
    }
  }

  /** Load the run of clusters at the cursor into the buffer. */
  method LoadRun(v: Fat32, f: Fd, n: nat, ghost cl: seq<nat>)
    requires ReadOk(v, f, cl) && f.cur >= 2 && Neighbours(cl, f.curIdx, n) && f.cur + n <= v.total + 2 && Times(n, v.store.bpc) <= READ_BUF
    requires Times(f.curIdx, v.store.bpc) <= f.offset < Times(f.curIdx, v.store.bpc) + v.store.bpc && f.offset < f.size
    requires !Unreadable(f.size, Times(f.curIdx, v.store.bpc), v.store.bpc)
    modifies f`buf, f`bufValid, f`bufPos, f`bufStart
    ensures ReadOk(v, f, cl) && FileBytes(v, f, cl) == old(FileBytes(v, f, cl))
    ensures Times(f.bufStart, v.store.bpc) <= f.offset < Times(f.bufStart, v.store.bpc) + f.bufValid
  {
    hide LinksOf, Chain, FlatOf, RunBytes, Times, Neighbours, Holds, OnDisk, WaypointsOk, ValidBytes;
    var bpc := v.store.bpc;
    ghost var flat := FlatOf(v.store.data, bpc, cl);
    RunInBuffer(v.store.data, bpc, cl, f.curIdx, n);
    FlatLength(v.store.data, bpc, cl);
    f.buf := RunBytes(v.store.data, f.cur, n);
    var spanStart := Times(f.curIdx, bpc);
    ValidCovers(spanStart, Times(n, bpc), f.size, f.offset);
    f.bufValid := ValidBytes(spanStart, Times(n, bpc), f.size);
    f.bufPos := f.offset - spanStart;
    f.bufStart := f.curIdx;
    RunHolds(f.buf, spanStart, f.bufValid, f.size, flat);
  }

  lemma RunHolds(buf: seq<byte>, start: nat, valid: nat, size: nat, flat: seq<byte>)
    requires start + |buf| <= |flat| && buf == flat[start..start + |buf|] && valid <= |buf| && start < size && valid < 0x1_0000_0000
    ensures Holds(buf, valid, start, size, flat)
  {
    assert flat[start..start + |buf|][..valid] == flat[start..start + valid];
  }

  lemma CoversSize(v: Fat32, f: Fd, cl: seq<nat>)
    requires ReadOk(v, f, cl)
    ensures v.Valid() && Chain(v.Links(), v.total + 2, f.first, cl) && CursorOk(f, cl)
    ensures 1 <= v.store.bpc <= 0x1_0000 && f.size <= |cl| * v.store.bpc && f.size < 0x1_0000_0000
  {
  }

  /** Fill the buffer with the run of clusters that holds the offset. This fails exactly when the
    * 32-bit rounding of the bytes left from that cluster on wraps.
    */
  method FillRead(v: Fat32, f: Fd, ghost cl: seq<nat>) returns (ok: bool)
    requires ReadOk(v, f, cl) && f.offset < f.size
    modifies v.fat, f`cur, f`curIdx, f`wpCluster, f`wpIdx, f`buf, f`bufValid, f`bufPos, f`bufStart
    ensures ok <==> !Unreadable(f.size, f.offset, v.store.bpc)
    ensures ReadOk(v, f, cl) && FileBytes(v, f, cl) == old(FileBytes(v, f, cl)) && v.Links() == old(v.Links())
    ensures ok ==> Times(f.bufStart, v.store.bpc) <= f.offset < Times(f.bufStart, v.store.bpc) + f.bufValid
  {
    hide LinksOf, Chain, FlatOf, RunBytes, RemainingClusters, Times, ClusterOf, Holds, Unreadable, OnDisk, Neighbours;
    var bpc := v.store.bpc;
    var clusterIdx := ClusterOf(f.offset, bpc);
    OffsetPlace(f.offset, f.size, |cl|, bpc);
    ok := SeekCursor(v, f, clusterIdx, cl);
    if !ok {
      assert false;
    }
    var want := Min(BufferClusters(bpc), RemainingClusters(f.size, Times(clusterIdx, bpc), bpc));
    if want == 0 {
      f.bufValid := 0;
      DroppedBuffer(f.buf, Times(f.bufStart, bpc), f.size, FlatOf(v.store.data, bpc, cl));
      return false;
    }
    var n := CountRun(v, f, want, cl, clusterIdx);
    BufferSmall(n, bpc);
    LoadRun(v, f, n, cl);
  }

  /** What is loaded at once fits the buffer. */
  lemma BufferSmall(n: nat, bpc: nat)
    requires 1 <= bpc <= 0x1_0000 && n <= BufferClusters(bpc)
    ensures Times(n, bpc) <= READ_BUF
  {
    MulMonotone(n, BufferClusters(bpc), bpc);
    assert READ_BUF / bpc * bpc <= READ_BUF;
  }

  lemma DroppedBuffer(buf: seq<byte>, start: nat, size: nat, flat: seq<byte>)
    ensures Holds(buf, 0, start, size, flat)
  {
  }

  /** What a read of at most `n` bytes delivers: the bytes of the file, but nothing from a cluster
    * that cannot be filled.
    */
  function ReadSpan(flat: seq<byte>, pos: nat, n: nat, bpc: nat): seq<byte> {
    if pos >= |flat| || Unreadable(|flat|, pos, bpc) then [] else flat[pos..Min(pos + Min(n, IPC_BUF), |flat|)]
  }

  /** A read delivers the bytes of the file exactly when it starts in a cluster that can be filled,
    * or there is nothing to deliver.
    */
  lemma ReadsTheFile(flat: seq<byte>, pos: nat, n: nat, bpc: nat)
    ensures ReadSpan(flat, pos, n, bpc) == (if pos >= |flat| then [] else flat[pos..Min(pos + Min(n, IPC_BUF), |flat|)])
            <==> pos >= |flat| || n == 0 || !Unreadable(|flat|, pos, bpc)
  {
    if pos < |flat| && n > 0 {
      assert |flat[pos..Min(pos + Min(n, IPC_BUF), |flat|)]| >= 1;
    }
  }

  /** The largest file a directory entry can describe delivers nothing at its start. */
  lemma LargestFileUnreadable(flat: seq<byte>, n: nat)
    requires |flat| == 0xFFFF_FFFF
    ensures ReadSpan(flat, 0, n, 4096) == [] && RemainingClusters(0xFFFF_FFFF, 0, 4096) == 0
  {
  }

  /** The offset is in the span the buffer covers, in 32-bit arithmetic. */
  function InSpan(start: nat, valid: nat, offset: nat): bool {
    valid > 0 && start <= offset < (start + valid) % 0x1_0000_0000
  }

  lemma InSpanIs(start: nat, valid: nat, offset: nat)
    requires InSpan(start, valid, offset)
    ensures start <= offset < start + valid
  {
  }

  /** One copy out of the buffer, refilled first if the offset is outside of it. */
  method ReadChunk(v: Fat32, f: Fd, left: nat, ghost cl: seq<nat>) returns (ok: bool, part: seq<byte>)
    requires ReadOk(v, f, cl) && f.offset + left <= f.size && left >= 1
    modifies v.fat, f`cur, f`curIdx, f`wpCluster, f`wpIdx, f`buf, f`bufValid, f`bufPos, f`bufStart, f`offset
    ensures ReadOk(v, f, cl) && FileBytes(v, f, cl) == old(FileBytes(v, f, cl)) && v.Links() == old(v.Links())
    ensures ok <==> !Unreadable(f.size, old(f.offset), v.store.bpc)
    ensures f.size == |FileBytes(v, f, cl)| && (!ok ==> f.offset == old(f.offset) && part == [])
    ensures ok ==> 1 <= |part| <= left && f.offset == old(f.offset) + |part| <= f.size
    ensures ok ==> part == FileBytes(v, f, cl)[old(f.offset)..f.offset]
  {
    hide LinksOf, Chain, FlatOf, Times, Holds, OnDisk, WaypointsOk, Unreadable, InSpan;
    var spanStart := Times(f.bufStart, v.store.bpc);
    ok := true;
    if InSpan(spanStart, f.bufValid, f.offset) {
      InSpanIs(spanStart, f.bufValid, f.offset);
      LaterReadable(f.size, spanStart, f.offset, v.store.bpc);
    } else {
      ok := FillRead(v, f, cl);
      if !ok {
        return false, [];
      }
      spanStart := Times(f.bufStart, v.store.bpc);
    }
    var offInBuf := f.offset - spanStart;
    var chunk := Min(left, f.bufValid - offInBuf);
    BufferShows(v, f, cl, offInBuf, chunk);
    part := f.buf[offInBuf..offInBuf + chunk];
    f.offset := f.offset + chunk;
  }

  lemma LaterReadable(size: nat, a: nat, b: nat, bpc: nat)
    requires !Unreadable(size, a, bpc) && a <= b
    ensures !Unreadable(size, b, bpc)
  {
  }

  lemma SpanJoined(flat: seq<byte>, a: nat, b: nat, c: nat)
    requires a <= b <= c <= |flat|
    ensures flat[a..b] + flat[b..c] == flat[a..c]
  {
  }

  /** Bytes a read asks for: not past the end of the file, and not more than a message holds. */
  function Asked(offset: nat, size: nat, n: nat): nat
    requires offset < size
  {
    Min(if offset + n > size then size - offset else n, IPC_BUF)
  }

  lemma AskedSpan(flat: seq<byte>, pos: nat, n: nat, bpc: nat, out: seq<byte>)
    requires pos < |flat| && pos + Asked(pos, |flat|, n) <= |flat|
    requires out == if Unreadable(|flat|, pos, bpc) then [] else flat[pos..pos + Asked(pos, |flat|, n)]
    ensures out == ReadSpan(flat, pos, n, bpc)
  {
  }

  /** Read from the offset on. */
  method ReadFd(v: Fat32, f: Fd, n: nat, ghost cl: seq<nat>) returns (out: seq<byte>)
    requires ReadOk(v, f, cl)
    modifies v.fat, f`cur, f`curIdx, f`wpCluster, f`wpIdx, f`buf, f`bufValid, f`bufPos, f`bufStart, f`offset
    ensures ReadOk(v, f, cl) && FileBytes(v, f, cl) == old(FileBytes(v, f, cl)) && v.Links() == old(v.Links())
    ensures out == ReadSpan(FileBytes(v, f, cl), old(f.offset), n, v.store.bpc) && f.offset == old(f.offset) + |out|
  {
    hide ReadOk, LinksOf, FileBytes, Unreadable, ReadSpan, Chain, CursorOk;
    CoversSize(v, f, cl);
    out := [];
    ghost var flat, off0, bpc := FileBytes(v, f, cl), f.offset, v.store.bpc;
    if f.offset >= f.size {
      NothingLeft(flat, off0, n, bpc);
      return;
    }
    var size := Asked(f.offset, f.size, n);
    while |out| < size
      invariant ReadOk(v, f, cl) && FileBytes(v, f, cl) == flat && v.Valid() && v.Links() == old(v.Links())
      invariant |out| <= size && off0 + size <= |flat| == f.size && f.offset == off0 + |out| && out == flat[off0..f.offset]
      invariant out != [] ==> !Unreadable(f.size, off0, bpc)
      decreases size - |out|
    {
      var ok, part := ReadChunk(v, f, size - |out|, cl);
      CoversSize(v, f, cl);
      if !ok {
        if out != [] {
          LaterReadable(f.size, off0, f.offset, bpc);
        }
        break;
      }
      SpanJoined(flat, off0, off0 + |out|, f.offset);
      if out == [] {
        assert f.offset == off0 + |part|;
      }
      out := out + part;
    }
    AskedSpan(flat, off0, n, bpc, out);
  }

  lemma NothingLeft(flat: seq<byte>, pos: nat, n: nat, bpc: nat)
    requires pos >= |flat|
    ensures ReadSpan(flat, pos, n, bpc) == []
  {
  }

  lemma SliceOfSlice(s: seq<byte>, a: nat, b: nat, c: nat, d: nat)
    requires a <= b <= |s| && c <= d <= b - a
    ensures s[a..b][c..d] == s[a + c..a + d]
  {
    var l, r := s[a..b][c..d], s[a + c..a + d];
    assert |l| == |r| && forall i :: 0 <= i < |l| ==> l[i] == r[i];
  }

  /** The buffer shows the file's bytes. */
  lemma BufferShows(v: Fat32, f: Fd, cl: seq<nat>, off: nat, n: nat)
    requires ReadOk(v, f, cl) && off + n <= f.bufValid && f.bufValid > 0 && Times(f.bufStart, v.store.bpc) + off + n <= f.size
    ensures f.bufValid <= |f.buf| && f.size == |FileBytes(v, f, cl)|
    ensures f.buf[off..off + n] == FileBytes(v, f, cl)[Times(f.bufStart, v.store.bpc) + off..Times(f.bufStart, v.store.bpc) + off + n]
  {
    hide LinksOf, Chain, FlatOf, Times, OnDisk, CursorOk;
    var flat, start := FlatOf(v.store.data, v.store.bpc, cl), Times(f.bufStart, v.store.bpc);
    FlatLength(v.store.data, v.store.bpc, cl);
    SliceOfSlice(f.buf, 0, f.bufValid, off, off + n);
    SliceOfSlice(flat, start, start + f.bufValid, off, off + n);
    SliceOfSlice(flat, 0, f.size, start + off, start + off + n);
  }

  // ---- seeking ----

  datatype Whence = FromStart | FromCurrent | FromEnd

  /** A 64-bit word read as a signed number. */
  function Signed64(n: int): int {
    (n + 0x8000_0000_0000_0000) % 0x1_0000_0000_0000_0000 - 0x8000_0000_0000_0000
  }

  /** Where a seek counts from. */
  function Origin(offset: nat, size: nat, whence: Whence): nat {
    match whence
    case FromStart => 0
    case FromCurrent => offset
    case FromEnd => size
  }

  /** The position a seek asks for, in 64-bit arithmetic. */
  function Target(offset: nat, size: nat, off: int, whence: Whence): int {
    Signed64(Origin(offset, size, whence) + Signed64(off))
  }

  /** A distance that fits 64 bits leads to the origin plus it, unless that is 2^63 or more; then, as
    * for a position before the start, the target is negative and the seek is refused.
    */
  lemma TargetExact(offset: nat, size: nat, off: int, whence: Whence)
    requires offset <= 0xFFFF_FFFF && size <= 0xFFFF_FFFF && -0x8000_0000_0000_0000 <= off < 0x8000_0000_0000_0000
    ensures var np := off + match whence case FromStart => 0 case FromCurrent => offset case FromEnd => size;
            if np < 0x8000_0000_0000_0000 then Target(offset, size, off, whence) == np else Target(offset, size, off, whence) < 0
  {
    assert Signed64(off) == off;
  }

  /** Where a seek on a file that is only read ends up; none if it is refused. */
  function SeekTo(offset: nat, size: nat, off: int, whence: Whence): int {
    var np := Target(offset, size, off, whence);
    if np < 0 then -1 else if np > size then size else np
  }

  /** A seek to position `np` of a file of `size` bytes: refused if that is negative or no 64-bit number, and else
    * there, or at the end of the file if that comes first.
    */
  predicate Sought(pos: nat, size: nat, np: int, ok: bool, pos': nat) {
    (ok <==> 0 <= np < 0x8000_0000_0000_0000) && pos' == if ok then Min(np, size) else pos
  }

  /** The distance is a signed 64-bit number and the position one of this file system. */
  predicate Plausible(pos: nat, off: int) {
    pos <= 0xFFFF_FFFF && -0x8000_0000_0000_0000 <= off < 0x8000_0000_0000_0000
  }

  lemma SoughtExactly(pos: nat, size: nat, off: int, whence: Whence)
    requires size <= 0xFFFF_FFFF
    ensures Plausible(pos, off) ==>
              var ok := Target(pos, size, off, whence) >= 0;
              var pos' := if ok then SeekTo(pos, size, off, whence) else pos;
              && (whence.FromStart? ==> Sought(pos, size, off, ok, pos'))
              && (whence.FromCurrent? ==> Sought(pos, size, pos + off, ok, pos'))
              && (whence.FromEnd? ==> Sought(pos, size, size + off, ok, pos'))
  {
    hide Target;
    if Plausible(pos, off) {
      TargetExact(pos, size, off, whence);
    }
  }

  /** Seek on a handle that only reads: from the start, from where it is, or from the end. */
  method SeekFd(v: Fat32, f: Fd, off: int, whence: Whence, ghost cl: seq<nat>) returns (ok: bool)
    requires ReadOk(v, f, cl) && !f.writable
    modifies f`offset, f`bufValid, f`bufPos
    ensures ReadOk(v, f, cl) && FileBytes(v, f, cl) == old(FileBytes(v, f, cl))
    ensures ok <==> Target(old(f.offset), f.size, off, whence) >= 0
    ensures f.offset == if ok then SeekTo(old(f.offset), f.size, off, whence) else old(f.offset)
    ensures Plausible(old(f.offset), off) ==>
              var pos, size := old(f.offset), |FileBytes(v, f, cl)|;
              && (whence.FromStart? ==> Sought(pos, size, off, ok, f.offset))
              && (whence.FromCurrent? ==> Sought(pos, size, pos + off, ok, f.offset))
              && (whence.FromEnd? ==> Sought(pos, size, size + off, ok, f.offset))
  {
    SoughtExactly(f.offset, f.size, off, whence);
    hide LinksOf, Chain, FlatOf, OnDisk, Target, Sought, Plausible;
    CoversSize(v, f, cl);
    var np := Target(f.offset, f.size, off, whence);
    if np < 0 {
      return false;
    }
    if !f.writable && np > f.size {
      np := f.size;
    }
    if np > 0xFFFF_FFFF {
      return false;
    }
    f.offset := np;
    if !InSpan(Times(f.bufStart, v.store.bpc), f.bufValid, f.offset) {
      f.bufValid := 0;
      f.bufPos := 0;
    }
    ok := true;
  }

  // ---- runs of reads and seeks ----

  datatype FdOp = FdRead(n: nat) | FdSeek(off: int, whence: Whence)

  /** The position of a flat array's cursor after an operation. */
  function PosAfter(flat: seq<byte>, pos: nat, op: FdOp, bpc: nat): nat {
    match op
    case FdRead(n) => pos + |ReadSpan(flat, pos, n, bpc)|
    case FdSeek(off, whence) => if Target(pos, |flat|, off, whence) < 0 then pos else SeekTo(pos, |flat|, off, whence)
  }

  function PosAt(flat: seq<byte>, pos: nat, ops: seq<FdOp>, bpc: nat): nat {
    if ops == [] then pos else PosAfter(flat, PosAt(flat, pos, ops[..|ops| - 1], bpc), ops[|ops| - 1], bpc)
  }

  function Delivers(flat: seq<byte>, pos: nat, op: FdOp, bpc: nat): seq<byte> {
    if op.FdRead? then ReadSpan(flat, pos, op.n, bpc) else []
  }

  method DoFd(v: Fat32, f: Fd, op: FdOp, ghost cl: seq<nat>) returns (out: seq<byte>)
    requires ReadOk(v, f, cl) && !f.writable
    modifies v.fat, f`cur, f`curIdx, f`wpCluster, f`wpIdx, f`buf, f`bufValid, f`bufPos, f`bufStart, f`offset
    ensures ReadOk(v, f, cl) && FileBytes(v, f, cl) == old(FileBytes(v, f, cl)) && v.Links() == old(v.Links())
    ensures out == Delivers(FileBytes(v, f, cl), old(f.offset), op, v.store.bpc) && f.offset == PosAfter(FileBytes(v, f, cl), old(f.offset), op, v.store.bpc)
  {
    hide LinksOf, Chain, FlatOf, OnDisk;
    out := [];
    match op {
      case FdRead(n) =>
        out := ReadFd(v, f, n, cl);
      case FdSeek(off, whence) =>
        var _ := SeekFd(v, f, off, whence, cl);
    }
  }

  /** What a run of reads and seeks over flat bytes delivers. */
  predicate Ran(flat: seq<byte>, pos: nat, ops: seq<FdOp>, bpc: nat, outs: seq<seq<byte>>) {
    |outs| == |ops| && forall i :: 0 <= i < |ops| ==> outs[i] == Delivers(flat, PosAt(flat, pos, ops[..i], bpc), ops[i], bpc)
  }

  /** The file can be read from its start. */
  predicate AllReadable(flat: seq<byte>, bpc: nat) {
    |flat| + bpc <= 0x1_0000_0000
  }

  /** The position stays in the file. */
  lemma {:induction false} PosInside(flat: seq<byte>, pos: nat, ops: seq<FdOp>, bpc: nat)
    requires pos <= |flat|
    ensures PosAt(flat, pos, ops, bpc) <= |flat|
  {
    if ops != [] {
      PosInside(flat, pos, ops[..|ops| - 1], bpc);
    }
  }

  /** The position after one more operation. */
  lemma PosNext(flat: seq<byte>, pos: nat, ops: seq<FdOp>, i: nat, bpc: nat)
    requires i < |ops|
    ensures PosAt(flat, pos, ops[..i + 1], bpc) == PosAfter(flat, PosAt(flat, pos, ops[..i], bpc), ops[i], bpc)
  {
    assert ops[..i + 1][..i] == ops[..i];
  }

  /** Seeking by nothing from where the handle is changes nothing. */
  lemma SeekNowhere(flat: seq<byte>, pos: nat, ops: seq<FdOp>, i: nat, bpc: nat)
    requires pos <= |flat| <= 0xFFFF_FFFF && i < |ops| && ops[i] == FdSeek(0, FromCurrent)
    ensures PosAt(flat, pos, ops[..i + 1], bpc) == PosAt(flat, pos, ops[..i], bpc)
  {
    PosNext(flat, pos, ops, i, bpc);
    PosInside(flat, pos, ops[..i], bpc);
    TargetExact(PosAt(flat, pos, ops[..i], bpc), |flat|, 0, FromCurrent);
  }

  /** What one seek that fits does to the position. */
  lemma SeekAfter(flat: seq<byte>, pos: nat, off: int, whence: Whence, np: int, bpc: nat)
    requires pos <= |flat| <= 0xFFFF_FFFF && -0x8000_0000 <= off <= 0xFFFF_FFFF
    requires np == off + match whence case FromStart => 0 case FromCurrent => pos case FromEnd => |flat|
    ensures PosAfter(flat, pos, FdSeek(off, whence), bpc) == if np < 0 then pos else Min(np, |flat|)
  {
    hide Target;
    TargetExact(pos, |flat|, off, whence);
  }

  /** Seeking to `k` bytes from the start and reading `n` delivers the bytes from there. */
  lemma SeekAndRead(flat: seq<byte>, pos: nat, ops: seq<FdOp>, i: nat, bpc: nat, outs: seq<seq<byte>>, k: nat, n: nat)
    requires Ran(flat, pos, ops, bpc, outs) && |flat| <= 0xFFFF_FFFF && AllReadable(flat, bpc) && pos <= |flat|
    requires i + 1 < |ops| && ops[i] == FdSeek(k, FromStart) && ops[i + 1] == FdRead(n) && k + n <= |flat| && n <= 65536
    ensures outs[i + 1] == flat[k..k + n]
  {
    hide PosAt, PosAfter;
    PosNext(flat, pos, ops, i, bpc);
    PosInside(flat, pos, ops[..i], bpc);
    SeekAfter(flat, PosAt(flat, pos, ops[..i], bpc), k, FromStart, k, bpc);
    assert outs[i + 1] == Delivers(flat, PosAt(flat, pos, ops[..i + 1], bpc), ops[i + 1], bpc);
  }

  /** Seeking to `n` bytes before the end and reading `n` delivers the last `n` bytes. */
  lemma SeekBackAndRead(flat: seq<byte>, pos: nat, ops: seq<FdOp>, i: nat, bpc: nat, outs: seq<seq<byte>>, n: nat)
    requires Ran(flat, pos, ops, bpc, outs) && |flat| <= 0xFFFF_FFFF && AllReadable(flat, bpc) && pos <= |flat|
    requires i + 1 < |ops| && ops[i] == FdSeek(0 - n, FromEnd) && ops[i + 1] == FdRead(n) && n <= |flat| && n <= 65536
    ensures outs[i + 1] == flat[|flat| - n..]
  {
    hide PosAt, PosAfter;
    PosNext(flat, pos, ops, i, bpc);
    PosInside(flat, pos, ops[..i], bpc);
    SeekAfter(flat, PosAt(flat, pos, ops[..i], bpc), 0 - n, FromEnd, |flat| - n, bpc);
    assert outs[i + 1] == Delivers(flat, PosAt(flat, pos, ops[..i + 1], bpc), ops[i + 1], bpc);
  }

  /** The bytes delivered by reads one after the other. */
  function Joined(outs: seq<seq<byte>>): seq<byte> {
    if outs == [] then [] else Joined(outs[..|outs| - 1]) + outs[|outs| - 1]
  }

  /** Reads one after the other deliver the file from where they start, without gap or overlap. */
  lemma {:induction false} ReadsInOrder(flat: seq<byte>, pos: nat, ops: seq<FdOp>, bpc: nat, outs: seq<seq<byte>>)
    requires Ran(flat, pos, ops, bpc, outs) && AllReadable(flat, bpc) && pos <= |flat| && forall i :: 0 <= i < |ops| ==> ops[i].FdRead?
    ensures var p := PosAt(flat, pos, ops, bpc); pos <= p <= |flat| && Joined(outs) == flat[pos..p]
    decreases |ops|
  {
    hide Ran, Delivers, PosAfter;
    if ops == [] {
      NoneRan(flat, pos, ops, bpc, outs);
    } else {
      var n := |ops| - 1;
      RanFewer(flat, pos, ops, bpc, outs);
      ReadsInOrder(flat, pos, ops[..n], bpc, outs[..n]);
      var p := PosAt(flat, pos, ops[..n], bpc);
      ReadOne(flat, p, ops[n], bpc);
      Spliced(flat, pos, p, PosAfter(flat, p, ops[n], bpc));
    }
  }

  lemma NoneRan(flat: seq<byte>, pos: nat, ops: seq<FdOp>, bpc: nat, outs: seq<seq<byte>>)
    requires Ran(flat, pos, ops, bpc, outs) && ops == []
    ensures outs == []
  {
  }

  /** Each of them as many bytes as asked for, up to a message and to the end of the file. */
  lemma ReadLength(flat: seq<byte>, pos: nat, ops: seq<FdOp>, bpc: nat, outs: seq<seq<byte>>, i: nat)
    requires Ran(flat, pos, ops, bpc, outs) && AllReadable(flat, bpc) && pos <= |flat| && i < |ops| && ops[i].FdRead?
    ensures |outs[i]| == Min(Min(ops[i].n, 65536), |flat| - PosAt(flat, pos, ops[..i], bpc))
  {
    hide PosAt;
    PosInside(flat, pos, ops[..i], bpc);
    ReadOne(flat, PosAt(flat, pos, ops[..i], bpc), ops[i], bpc);
  }

  lemma ReadOne(flat: seq<byte>, p: nat, op: FdOp, bpc: nat)
    requires p <= |flat| && AllReadable(flat, bpc) && op.FdRead?
    ensures var q := PosAfter(flat, p, op, bpc); p <= q <= |flat| && Delivers(flat, p, op, bpc) == flat[p..q] && q - p == Min(Min(op.n, 65536), |flat| - p)
  {
  }

  lemma RanFewer(flat: seq<byte>, pos: nat, ops: seq<FdOp>, bpc: nat, outs: seq<seq<byte>>)
    requires Ran(flat, pos, ops, bpc, outs) && ops != []
    ensures |outs| == |ops| && Ran(flat, pos, ops[..|ops| - 1], bpc, outs[..|ops| - 1])
    ensures outs[|ops| - 1] == Delivers(flat, PosAt(flat, pos, ops[..|ops| - 1], bpc), ops[|ops| - 1], bpc)
  {
    hide PosAt, Delivers;
    var n := |ops| - 1;
    forall i | 0 <= i < n
      ensures outs[..n][i] == Delivers(flat, PosAt(flat, pos, ops[..n][..i], bpc), ops[..n][i], bpc)
    {
      assert ops[..n][..i] == ops[..i];
    }
  }

  lemma Spliced(s: seq<byte>, a: nat, b: nat, c: nat)
    requires a <= b <= c <= |s|
    ensures s[a..b] + s[b..c] == s[a..c]
  {
  }

  /** Any interleaving of reads and seeks is one over the flat bytes of the file. */
  method RunFd(v: Fat32, f: Fd, ops: seq<FdOp>, ghost cl: seq<nat>) returns (outs: seq<seq<byte>>)
    requires ReadOk(v, f, cl) && !f.writable
    modifies v.fat, f`cur, f`curIdx, f`wpCluster, f`wpIdx, f`buf, f`bufValid, f`bufPos, f`bufStart, f`offset
    ensures ReadOk(v, f, cl) && FileBytes(v, f, cl) == old(FileBytes(v, f, cl)) && v.Links() == old(v.Links())
    ensures f.offset == PosAt(FileBytes(v, f, cl), old(f.offset), ops, v.store.bpc)
    ensures Ran(FileBytes(v, f, cl), old(f.offset), ops, v.store.bpc, outs)
  {
    hide LinksOf, Chain, FlatOf, OnDisk, ReadOk, FileBytes, PosAfter, Delivers;
    CoversSize(v, f, cl);
    outs := [];
    ghost var flat, pos0 := FileBytes(v, f, cl), f.offset;
    for i := 0 to |ops|
      invariant ReadOk(v, f, cl) && FileBytes(v, f, cl) == flat && v.Valid() && v.Links() == old(v.Links()) && !f.writable
      invariant |outs| == i && f.offset == PosAt(flat, pos0, ops[..i], v.store.bpc)
      invariant forall j :: 0 <= j < i ==> outs[j] == Delivers(flat, PosAt(flat, pos0, ops[..j], v.store.bpc), ops[j], v.store.bpc)
    {
      assert ops[..i + 1][..i] == ops[..i];
      var out := DoFd(v, f, ops[i], cl);
      outs := outs + [out];
      CoversSize(v, f, cl);
    }
    assert ops[..|ops|] == ops;
  }
}
