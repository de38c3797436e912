/** The data clusters of a FAT32 volume behind the three-slot cluster cache. */
module FatClusters {
  import opened Bytes

  const SLOT_BYTES: nat := 65536
  const CLOCK_LIMIT: nat := 0x1_0000_0000

  function ZeroBytes(n: nat): (b: seq<byte>)
    ensures |b| == n && forall i :: 0 <= i < n ==> b[i] == 0
  {
    seq(n, _ => 0)
  }

  /** Which cluster a slot holds (0 for none), its use stamp and its bytes. `used` is the time of
    * its last use, which the stamp is as long as the 32-bit clock has not wrapped.
    */
  datatype Slot = Slot(cluster: nat, stamp: nat, bytes: seq<byte>, ghost used: nat)

  /** Occupied slots hold what the disk holds, and no cluster is in two of them. */
  ghost predicate SlotsOk(data: seq<seq<byte>>, bpc: nat, slots: seq<Slot>) {
    && |slots| == 3
    && (forall c :: 0 <= c < |data| ==> |data[c]| == bpc)
    && (forall i :: 0 <= i < 3 && slots[i].cluster != 0 ==>
          bpc <= SLOT_BYTES && slots[i].cluster < |data| && slots[i].bytes == data[slots[i].cluster])
    && forall i, j :: 0 <= i < j < 3 && slots[i].cluster != 0 ==> slots[i].cluster != slots[j].cluster
  }

  /** The stamps are the times of last use until the clock wraps. */
  ghost predicate StampsOk(slots: seq<Slot>, clock: nat, time: nat) {
    && |slots| == 3 && (time < CLOCK_LIMIT ==> clock == time)
    && forall i :: 0 <= i < 3 ==> slots[i].used <= time && (time < CLOCK_LIMIT ==> slots[i].stamp == slots[i].used)
  }

  class ClusterStore {
    const bpc: nat
    var data: seq<seq<byte>>
    var slots: seq<Slot>
    var clock: nat
    ghost var time: nat

    /** A store with an empty cache, as after a mount. */
    constructor (bpc: nat, data: seq<seq<byte>>)
      requires forall c :: 0 <= c < |data| ==> |data[c]| == bpc
      ensures Valid() && this.bpc == bpc && this.data == data
    {
      this.bpc, this.data := bpc, data;
      slots := [Slot(0, 0, [], 0), Slot(0, 0, [], 0), Slot(0, 0, [], 0)];
      clock, time := 0, 0;
    }

    ghost predicate Valid()
      reads this
    {
      SlotsOk(data, bpc, slots) && StampsOk(slots, clock, time)
    }

    /** Advance the 32-bit clock. */
    method Tick() returns (stamp: nat)
      modifies this`clock, this`time
      ensures time == old(time) + 1 && stamp == clock == (old(clock) + 1) % CLOCK_LIMIT
    {
      clock := (clock + 1) % CLOCK_LIMIT;
      time := time + 1;
      stamp := clock;
    }

    /** The slot a cluster is in, or 3. */
    method Find(cluster: nat) returns (i: nat)
      requires |slots| == 3
      ensures i <= 3 && (i < 3 ==> slots[i].cluster == cluster) && forall j :: 0 <= j < i ==> slots[j].cluster != cluster
    {
      i := 0;
      while i < 3 && slots[i].cluster != cluster
        invariant i <= 3 && forall j :: 0 <= j < i ==> slots[j].cluster != cluster
      {
        i := i + 1;
      }
    }

    /** The slot to reuse: an empty one if there is one, else the least recently used. */
    method Victim() returns (victim: nat)
      requires Valid()
      ensures victim < 3
      ensures (exists i :: 0 <= i < 3 && slots[i].cluster == 0) ==> slots[victim].cluster == 0
      ensures (forall i :: 0 <= i < 3 ==> slots[i].cluster != 0) && time < CLOCK_LIMIT ==>
                forall i :: 0 <= i < 3 ==> slots[victim].used <= slots[i].used
    {
      victim := 0;
      for i := 0 to 3
        invariant victim < 3 && forall j :: 0 <= j < i ==> slots[j].cluster != 0 && slots[victim].stamp <= slots[j].stamp
        invariant victim <= i
      {
        if slots[i].cluster == 0 {
          victim := i;
          return;
        }
        if slots[i].stamp < slots[victim].stamp {
          victim := i;
        }
      }
    }

    /** Read a cluster through the cache: what the disk holds. */
    method ReadCluster(cluster: nat) returns (ok: bool, buf: seq<byte>)
      requires Valid() && cluster < |data|
      modifies this`slots, this`clock, this`time
      ensures Valid() && (ok <==> cluster >= 2) && (ok ==> buf == data[cluster] && |buf| == bpc)
      ensures ok && bpc <= SLOT_BYTES ==> exists i :: 0 <= i < 3 && slots[i].cluster == cluster && slots[i].used == time
      ensures Evicted(old(slots), slots, cluster, old(time))
    {
      if cluster < 2 {
        return false, [];
      }
      var i := Find(cluster);
      if i < 3 {
        buf := slots[i].bytes;
        var stamp := Tick();
        slots := slots[i := Slot(cluster, stamp, buf, time)];
        assert slots[i].cluster == cluster && slots[i].used == time;
        return true, buf;
      }
      buf := data[cluster];
      var victim := Victim();
      if bpc <= SLOT_BYTES {
        var stamp := Tick();
        slots := slots[victim := Slot(cluster, stamp, buf, time)];
        assert slots[victim].cluster == cluster && slots[victim].used == time;
      }
      ok := true;
    }

    /** Write a cluster; a cached copy follows. */
    method WriteCluster(cluster: nat, buf: seq<byte>) returns (ok: bool)
      requires Valid() && cluster < |data| && |buf| == bpc
      modifies this`data, this`slots, this`clock, this`time
      ensures Valid() && (ok <==> cluster >= 2)
      ensures data == if ok then old(data)[cluster := buf] else old(data)
    {
      if cluster < 2 {
        return false;
      }
      data := data[cluster := buf];
      var i := Find(cluster);
      if i < 3 {
        var stamp := Tick();
        assert cluster != 0 ==> bpc <= SLOT_BYTES;
        slots := slots[i := Slot(cluster, stamp, buf, time)];
      }
      ok := true;
    }

    /** Drop a cluster from the cache. */
    method Invalidate(cluster: nat)
      requires Valid() && cluster >= 2
      modifies this`slots
      ensures Valid() && forall i :: 0 <= i < 3 ==> slots[i].cluster != cluster
      ensures forall i :: 0 <= i < 3 ==> slots[i] == old(slots)[i] || (old(slots)[i].cluster == cluster && slots[i].cluster == 0)
    {
      var i := Find(cluster);
      if i < 3 {
        slots := slots[i := slots[i].(cluster := 0)];
      }
    }

    /** Zero a cluster on the disk, past the cache, and drop its stale copy. */
    method ZeroCluster(cluster: nat)
      requires Valid() && 2 <= cluster < |data|
      modifies this`data, this`slots
      ensures Valid() && data == old(data)[cluster := ZeroBytes(bpc)]
    {
      Invalidate(cluster);
      data := data[cluster := ZeroBytes(bpc)];
    }
  }

  /** A read pushes out at most one cluster, and while a slot is empty none; what it pushes out
    * was not used after any that stays.
    */
  ghost predicate Evicted(slots: seq<Slot>, slots': seq<Slot>, cluster: nat, time: nat) {
    && |slots| == 3 == |slots'|
    && forall i :: 0 <= i < 3 && slots[i].cluster != 0 && slots'[i].cluster != slots[i].cluster ==>
         && slots'[i].cluster == cluster
         && (forall j :: 0 <= j < 3 ==> slots[j].cluster != 0 && slots[j].cluster != cluster)
         && (time < CLOCK_LIMIT ==> forall j :: 0 <= j < 3 ==> slots[i].used <= slots[j].used)
         && forall j :: 0 <= j < 3 && j != i ==> slots'[j] == slots[j]
  }
}
