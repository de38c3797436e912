/** The mounted exFAT volume: a disk of 512-byte sectors, the FAT with its one-sector
  * read cache, the allocation bitmap and the cluster allocator. Every operation works
  * on the sectors; what it does is stated on three ghost views of them:
  * `fat` (the link of each cluster), `used` (the clusters whose bitmap bit is set)
  * and `heap` (the sectors of each cluster outside the bitmap).
  */
module ExfatVolume {
  import opened Arith
  import opened Bytes
  import opened ExfatScan

  const FAT_BAD: nat := 0xFFFF_FFF7
  const FAT_EOC: nat := 0xFFFF_FFFF

  /** The volume's geometry in 512-byte sectors, with the location of the allocation
    * bitmap. `spc` is the number of sectors in a cluster.
    */
  datatype Geometry = Geometry(
    fatLba: nat, heapLba: nat, spc: nat, count: nat, bitmapCluster: nat, bitmapClusters: nat)
  {
    /** The first sector of cluster `c`. */
    function Lba(c: int): (r: nat)
      ensures r >= heapLba
      decreases c
    {
      if c <= 2 then heapLba else Lba(c - 1) + spc
    }

    function FatSectors(): nat {
      (count + 2 + 127) / 128
    }

    predicate IsCluster(c: int) {
      2 <= c < count + 2
    }

    predicate IsBitmap(c: int) {
      bitmapCluster <= c < bitmapCluster + bitmapClusters
    }

    predicate IsData(c: int) {
      IsCluster(c) && !IsBitmap(c)
    }

    // ---- where the bitmap bit of cluster `c` lives ----

    function BitLba(c: nat): nat
      requires c >= 2
    {
      Lba(bitmapCluster) + (c - 2) / 8 / 512
    }

    function BitByte(c: nat): (r: nat)
      requires c >= 2
      ensures r < 512
    {
      (c - 2) / 8 % 512
    }

    function BitPos(c: nat): (r: nat)
      requires c >= 2
      ensures r < 8
    {
      (c - 2) % 8
    }

    /** The FAT lies before the heap, the heap inside the 32-bit block layer, and the
      * bitmap is a run of clusters with a bit for every cluster.
      */
    predicate Valid() {
      && 1 <= spc
      && 1 <= count
      && fatLba + FatSectors() <= heapLba
      && Lba(count + 2) < 0x1_0000_0000
      && 2 <= bitmapCluster
      && 1 <= bitmapClusters
      && bitmapCluster + bitmapClusters <= count + 2
      && BitLba(count + 1) < Lba(bitmapCluster + bitmapClusters)
    }
  }

  // ---- geometry ----

  /** The recursive form of `Lba` is a multiplication by the cluster size. */
  lemma {:induction false} LbaClosed(g: Geometry, c: nat)
    requires c >= 2
    ensures g.Lba(c) == g.heapLba + (c - 2) * g.spc
  {
    if c > 2 {
      LbaClosed(g, c - 1);
      assert (c - 3) * g.spc + g.spc == (c - 2) * g.spc;
    }
  }

  /** Clusters do not overlap. */
  lemma {:induction false} LbaApart(g: Geometry, c: nat, d: nat)
    requires 2 <= c < d
    ensures g.Lba(c) + g.spc <= g.Lba(d)
    decreases d
  {
    if c + 1 < d {
      LbaApart(g, c, d - 1);
    }
  }

  /** A sector number and a cluster determine each other inside the heap. */
  lemma LbaInjective(g: Geometry, c: nat, s: nat, d: nat, t: nat)
    requires g.IsCluster(c) && g.IsCluster(d) && s < g.spc && t < g.spc
    ensures g.Lba(c) + s == g.Lba(d) + t <==> c == d && s == t
    ensures g.heapLba <= g.Lba(c) + s < g.Lba(g.count + 2)
  {
    LbaApart(g, c, g.count + 2);
    if c < d {
      LbaApart(g, c, d);
    } else if d < c {
      LbaApart(g, d, c);
    }
  }

  /** Every sector between two cluster starts belongs to a cluster between them. */
  lemma {:induction false} LbaCovers(g: Geometry, c: nat, d: nat, lba: nat) returns (b: nat, s: nat)
    requires 2 <= c <= d && g.Lba(c) <= lba < g.Lba(d)
    ensures c <= b < d && s < g.spc && lba == g.Lba(b) + s
    decreases d
  {
    if lba >= g.Lba(d - 1) {
      b, s := d - 1, lba - g.Lba(d - 1);
    } else {
      b, s := LbaCovers(g, c, d - 1, lba);
    }
  }

  /** Bitmap bits live in the clusters of the bitmap. */
  lemma BitLbaInBitmap(g: Geometry, c: nat) returns (b: nat, s: nat)
    requires g.Valid() && g.IsCluster(c)
    ensures g.IsBitmap(b) && g.IsCluster(b) && s < g.spc && g.BitLba(c) == g.Lba(b) + s
  {
    b, s := LbaCovers(g, g.bitmapCluster, g.bitmapCluster + g.bitmapClusters, g.BitLba(c));
  }

  /** Two clusters share a bitmap position only when they are the same cluster. */
  lemma BitInjective(g: Geometry, c: nat, d: nat)
    requires c >= 2 && d >= 2
    requires g.BitLba(c) == g.BitLba(d) && g.BitByte(c) == g.BitByte(d) && g.BitPos(c) == g.BitPos(d)
    ensures c == d
  {
    assert (c - 2) / 8 == (d - 2) / 8;
  }

  /** The FAT before the heap leaves room for fewer clusters than there are markers to tell apart. */
  lemma CountBelow(g: Geometry)
    requires g.Valid()
    ensures g.count + 2 < FAT_BAD
  {
    LbaClosed(g, g.count + 2);
    MulMonotone(1, g.spc, g.count);
  }

  // ---- the views ----

  ghost predicate FatMatches(g: Geometry, disk: seq<Sector>, fat: seq<nat>)
    requires g.Valid()
  {
    && |disk| >= g.Lba(g.count + 2)
    && |fat| == g.count + 2
    && forall c :: 0 <= c < |fat| ==> fat[c] == Rd32(disk[g.fatLba + c / 128], c % 128 * 4)
  }

  ghost predicate SectorShown(g: Geometry, disk: seq<Sector>, heap: seq<seq<Sector>>, c: int, s: int) {
    && 0 <= c < |heap| && 0 <= s < |heap[c]|
    && g.Lba(c) + s < |disk| && heap[c][s] == disk[g.Lba(c) + s]
  }

  ghost predicate HeapMatches(g: Geometry, disk: seq<Sector>, heap: seq<seq<Sector>>)
    requires g.Valid()
  {
    && |heap| == g.count + 2
    && (forall c :: g.IsCluster(c) ==> |heap[c]| == g.spc)
    && forall c, s :: g.IsData(c) && 0 <= s < g.spc ==> SectorShown(g, disk, heap, c, s)
  }

  ghost predicate BitmapBit(g: Geometry, disk: seq<Sector>, c: nat)
    requires c >= 2 && g.BitLba(c) < |disk|
  {
    TestBit(disk[g.BitLba(c)][g.BitByte(c)], g.BitPos(c))
  }

  ghost predicate UsedMatches(g: Geometry, disk: seq<Sector>, used: set<nat>)
    requires g.Valid()
  {
    && (forall c :: c in used ==> g.IsCluster(c))
    && (forall c :: g.IsCluster(c) && g.IsBitmap(c) ==> c in used)
    && forall c :: g.IsCluster(c) ==>
         g.BitLba(c) < |disk| && (c in used <==> BitmapBit(g, disk, c))
  }

  /** `heap` with sector `s` of cluster `c` rewritten. */
  ghost function HeapPut(heap: seq<seq<Sector>>, c: nat, s: nat, sec: Sector): (r: seq<seq<Sector>>)
    requires c < |heap| && s < |heap[c]|
    ensures |r| == |heap|
    ensures forall d :: 0 <= d < |heap| ==> |r[d]| == |heap[d]|
    ensures forall d, t :: 0 <= d < |heap| && 0 <= t < |heap[d]| ==>
              r[d][t] == if d == c && t == s then sec else heap[d][t]
    ensures forall d :: 0 <= d < |heap| && d != c ==> r[d] == heap[d]
  {
    var row: seq<Sector> := heap[c][s := sec];
    heap[c := row]
  }

  /** The sectors of the heap hold the `heap` and `used` views. */
  lemma HeapSectorsDecide(g: Geometry, disk: seq<Sector>, disk': seq<Sector>, used: set<nat>, heap: seq<seq<Sector>>)
    requires g.Valid() && |disk| == |disk'| >= g.Lba(g.count + 2)
    requires HeapMatches(g, disk, heap) && UsedMatches(g, disk, used)
    requires forall l :: g.heapLba <= l < |disk| ==> disk'[l] == disk[l]
    ensures HeapMatches(g, disk', heap) && UsedMatches(g, disk', used)
  {
    forall d, s | g.IsData(d) && 0 <= s < g.spc
      ensures SectorShown(g, disk', heap, d, s)
    {
      assert SectorShown(g, disk, heap, d, s);
      LbaInjective(g, d, s, d, s);
    }
    forall d | g.IsCluster(d)
      ensures g.BitLba(d) < |disk'| && BitmapBit(g, disk', d) == BitmapBit(g, disk, d)
    {
      assert g.BitLba(d) >= g.heapLba;
    }
  }

  /** Rewriting one FAT entry changes that link... */
  lemma FatEntryWritten(g: Geometry, disk: seq<Sector>, fat: seq<nat>, c: nat, value: nat, sec: Sector)
    requires g.Valid() && FatMatches(g, disk, fat) && g.IsCluster(c) && value < 0x1_0000_0000
    requires sec == Put(disk[g.fatLba + c / 128], c % 128 * 4, Le32(value))
    ensures FatMatches(g, disk[g.fatLba + c / 128 := sec], fat[c := value])
  {
    var lba, off := g.fatLba + c / 128, c % 128 * 4;
    Rd32Put(disk[lba], off, value);
    forall d | 0 <= d < |fat| && d != c && d / 128 == c / 128
      ensures Rd32(sec, d % 128 * 4) == Rd32(disk[lba], d % 128 * 4)
    {
      Rd32PutElsewhere(disk[lba], off, Le32(value), d % 128 * 4);
    }
  }

  /** ... and nothing else. */
  lemma FatWriteKeepsHeap(g: Geometry, disk: seq<Sector>, used: set<nat>, heap: seq<seq<Sector>>, c: nat, sec: Sector)
    requires g.Valid() && |disk| >= g.Lba(g.count + 2) && g.IsCluster(c)
    requires HeapMatches(g, disk, heap) && UsedMatches(g, disk, used)
    ensures HeapMatches(g, disk[g.fatLba + c / 128 := sec], heap)
    ensures UsedMatches(g, disk[g.fatLba + c / 128 := sec], used)
  {
    HeapSectorsDecide(g, disk, disk[g.fatLba + c / 128 := sec], used, heap);
  }

  /** The sectors of the FAT hold the `fat` view. */
  lemma FatSectorsDecide(g: Geometry, disk: seq<Sector>, fat: seq<nat>, l: nat, sec: Sector)
    requires g.Valid() && FatMatches(g, disk, fat) && g.heapLba <= l < |disk|
    ensures FatMatches(g, disk[l := sec], fat)
  {
    var disk' := disk[l := sec];
    forall d | 0 <= d < |fat|
      ensures disk'[g.fatLba + d / 128] == disk[g.fatLba + d / 128]
    {
      assert g.fatLba + d / 128 < g.heapLba;
    }
  }

  /** Rewriting one sector of a data cluster changes that sector... */
  lemma HeapSectorWritten(g: Geometry, disk: seq<Sector>, heap: seq<seq<Sector>>, c: nat, s: nat, sec: Sector)
    requires g.Valid() && HeapMatches(g, disk, heap) && g.IsData(c) && s < g.spc
    requires g.Lba(c) + s < |disk|
    ensures HeapMatches(g, disk[g.Lba(c) + s := sec], HeapPut(heap, c, s, sec))
  {
    var disk', heap' := disk[g.Lba(c) + s := sec], HeapPut(heap, c, s, sec);
    forall d, t | g.IsData(d) && 0 <= t < g.spc
      ensures SectorShown(g, disk', heap', d, t)
    {
      assert SectorShown(g, disk, heap, d, t);
      LbaInjective(g, c, s, d, t);
    }
  }

  /** ... and no bitmap bit. */
  lemma HeapWriteKeepsBitmap(g: Geometry, disk: seq<Sector>, used: set<nat>, c: nat, s: nat, sec: Sector)
    requires g.Valid() && UsedMatches(g, disk, used) && g.IsData(c) && s < g.spc
    requires g.Lba(c) + s < |disk|
    ensures UsedMatches(g, disk[g.Lba(c) + s := sec], used)
  {
    var disk' := disk[g.Lba(c) + s := sec];
    forall d | g.IsCluster(d)
      ensures g.BitLba(d) < |disk'| && BitmapBit(g, disk', d) == BitmapBit(g, disk, d)
    {
      var b, t := BitLbaInBitmap(g, d);
      LbaInjective(g, c, s, b, t);
    }
  }

  /** The bitmap sector `sec` with the bit of cluster `c` set to `on`. */
  function BitmapSector(g: Geometry, sec: Sector, c: nat, on: bool): Sector
    requires c >= 2
  {
    sec[g.BitByte(c) := BitWritten(sec[g.BitByte(c)], g.BitPos(c), on)]
  }

  /** Rewriting one bitmap bit marks or frees that cluster... */
  lemma BitmapBitWritten(g: Geometry, disk: seq<Sector>, used: set<nat>, c: nat, on: bool)
    requires g.Valid() && UsedMatches(g, disk, used) && g.IsCluster(c) && (g.IsBitmap(c) ==> on)
    ensures g.BitLba(c) < |disk|
    ensures UsedMatches(g, disk[g.BitLba(c) := BitmapSector(g, disk[g.BitLba(c)], c, on)],
                        if on then used + {c} else used - {c})
  {
    var disk' := disk[g.BitLba(c) := BitmapSector(g, disk[g.BitLba(c)], c, on)];
    forall d | g.IsCluster(d)
      ensures g.BitLba(d) < |disk'| && BitmapBit(g, disk', d) == if d == c then on else BitmapBit(g, disk, d)
    {
      if g.BitLba(d) == g.BitLba(c) && g.BitByte(d) == g.BitByte(c) {
        WriteBitTests(disk[g.BitLba(c)][g.BitByte(c)], g.BitPos(c), on, g.BitPos(d));
        if g.BitPos(d) == g.BitPos(c) {
          BitInjective(g, c, d);
        }
      }
    }
  }

  /** ... and no data sector. */
  lemma BitmapWriteKeepsHeap(g: Geometry, disk: seq<Sector>, heap: seq<seq<Sector>>, c: nat, sec: Sector)
    requires g.Valid() && HeapMatches(g, disk, heap) && g.IsCluster(c)
    requires g.BitLba(c) < |disk|
    ensures HeapMatches(g, disk[g.BitLba(c) := sec], heap)
  {
    var b, s := BitLbaInBitmap(g, c);
    var disk' := disk[g.BitLba(c) := sec];
    forall d, t | g.IsData(d) && 0 <= t < g.spc
      ensures SectorShown(g, disk', heap, d, t)
    {
      assert SectorShown(g, disk, heap, d, t);
      LbaInjective(g, b, s, d, t);
    }
  }

  ghost predicate Matches(g: Geometry, disk: seq<Sector>, fat: seq<nat>, used: set<nat>, heap: seq<seq<Sector>>) {
    && g.Valid()
    && FatMatches(g, disk, fat)
    && HeapMatches(g, disk, heap)
    && UsedMatches(g, disk, used)
  }

  lemma FatWriteMatches(g: Geometry, disk: seq<Sector>, fat: seq<nat>, used: set<nat>, heap: seq<seq<Sector>>,
                        c: nat, value: nat, sec: Sector)
    requires Matches(g, disk, fat, used, heap) && g.IsCluster(c) && value < 0x1_0000_0000
    requires sec == Put(disk[g.fatLba + c / 128], c % 128 * 4, Le32(value))
    ensures Matches(g, disk[g.fatLba + c / 128 := sec], fat[c := value], used, heap)
  {
    FatEntryWritten(g, disk, fat, c, value, sec);
    FatWriteKeepsHeap(g, disk, used, heap, c, sec);
  }

  lemma SectorWriteMatches(g: Geometry, disk: seq<Sector>, fat: seq<nat>, used: set<nat>, heap: seq<seq<Sector>>,
                           c: nat, s: nat, sec: Sector)
    requires Matches(g, disk, fat, used, heap) && g.IsData(c) && s < g.spc
    ensures g.heapLba <= g.Lba(c) + s < |disk|
    ensures Matches(g, disk[g.Lba(c) + s := sec], fat, used, HeapPut(heap, c, s, sec))
  {
    assert SectorShown(g, disk, heap, c, s);
    HeapSectorWritten(g, disk, heap, c, s, sec);
    HeapWriteKeepsBitmap(g, disk, used, c, s, sec);
    FatSectorsDecide(g, disk, fat, g.Lba(c) + s, sec);
  }

  lemma BitmapWriteMatches(g: Geometry, disk: seq<Sector>, fat: seq<nat>, used: set<nat>, heap: seq<seq<Sector>>,
                           c: nat, on: bool)
    requires Matches(g, disk, fat, used, heap) && g.IsCluster(c) && (g.IsBitmap(c) ==> on)
    ensures g.heapLba <= g.BitLba(c) < |disk|
    ensures Matches(g, disk[g.BitLba(c) := BitmapSector(g, disk[g.BitLba(c)], c, on)], fat,
                    if on then used + {c} else used - {c}, heap)
  {
    BitmapBitWritten(g, disk, used, c, on);
    var sec := BitmapSector(g, disk[g.BitLba(c)], c, on);
    BitmapWriteKeepsHeap(g, disk, heap, c, sec);
    FatSectorsDecide(g, disk, fat, g.BitLba(c), sec);
  }

  lemma MatchesValid(g: Geometry, disk: seq<Sector>, fat: seq<nat>, used: set<nat>, heap: seq<seq<Sector>>)
    requires Matches(g, disk, fat, used, heap)
    ensures g.Valid()
  {
  }

  /** A bitmap bit read from its sector says whether the cluster is in use. */
  lemma BitmapBitShows(g: Geometry, disk: seq<Sector>, fat: seq<nat>, used: set<nat>, heap: seq<seq<Sector>>, c: nat)
    requires Matches(g, disk, fat, used, heap) && g.IsCluster(c)
    ensures g.BitLba(c) < |disk|
    ensures c in used <==> TestBit(disk[g.BitLba(c)][g.BitByte(c)], g.BitPos(c))
    ensures g.IsBitmap(c) ==> c in used
  {
    assert c in used <==> BitmapBit(g, disk, c);
  }

  // ---- chains ----

  function Elems(cl: seq<nat>): set<nat> {
    set c | c in cl
  }

  ghost predicate Distinct(cl: seq<nat>) {
    forall i, j :: 0 <= i < j < |cl| ==> cl[i] != cl[j]
  }

  /** A link that ends a chain walk. */
  predicate Ends(next: nat) {
    next < 2 || next >= FAT_BAD
  }

  /** Consecutive clusters of `cl` are linked, by the FAT or by being neighbours. */
  ghost predicate Linked(fat: seq<nat>, contiguous: bool, cl: seq<nat>) {
    forall i :: 0 <= i < |cl| - 1 ==>
      cl[i] < |fat| && cl[i + 1] == if contiguous then cl[i] + 1 else fat[cl[i]]
  }

  lemma ElemsPrefix(cl: seq<nat>, i: nat)
    requires i < |cl|
    ensures Elems(cl[..i + 1]) == Elems(cl[..i]) + {cl[i]}
  {
    assert cl[..i + 1] == cl[..i] + [cl[i]];
  }

  lemma ElemsAppend(cl: seq<nat>, c: nat)
    ensures Elems(cl + [c]) == Elems(cl) + {c}
  {
  }

  lemma ElemsConcat(a: seq<nat>, b: seq<nat>)
    ensures Elems(a + b) == Elems(a) + Elems(b)
  {
  }

  // ---- the volume ----

  class Volume {
    const g: Geometry
    var disk: seq<Sector>

    /** Lowest cluster worth trying on the next bitmap scan. */
    var nextFree: nat

    // the single-sector FAT cache
    var fatCache: Sector
    var fatCacheLba: nat
    var fatCacheValid: bool

    ghost var fat: seq<nat>
    ghost var used: set<nat>
    ghost var heap: seq<seq<Sector>>

    constructor (g: Geometry, disk: seq<Sector>, ghost fat: seq<nat>, ghost used: set<nat>, ghost heap: seq<seq<Sector>>)
      requires Matches(g, disk, fat, used, heap)
      ensures Valid() && this.g == g && this.disk == disk && this.fat == fat && this.used == used && this.heap == heap
    {
      this.g, this.disk := g, disk;
      this.nextFree := 0;
      this.fatCache, this.fatCacheLba, this.fatCacheValid := ZERO_SECTOR, 0, false;
      this.fat, this.used, this.heap := fat, used, heap;
    }

    ghost predicate Valid()
      reads this
    {
      && Matches(g, disk, fat, used, heap)
      && nextFree < g.count + 2
      && (fatCacheValid ==> fatCacheLba < g.heapLba && fatCache == disk[fatCacheLba])
    }

    /** The FAT entry of `cluster`, through the cache. */
    method FatNext(cluster: nat) returns (next: nat)
      requires Valid() && cluster < g.count + 2
      modifies this`fatCache, this`fatCacheLba, this`fatCacheValid
      ensures Valid()
      ensures next == fat[cluster]
    {
      var lba := g.fatLba + cluster / 128;
      if !fatCacheValid || fatCacheLba != lba {
        fatCache := disk[lba];
        fatCacheLba := lba;
        fatCacheValid := true;
      }
      next := Rd32(fatCache, cluster % 128 * 4);
    }

    /** Persist FAT[cluster] = value, keeping the cache coherent. */
    method FatSet(cluster: nat, value: nat)
      requires Valid() && g.IsCluster(cluster) && value < 0x1_0000_0000
      modifies this`disk, this`fat, this`fatCache
      ensures Valid()
      ensures fat == old(fat)[cluster := value]
    {
      var lba := g.fatLba + cluster / 128;
      var off := cluster % 128 * 4;
      var sec: Sector := Put(disk[lba], off, Le32(value));
      FatWriteMatches(g, disk, fat, used, heap, cluster, value, sec);
      disk := disk[lba := sec];
      if fatCacheValid && fatCacheLba == lba {
        fatCache := Put(fatCache, off, Le32(value));
      }
      fat := fat[cluster := value];
    }

    /** Sector `s` of a data cluster. */
    method ReadSector(cluster: nat, s: nat) returns (sec: Sector)
      requires Valid() && g.IsData(cluster) && s < g.spc
      ensures sec == heap[cluster][s]
    {
      assert SectorShown(g, disk, heap, cluster, s);
      sec := disk[g.Lba(cluster) + s];
    }

    method WriteSector(cluster: nat, s: nat, sec: Sector)
      requires Valid() && g.IsData(cluster) && s < g.spc
      modifies this`disk, this`heap
      ensures Valid()
      ensures heap == HeapPut(old(heap), cluster, s, sec)
    {
      SectorWriteMatches(g, disk, fat, used, heap, cluster, s, sec);
      disk := disk[g.Lba(cluster) + s := sec];
      heap := HeapPut(heap, cluster, s, sec);
    }

    method BitmapSetBit(cluster: nat, on: bool)
      requires Valid() && g.IsCluster(cluster) && (g.IsBitmap(cluster) ==> on)
      modifies this`disk, this`used
      ensures Valid()
      ensures used == if on then old(used) + {cluster} else old(used) - {cluster}
    {
      BitmapWriteMatches(g, disk, fat, used, heap, cluster, on);
      var sec := BitmapSector(g, disk[g.BitLba(cluster)], cluster, on);
      disk := disk[g.BitLba(cluster) := sec];
      used := if on then used + {cluster} else used - {cluster};
    }

    /** How many clusters the allocator delivers from here on. */
    ghost function Supply(): nat
      reads this`used, this`nextFree
    {
      Deliverable(g.count, used, nextFree)
    }

    /** The allocator finds nothing: every cluster is in use, or its scan passes by those that are not. */
    ghost predicate Full()
      reads this`used, this`nextFree
    {
      Supply() == 0
    }

    /** Take one free cluster, scanning the bitmap once around from the hint. */
    method AllocCluster() returns (nc: nat)
      requires Valid()
      modifies this`disk, this`used, this`nextFree
      ensures Valid()
      ensures nc == PickFrom(g.count, old(used), StartOf(g.count, old(nextFree)), 0)
      ensures nc == 0 ==> used == old(used) && nextFree == old(nextFree) && Full()
      ensures nc != 0 ==> g.IsData(nc) && nc !in old(used) && used == old(used) + {nc}
      ensures nc != 0 ==> nextFree == HintAfter(g.count, nc) && old(Supply()) == 1 + Supply()
    {
      hide Matches;
      var total := g.count;
      assert total >= 1 by { MatchesValid(g, disk, fat, used, heap); }
      var start := if nextFree >= 2 then nextFree else 2;
      assert start == StartOf(total, nextFree);
      var sec: Sector := ZERO_SECTOR;
      var cached: int := -1;
      for k := 0 to total
        invariant disk == old(disk) && used == old(used) && nextFree == old(nextFree) && Valid()
        invariant cached >= 0 ==> cached < |disk| && sec == disk[cached]
        invariant PickFrom(total, used, start, 0) == PickFrom(total, used, start, k)
      {
        var cl := ScanCluster(start, k, total);
        var lba, bo, bit := g.BitLba(cl), g.BitByte(cl), g.BitPos(cl);
        BitmapBitShows(g, disk, fat, used, heap, cl);
        if lba != cached {
          sec := disk[lba];
          cached := lba;
        }
        if !TestBit(sec[bo], bit) {
          BitmapWriteMatches(g, disk, fat, used, heap, cl, true);
          sec := BitmapSector(g, sec, cl, true);
          disk := disk[lba := sec];
          used := used + {cl};
          nextFree := if cl + 1 < 2 + total then cl + 1 else 2;
          return cl;
        }
      }
      nc := 0;
    }

    method FreeCluster(cluster: nat)
      requires Valid() && g.IsData(cluster)
      modifies this`disk, this`used, this`nextFree
      ensures Valid()
      ensures used == old(used) - {cluster}
    {
      BitmapSetBit(cluster, false);
      if cluster < nextFree {
        nextFree := cluster;
      }
    }

    /** Free the `count` clusters of the chain `cl` that starts at `cluster`. */
    method FreeChain(cluster: nat, count: nat, ghost cl: seq<nat>)
      requires Valid() && |cl| == count && (count > 0 ==> cl[0] == cluster)
      requires (forall c :: c in cl ==> g.IsData(c)) && Linked(fat, false, cl)
      modifies this`disk, this`used, this`nextFree, this`fatCache, this`fatCacheLba, this`fatCacheValid
      ensures Valid()
      ensures used == old(used) - Elems(cl)
    {
      hide Matches;
      assert g.count + 2 < FAT_BAD by {
        MatchesValid(g, disk, fat, used, heap);
        CountBelow(g);
      }
      forall j | 0 <= j < count
        ensures g.IsData(cl[j]) && cl[j] < FAT_BAD
      {
        assert cl[j] in cl;
      }
      var c := cluster;
      var i := 0;
      while i < count && 2 <= c < FAT_BAD
        invariant 0 <= i <= count && Valid()
        invariant i < count ==> c == cl[i]
        invariant used == old(used) - Elems(cl[..i])
      {
        var nx := FatNext(c);
        FreeCluster(c);
        ElemsPrefix(cl, i);
        assert i < count - 1 ==> nx == cl[i + 1];
        if Ends(nx) {
          i := i + 1;
          break;
        }
        c := nx;
        i := i + 1;
      }
      assert cl[..i] == cl;
    }
  }
}
