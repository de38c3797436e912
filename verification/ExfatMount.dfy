/** Mounting: reading the boot sector and finding the bitmap and the up-case table in the root;
  * and what mounting a freshly formatted volume gives.
  */
module ExfatMount {
  import opened Arith
  import opened Bytes
  import opened ExfatScan
  import opened ExfatVolume
  import opened ExfatContents
  import opened ExfatFile
  import opened ExfatNames
  import opened ExfatEntrySet
  import opened ExfatDirectory
  import opened ExfatDirVolume
  import opened ExfatLayout
  import opened ExfatFormat
  import opened ExfatTree
  import opened ExfatNamespace

  /** The boot sector fields a mount keeps. */
  datatype Boot = Boot(
    fatOffset: nat, fatLength: nat, heap: nat, count: nat, root: nat, bpsShift: nat, spcShift: nat, numFats: nat)

  /** The bitmap and up-case entries of the root; zero for one that is missing. */
  datatype Special = Special(bitmapCluster: nat, bitmapBytes: nat, upcaseCluster: nat, upcaseBytes: nat)

  function BootOf(sec: Sector): Boot {
    Boot(Rd32(sec, 80), Rd32(sec, 84), Rd32(sec, 88), Rd32(sec, 92), Rd32(sec, 96), sec[108], sec[109], sec[110])
  }

  predicate BootOk(sec: Sector) {
    && sec[3..11] == SIGNATURE && sec[0] == 0xEB && sec[510] == 0x55 && sec[511] == 0xAA
    && 9 <= sec[108] <= 12 && sec[108] as nat + sec[109] as nat <= 25 && Rd32(sec, 96) >= 2
  }

  method ReadBoot(disk: seq<Sector>) returns (r: Option<Boot>)
    ensures r == if disk != [] && BootOk(disk[0]) then Some(BootOf(disk[0])) else None
  {
    if disk == [] {
      return None;
    }
    var sec := disk[0];
    for i := 0 to 8
      invariant forall j :: 0 <= j < i ==> sec[3 + j] == SIGNATURE[j]
    {
      if sec[3 + i] != SIGNATURE[i] {
        assert sec[3..11][i] != SIGNATURE[i];
        return None;
      }
    }
    assert sec[3..11] == SIGNATURE;
    if sec[0] != 0xEB || sec[510] != 0x55 || sec[511] != 0xAA {
      return None;
    }
    if sec[108] < 9 || sec[108] > 12 || sec[108] as nat + sec[109] as nat > 25 || Rd32(sec, 96) < 2 {
      return None;
    }
    r := Some(BootOf(sec));
  }

  /** Note a root entry. */
  function Note(sp: Special, ent: seq<byte>): Special
    requires |ent| == 32
  {
    if ent[0] == TYPE_BITMAP then
      if ent[1] % 2 == 0 then sp.(bitmapCluster := Rd32(ent, 20), bitmapBytes := Rd64(ent, 24)) else sp
    else if ent[0] == TYPE_UPCASE then sp.(upcaseCluster := Rd32(ent, 20), upcaseBytes := Rd64(ent, 24))
    else sp
  }

  function EntryAt(sec: Sector, e: nat): (ent: Entry)
    requires e < 16
  {
    sec[e * 32..e * 32 + 32]
  }

  /** What the entries of a sector from `e` on say, up to an end marker. */
  function Noted(sec: Sector, e: nat, sp: Special): Special
    requires e <= 16
    decreases 16 - e
  {
    if e == 16 || sec[e * 32] == TYPE_EOD then sp else Noted(sec, e + 1, Note(sp, EntryAt(sec, e)))
  }

  /** The sector has an end marker at entry `e` or later. */
  predicate EndsFrom(sec: Sector, e: nat) {
    exists k :: e <= k < 16 && sec[k * 32] == TYPE_EOD
  }

  /** The first sector of cluster `c`. */
  function ClusterLba(b: Boot, c: nat): nat
    requires c >= 2 && b.bpsShift >= 9
  {
    Times(b.heap + (c - 2) * Pow2(b.spcShift), Pow2(b.bpsShift - 9))
  }

  function SectorsPerCluster(b: Boot): (n: nat)
    requires b.bpsShift >= 9
    ensures n >= 1
  {
    Pow2(b.bpsShift + b.spcShift - 9)
  }

  /** Scan one sector: whether an end marker was met, and what was found. */
  method ScanSector(sec: Sector, sp0: Special) returns (ended: bool, sp: Special)
    ensures ended <==> EndsFrom(sec, 0)
    ensures sp == Noted(sec, 0, sp0)
  {
    hide Note;
    sp := sp0;
    for e := 0 to 16
      invariant Noted(sec, 0, sp0) == Noted(sec, e, sp) && forall k :: 0 <= k < e ==> sec[k * 32] != TYPE_EOD
    {
      if sec[e * 32] == TYPE_EOD {
        return true, sp;
      }
      sp := Note(sp, EntryAt(sec, e));
    }
    ended := false;
  }

  // ---- the root as a whole ----

  /** What the entries of some sectors say, up to an end marker. */
  function NotedAll(secs: seq<Sector>, sp: Special): Special {
    if secs == [] then sp
    else if EndsFrom(secs[0], 0) then Noted(secs[0], 0, sp)
    else NotedAll(secs[1..], Noted(secs[0], 0, sp))
  }

  /** There is an end marker in some sector. */
  predicate EndedIn(secs: seq<Sector>) {
    secs != [] && (EndsFrom(secs[0], 0) || EndedIn(secs[1..]))
  }

  /** Cluster `c` is on the disk, and within reach of 32-bit sector numbers. */
  predicate OnVolume(disk: seq<Sector>, b: Boot, c: nat)
    requires b.bpsShift >= 9
  {
    c >= 2 && ClusterLba(b, c) <= 0xFFFF_FFFF && ClusterLba(b, c) + SectorsPerCluster(b) <= |disk|
  }

  /** The byte of the FAT where the link of cluster `c` starts. */
  function LinkByte(b: Boot, c: nat): (o: nat)
    requires b.bpsShift >= 9
    ensures o % 512 <= 508
  {
    FatEntryAligned(b.fatOffset, b.bpsShift, c);
    Times(b.fatOffset, Pow2(b.bpsShift)) + c * 4
  }

  /** The FAT links cluster `c` to `next`. */
  predicate LinkIs(disk: seq<Sector>, b: Boot, c: nat, next: nat)
    requires b.bpsShift >= 9
  {
    var o := LinkByte(b, c);
    o / 512 <= 0xFFFF_FFFF && o / 512 < |disk| && Rd32(disk[o / 512], o % 512) == next
  }

  /** The clusters of `walk` follow one another from the root on. */
  ghost predicate RootWalk(disk: seq<Sector>, b: Boot, walk: seq<nat>)
    requires b.bpsShift >= 9
  {
    && walk != [] && walk[0] == b.root && |walk| <= b.count && Walkable(disk, b, walk)
    && forall i :: 0 <= i < |walk| ==> Follows(disk, b, walk, i)
  }

  /** The cluster after number `i` of the walk is the one the FAT names. */
  predicate Follows(disk: seq<Sector>, b: Boot, walk: seq<nat>, i: nat)
    requires b.bpsShift >= 9 && i < |walk|
  {
    i + 1 < |walk| ==> LinkIs(disk, b, walk[i], walk[i + 1]) && !Ends(walk[i + 1])
  }

  ghost predicate Walkable(disk: seq<Sector>, b: Boot, walk: seq<nat>)
    requires b.bpsShift >= 9
  {
    forall i :: 0 <= i < |walk| ==> OnVolume(disk, b, walk[i])
  }

  /** The sectors of the clusters of `walk`. */
  ghost function SectorsOf(disk: seq<Sector>, b: Boot, walk: seq<nat>): seq<Sector>
    requires b.bpsShift >= 9 && Walkable(disk, b, walk)
  {
    if walk == [] then []
    else
      assert OnVolume(disk, b, walk[0]);
      assert Walkable(disk, b, walk[1..]);
      disk[ClusterLba(b, walk[0])..ClusterLba(b, walk[0]) + SectorsPerCluster(b)] + SectorsOf(disk, b, walk[1..])
  }

  /** The walk is the whole root: it has the end marker, or its last link ends. */
  ghost predicate WholeRoot(disk: seq<Sector>, b: Boot, walk: seq<nat>)
    requires b.bpsShift >= 9
  {
    && RootWalk(disk, b, walk)
    && (EndedIn(SectorsOf(disk, b, walk)) || exists next :: LinkIs(disk, b, walk[|walk| - 1], next) && Ends(next))
  }

  /** What is left to scan, from sector `s` of cluster `i` on. */
  ghost function Rest(disk: seq<Sector>, b: Boot, walk: seq<nat>, i: nat, s: nat): seq<Sector>
    requires b.bpsShift >= 9 && Walkable(disk, b, walk) && i < |walk| && s <= SectorsPerCluster(b)
  {
    assert OnVolume(disk, b, walk[i]);
    assert Walkable(disk, b, walk[i + 1..]);
    disk[ClusterLba(b, walk[i]) + s..ClusterLba(b, walk[i]) + SectorsPerCluster(b)] + SectorsOf(disk, b, walk[i + 1..])
  }

  lemma RestStarts(disk: seq<Sector>, b: Boot, walk: seq<nat>, i: nat)
    requires b.bpsShift >= 9 && Walkable(disk, b, walk) && i < |walk|
    ensures Walkable(disk, b, walk[i..]) && Rest(disk, b, walk, i, 0) == SectorsOf(disk, b, walk[i..])
    ensures Walkable(disk, b, walk[i + 1..]) && Rest(disk, b, walk, i, SectorsPerCluster(b)) == SectorsOf(disk, b, walk[i + 1..])
  {
    assert walk[i..][1..] == walk[i + 1..];
  }

  /** One sector scanned. */
  lemma RestStep(disk: seq<Sector>, b: Boot, walk: seq<nat>, i: nat, s: nat, sp: Special)
    requires b.bpsShift >= 9 && Walkable(disk, b, walk) && i < |walk| && s < SectorsPerCluster(b)
    ensures OnVolume(disk, b, walk[i])
    ensures var r, sec := Rest(disk, b, walk, i, s), disk[ClusterLba(b, walk[i]) + s];
            && NotedAll(r, sp) == (if EndsFrom(sec, 0) then Noted(sec, 0, sp) else NotedAll(Rest(disk, b, walk, i, s + 1), Noted(sec, 0, sp)))
            && (EndedIn(r) <==> EndsFrom(sec, 0) || EndedIn(Rest(disk, b, walk, i, s + 1)))
  {
    hide ClusterLba, SectorsPerCluster, EndsFrom, Noted;
    assert OnVolume(disk, b, walk[i]);
    var r := Rest(disk, b, walk, i, s);
    assert r[0] == disk[ClusterLba(b, walk[i]) + s] && r[1..] == Rest(disk, b, walk, i, s + 1);
  }

  /** The scan so far gives what scanning the rest gives. */
  ghost predicate Scanned(disk: seq<Sector>, b: Boot, walk: seq<nat>, rest: seq<Sector>, sp: Special)
    requires b.bpsShift >= 9
  {
    && WholeRoot(disk, b, walk)
    && NotedAll(SectorsOf(disk, b, walk), Special(0, 0, 0, 0)) == NotedAll(rest, sp)
    && (EndedIn(SectorsOf(disk, b, walk)) <==> EndedIn(rest))
  }

  /** The scan is over. */
  ghost predicate Found(disk: seq<Sector>, b: Boot, walk: seq<nat>, sp: Special)
    requires b.bpsShift >= 9
  {
    WholeRoot(disk, b, walk) && sp == NotedAll(SectorsOf(disk, b, walk), Special(0, 0, 0, 0))
  }

  /** Scan one cluster of the root. */
  method ScanCluster(disk: seq<Sector>, b: Boot, cluster: nat, sp0: Special, ghost walk: seq<nat>, ghost i: nat, ghost on: bool)
    returns (ok: bool, ended: bool, sp: Special)
    requires b.bpsShift >= 9 && cluster >= 2
    requires on ==> WholeRoot(disk, b, walk) && i < |walk| && cluster == walk[i] && Scanned(disk, b, walk, SectorsOf(disk, b, walk[i..]), sp0)
    ensures on ==> ok && if ended then Found(disk, b, walk, sp) else Scanned(disk, b, walk, SectorsOf(disk, b, walk[i + 1..]), sp)
  {
    hide Noted, Pow2, ClusterLba, EndsFrom, NotedAll, EndedIn, SectorsOf, SectorsPerCluster, LinkIs, Rest;
    sp := sp0;
    var lba := ClusterLba(b, cluster);
    if on {
      RestStarts(disk, b, walk, i);
      assert OnVolume(disk, b, walk[i]);
    }
    for s := 0 to SectorsPerCluster(b)
      invariant on ==> Scanned(disk, b, walk, Rest(disk, b, walk, i, s), sp)
    {
      if lba > 0xFFFF_FFFF || lba + s >= |disk| {
        return false, false, sp;
      }
      if on {
        RestStep(disk, b, walk, i, s, sp);
      }
      ended, sp := ScanSector(disk[lba + s], sp);
      if ended {
        return true, true, sp;
      }
    }
    ok, ended := true, false;
  }

  /** Scan the root for the bitmap and the up-case table. The walk along the FAT is bounded by
    * the cluster count, so it ends on any volume.
    */
  method ScanRoot(disk: seq<Sector>, b: Boot, ghost walk: seq<nat>) returns (ok: bool, sp: Special)
    requires 9 <= b.bpsShift <= 12 && b.bpsShift + b.spcShift <= 25 && b.root >= 2
    ensures WholeRoot(disk, b, walk) ==> ok && Found(disk, b, walk, sp)
  {
    hide Noted, Pow2, ClusterLba, EndsFrom, NotedAll, EndedIn, SectorsOf, SectorsPerCluster, LinkIs, LinkByte;
    sp := Special(0, 0, 0, 0);
    var cluster, hops := b.root, 0;
    ghost var on := WholeRoot(disk, b, walk);
    assert on ==> walk[0..] == walk;
    while cluster >= 2
      invariant hops <= b.count && (cluster == 0 || cluster >= 2)
      invariant on && cluster >= 2 ==> hops < |walk| && cluster == walk[hops] && Scanned(disk, b, walk, SectorsOf(disk, b, walk[hops..]), sp)
      invariant on && cluster < 2 ==> Found(disk, b, walk, sp)
      decreases b.count + 1 - hops, if cluster >= 2 then 1 else 0
    {
      var ended;
      ok, ended, sp := ScanCluster(disk, b, cluster, sp, walk, hops, on);
      if !ok || ended {
        return ok, sp;
      }
      ghost var at := hops;
      hops := hops + 1;
      if hops > b.count {
        return false, sp;
      }
      var o := LinkByte(b, cluster);
      if on {
        NextOfRoot(disk, b, walk, at, sp);
      }
      if o / 512 > 0xFFFF_FFFF || o / 512 >= |disk| {
        return false, sp;
      }
      var nx := Rd32(disk[o / 512], o % 512);
      cluster := if Ends(nx) then 0 else nx;
    }
    ok := true;
  }

  /** Behind a scanned cluster of the root comes the next one, or the root ends. */
  lemma NextOfRoot(disk: seq<Sector>, b: Boot, walk: seq<nat>, i: nat, sp: Special)
    requires b.bpsShift >= 9 && WholeRoot(disk, b, walk) && i < |walk| && Scanned(disk, b, walk, SectorsOf(disk, b, walk[i + 1..]), sp)
    ensures var o := LinkByte(b, walk[i]);
            && o / 512 <= 0xFFFF_FFFF && o / 512 < |disk|
            && var nx := Rd32(disk[o / 512], o % 512);
               if i + 1 < |walk| then nx == walk[i + 1] && !Ends(nx) else Ends(nx) && Found(disk, b, walk, sp)
  {
    hide LinkByte, Rd32, Noted, EndsFrom, ClusterLba, SectorsPerCluster;
    if i + 1 < |walk| {
      assert Follows(disk, b, walk, i);
    } else {
      assert walk[i + 1..] == [];
    }
  }

  /** FAT entries do not straddle sectors. */
  lemma FatEntryAligned(fatOffset: nat, bpsShift: nat, c: nat)
    requires bpsShift >= 9
    ensures (Times(fatOffset, Pow2(bpsShift)) + c * 4) % 512 <= 508
  {
    Pow2Adds(9, bpsShift - 9);
    assert Pow2(9) == 512;
    ByWholeSectors(fatOffset, Pow2(bpsShift - 9));
    WordAligned(Times(fatOffset, Pow2(bpsShift - 9)), c);
  }

  lemma ByWholeSectors(n: nat, p: nat)
    ensures Times(n, 512 * p) == 512 * Times(n, p)
  {
  }

  lemma WordAligned(k: nat, c: nat)
    ensures (512 * k + c * 4) % 512 <= 508
  {
  }

  /** Mount a disk: its boot fields and special clusters, wherever in the root these are. */
  method Mount(disk: seq<Sector>, ghost walk: seq<nat>) returns (r: Option<(Boot, Special)>)
    ensures r.Some? ==> disk != [] && BootOk(disk[0]) && r.value.0 == BootOf(disk[0])
    ensures disk != [] && BootOk(disk[0]) ==>
              var b := BootOf(disk[0]);
              WholeRoot(disk, b, walk) ==> r == Some((b, NotedAll(SectorsOf(disk, b, walk), Special(0, 0, 0, 0))))
  {
    hide Noted, Pow2, ClusterLba, EndsFrom, WholeRoot;
    var boot := ReadBoot(disk);
    if boot.None? {
      return None;
    }
    var ok, sp := ScanRoot(disk, boot.value, walk);
    r := if ok then Some((boot.value, sp)) else None;
  }

  // ---- a freshly formatted volume ----

  /** The boot sector reads back as the layout. */
  lemma BootReadsBack(disk: seq<Sector>, y: Layout)
    requires y.Laid() && y.count >= 1 && (y.bps == 512 || y.bps == 4096) && BootWritten(disk, y, 0)
    requires y.volume < 0x1_0000_0000_0000_0000 && y.heap < 0x1_0000_0000 && y.count < 0x1_0000_0000 && y.Root() < 0x1_0000_0000
    requires y.spcShift + BpsShift(y) <= 17
    ensures disk != [] && BootOk(disk[0])
    ensures BootOf(disk[0]) == BootFieldsOf(y)
  {
    hide Rd32, Le32, Le64, PutAll, Zeros, BootSector, Times;
    var b := BootSector(y);
    FirstSector(disk, y);
    assert disk[0] == b[..512];
    FieldRead(y, 0);
    FieldRead(y, 4);
    FieldRead(y, 6);
    ShortFields(disk[0], b, y);
    FieldRead(y, 2);
    NumbersRead(disk[0], b, y);
  }

  lemma FirstSector(disk: seq<Sector>, y: Layout)
    requires y.count >= 1 && (y.bps == 512 || y.bps == 4096) && BootWritten(disk, y, 0)
    ensures disk != [] && disk[0] == BootSector(y)[..512]
  {
    hide BootSector;
    assert BootPiece(disk, y, 0, Times(0, y.Scale()), 0);
  }

  lemma NumbersRead(sec: Sector, b: seq<byte>, y: Layout)
    requires |b| >= 512 && sec == b[..512] && y.fatLen < 0x1_0000_0000
    requires b[80..100] == Le32(FAT_OFFSET) + Le32(y.fatLen) + Le32(y.heap) + Le32(y.count) + Le32(y.Root())
    requires y.heap < 0x1_0000_0000 && y.count < 0x1_0000_0000 && y.Root() < 0x1_0000_0000
    ensures Rd32(sec, 80) == FAT_OFFSET && Rd32(sec, 84) == y.fatLen && Rd32(sec, 88) == y.heap
    ensures Rd32(sec, 92) == y.count && Rd32(sec, 96) == y.Root()
  {
    hide Rd32, Le32;
    NumberRead(sec, b, 0, FAT_OFFSET);
    NumberRead(sec, b, 1, y.fatLen);
    NumberRead(sec, b, 2, y.heap);
    NumberRead(sec, b, 3, y.count);
    NumberRead(sec, b, 4, y.Root());
  }

  lemma FieldRead(y: Layout, k: nat)
    requires y.count >= 1 && (y.bps == 512 || y.bps == 4096) && k < 7
    ensures var f := BootFields(y)[k]; f.offset + |f.bytes| <= |BootSector(y)| && BootSector(y)[f.offset..f.offset + |f.bytes|] == f.bytes
  {
    hide PutAll, Le32, Le64;
    PutAllAt(Zeros(y.bps), BootFields(y), k);
  }

  lemma NumberRead(sec: Sector, b: seq<byte>, i: nat, v: nat)
    requires |b| >= 512 && sec == b[..512] && i < 5 && v < 0x1_0000_0000 && b[80..100][i * 4..i * 4 + 4] == Le32(v)
    ensures Rd32(sec, 80 + i * 4) == v
  {
    hide Rd32, Le32;
    var o, nums := 80 + i * 4, b[80..100];
    assert forall j :: 0 <= j < 20 ==> nums[j] == b[80 + j] == sec[80 + j];
    assert nums[i * 4..i * 4 + 4] == sec[o..o + 4];
    Rd32Slice(sec, o, v);
  }

  lemma ShortFields(sec: Sector, b: seq<byte>, y: Layout)
    requires |b| >= 512 && sec == b[..512] && y.spcShift < 256 && y.count >= 1
    requires b[0..11] == [0xEB, 0x76, 0x90] + SIGNATURE && b[510..512] == [0x55, 0xAA]
    requires b[108..113] == [BpsShift(y), y.spcShift % 256, 1, 0x80, Trunc32(y.UsedClusters() * 100) / y.count % 256]
    ensures sec[0] == 0xEB && sec[3..11] == SIGNATURE && sec[510] == 0x55 && sec[511] == 0xAA
    ensures sec[108] as int == BpsShift(y) && sec[109] as int == y.spcShift && sec[110] == 1
  {
    assert sec[0] == b[0..11][0] && sec[3..11] == b[0..11][3..];
    assert sec[510] == b[510..512][0] && sec[511] == b[510..512][1];
    assert sec[108] == b[108..113][0] && sec[109] == b[108..113][1] && sec[110] == b[108..113][2];
  }

  // ---- the new root directory ----

  lemma RootField(y: Layout, lab: seq<nat>, k: nat)
    requires |lab| <= LABEL_MAX && y.bps >= 512 && k < 8
    ensures var f := RootFields(y, lab)[k];
            f.offset + |f.bytes| <= |RootHead(y, lab)| && RootHead(y, lab)[f.offset..f.offset + |f.bytes|] == f.bytes
  {
    hide PutAll, Le32, Le64, UnitBytes, TableSum, UpcaseTable;
    PutAllAt(Zeros(y.bps), RootFields(y, lab), k);
  }

  /** The entries of the new root: label, bitmap, up-case table, then nothing. */
  lemma RootEntries(y: Layout, lab: seq<nat>)
    requires |lab| <= LABEL_MAX && y.bps >= 512 && y.bitmapBytes < 0x1_0000_0000 && y.Upcase() < 0x1_0000_0000
    ensures var b := RootHead(y, lab);
            && b[0] == TYPE_LABEL && b[32] == TYPE_BITMAP && b[64] == TYPE_UPCASE && b[33] == 0
            && Rd32(b, 52) == 2 && Rd64(b, 56) == y.bitmapBytes && Rd32(b, 84) == y.Upcase() && Rd64(b, 88) == 60
            && forall i :: 96 <= i < y.bps ==> b[i] == 0
  {
    hide PutAll, Le32, Le64, UnitBytes, TableSum, UpcaseTable, Rd32, Rd64, RootHead;
    var b := RootHead(y, lab);
    RootField(y, lab, 0);
    assert b[0] == b[0..2][0];
    RootField(y, lab, 2);
    assert b[32] == b[32..33][0];
    RootField(y, lab, 3);
    assert b[52..56] == b[52..64][..4] == Le32(2);
    assert b[56..64] == b[52..64][4..] == Le64(y.bitmapBytes);
    Rd32Slice(b, 52, 2);
    Rd64Slice(b, 56, y.bitmapBytes);
    RootField(y, lab, 4);
    assert b[64] == b[64..65][0];
    RootField(y, lab, 6);
    Rd32Slice(b, 84, y.Upcase());
    RootField(y, lab, 7);
    Rd64Slice(b, 88, 60);
    RootBlank(y, lab, 33, 1);
    assert b[33] == b[33..34][0];
    RootBlank(y, lab, 96, y.bps - 96);
    forall i | 96 <= i < y.bps
      ensures b[i] == 0
    {
      assert b[i] == b[96..y.bps][i - 96];
    }
  }

  lemma RootBlank(y: Layout, lab: seq<nat>, o: nat, n: nat)
    requires |lab| <= LABEL_MAX && y.bps >= 512 && ((o == 33 && n == 1) || (o == 96 && n == y.bps - 96))
    ensures RootHead(y, lab)[o..o + n] == Zeros(n)
  {
    hide PutAll, Le32, Le64, UnitBytes, TableSum, UpcaseTable;
    PutAllElsewhere(Zeros(y.bps), RootFields(y, lab), o, n);
  }

  /** What a mount notes in the first sector of the new root. */
  lemma RootNoted(y: Layout, lab: seq<nat>, sec: Sector)
    requires |lab| <= LABEL_MAX && y.bps >= 512 && y.bitmapBytes < 0x1_0000_0000 && y.Upcase() < 0x1_0000_0000
    requires sec == SectorOf(RootHead(y, lab), 0)
    ensures EndsFrom(sec, 0) && Noted(sec, 0, Special(0, 0, 0, 0)) == SpecialOf(y)
  {
    hide Rd32, Rd64, RootHead;
    var b := RootHead(y, lab);
    RootEntries(y, lab);
    assert forall i :: 0 <= i < 512 ==> sec[i] == b[i];
    var e0, e1, e2 := EntryAt(sec, 0), EntryAt(sec, 1), EntryAt(sec, 2);
    assert e0[0] == TYPE_LABEL && e1[0] == TYPE_BITMAP && e1[1] == 0 && e2[0] == TYPE_UPCASE && sec[3 * 32] == 0;
    FieldsOfEntry(b, e1, 32);
    FieldsOfEntry(b, e2, 64);
    assert EndsFrom(sec, 0) by { assert sec[3 * 32] == TYPE_EOD; }
    var z := Special(0, 0, 0, 0);
    var z1, z2 := Note(z, e0), Note(Note(z, e0), e1);
    assert Noted(sec, 3, Note(z2, e2)) == Note(z2, e2);
    assert Noted(sec, 2, z2) == Note(z2, e2);
    assert Noted(sec, 1, z1) == Note(z2, e2);
  }

  lemma FieldsOfEntry(b: seq<byte>, e: Entry, o: nat)
    requires o + 32 <= |b| && forall i :: 0 <= i < 32 ==> e[i] == b[o + i]
    ensures Rd32(e, 20) == Rd32(b, o + 20) && Rd64(e, 24) == Rd64(b, o + 24)
  {
  }

  // ---- the views of a new volume ----

  ghost function NewFat(g: Geometry, disk: seq<Sector>): (fat: seq<nat>)
    requires g.Valid() && |disk| >= g.Lba(g.count + 2)
    ensures |fat| == g.count + 2
  {
    seq(g.count + 2, c requires 0 <= c < g.count + 2 => Rd32(disk[g.fatLba + c / 128], c % 128 * 4))
  }

  ghost function NewRow(g: Geometry, disk: seq<Sector>, c: nat): (row: seq<Sector>)
    requires g.Lba(c) + g.spc <= |disk|
    ensures |row| == g.spc
  {
    seq(g.spc, s requires 0 <= s < g.spc => disk[g.Lba(c) + s])
  }

  ghost function NewHeap(g: Geometry, disk: seq<Sector>): (heap: seq<seq<Sector>>)
    requires g.Valid() && |disk| >= g.Lba(g.count + 2)
    ensures |heap| == g.count + 2
    ensures forall c :: 0 <= c < |heap| && g.IsCluster(c) ==> g.Lba(c) + g.spc <= |disk| && heap[c] == NewRow(g, disk, c)
  {
    ClustersInside(g);
    seq(g.count + 2, c requires 0 <= c < g.count + 2 => if g.IsCluster(c) then NewRow(g, disk, c) else [])
  }

  lemma ClustersInside(g: Geometry)
    ensures forall c :: g.IsCluster(c) ==> g.Lba(c) + g.spc <= g.Lba(g.count + 2)
  {
    forall c | g.IsCluster(c)
      ensures g.Lba(c) + g.spc <= g.Lba(g.count + 2)
    {
      LbaApart(g, c, g.count + 2);
    }
  }

  /** The geometry of a sound layout within the block layer's reach. */
  lemma NewGeometryValid(y: Layout, sectors: nat)
    requires y.Sound() && y.count >= 1 && KnownShape(y.bps, y.spc, y.cb) && y.volume == sectors / (y.bps / 512) && sectors < 0x1_0000_0000
    ensures GeometryOf(y).Valid() && GeometryOf(y).Lba(y.count + 2) <= sectors
  {
    hide KnownShape, Times;
    hide Geometry.Lba, Geometry.FatSectors, Geometry.BitLba;
    assert (y.bps == 512 || y.bps == 4096) && y.cb == y.spc * y.bps by { ShapeFacts(y.bps, y.spc, y.cb); }
    OrderOfLayout(y, sectors);
    RegionsInOrder(y, sectors);
    FatLongEnough(y);
    BitmapLongEnough(y);
  }

  lemma ShapeFacts(bps: nat, spc: nat, cb: nat)
    requires KnownShape(bps, spc, cb)
    ensures (bps == 512 || bps == 4096) && cb == spc * bps && 1 <= spc <= 256 && 8 <= Times(spc, bps / 512) <= 256
  {
  }

  lemma FatLongEnough(y: Layout)
    requires (y.count + 2) * 4 <= y.fatLen * y.bps && (y.bps == 512 || y.bps == 4096)
    ensures GeometryOf(y).FatSectors() <= Times(y.fatLen, y.Scale())
  {
  }

  lemma BitmapLongEnough(y: Layout)
    requires y.count >= 1 && y.count <= y.bitmapBytes * 8 && y.bitmapBytes <= y.bitmapClusters * y.cb && y.cb == y.spc * y.bps
    requires y.bps == 512 || y.bps == 4096
    ensures GeometryOf(y).BitLba(y.count + 1) < GeometryOf(y).Lba(2 + y.bitmapClusters)
  {
    var g := GeometryOf(y);
    ClusterSpan(g, 2, y.bitmapClusters);
    assert y.cb == Times(y.spc, y.Scale()) * 512;
    var n := Times(y.bitmapClusters, g.spc);
    assert y.bitmapClusters * y.cb == n * 512;
    assert (y.count - 1) / 8 < n * 512;
  }

  /** A byte of a region of the disk. */
  lemma RegionByte(disk: seq<Sector>, lba: nat, n: nat, head: seq<byte>, i: nat)
    requires |head| % 512 == 0 && RegionIs(disk, lba, n, head) && i / 512 < n
    ensures lba + i / 512 < |disk| && disk[lba + i / 512][i % 512] == if i < |head| then head[i] else 0
  {
    hide Zeros;
    if i < |head| {
      assert disk[lba + i / 512] == SectorOf(head, i / 512);
    } else {
      assert disk[lba + i / 512] == Zeros(512);
    }
  }

  /** The bitmap marks exactly the clusters of bitmap, up-case table and root. */
  lemma NewBitmap(disk: seq<Sector>, y: Layout, lab: seq<nat>, fatHead: seq<byte>, bitmapHead: seq<byte>)
    requires y.count >= 1 && (y.bps == 512 || y.bps == 4096) && |lab| <= LABEL_MAX && Formatted(disk, y, lab, fatHead, bitmapHead)
    requires GeometryOf(y).Valid() && GeometryOf(y).Lba(y.count + 2) <= |disk| && y.UsedClusters() <= y.count && y.bitmapClusters >= 1
    requires y.Root() < y.bps / 4
    ensures UsedMatches(GeometryOf(y), disk, Clusters(y.UsedClusters()))
  {
    hide Formatted, TestBit, Times, RegionIs, BitmapBit;
    BitmapRegion(disk, y, lab, fatHead, bitmapHead);
    var g := GeometryOf(y);
    forall c | g.IsCluster(c)
      ensures g.BitLba(c) < |disk| && (c in Clusters(y.UsedClusters()) <==> BitmapBit(g, disk, c))
    {
      NewBit(disk, y, bitmapHead, c);
    }
  }

  lemma BitmapRegion(disk: seq<Sector>, y: Layout, lab: seq<nat>, fatHead: seq<byte>, bitmapHead: seq<byte>)
    requires y.count >= 1 && (y.bps == 512 || y.bps == 4096) && |lab| <= LABEL_MAX && Formatted(disk, y, lab, fatHead, bitmapHead)
    requires y.bitmapClusters >= 1
    ensures |bitmapHead| == y.bps
    ensures RegionIs(disk, GeometryOf(y).Lba(2), Times(y.bitmapClusters, GeometryOf(y).spc), bitmapHead)
    ensures forall i :: 0 <= i < y.bps * 8 ==> (TestBit(bitmapHead[i / 8], i % 8) <==> i < y.UsedClusters())
  {
    hide BootWritten, RootHead, UpcaseTable, TestBit, Times, RegionIs;
  }

  lemma NewBit(disk: seq<Sector>, y: Layout, head: seq<byte>, c: nat)
    requires y.bps == 512 || y.bps == 4096
    requires GeometryOf(y).Valid() && GeometryOf(y).IsCluster(c) && |head| == y.bps && y.UsedClusters() < y.bps / 4
    requires RegionIs(disk, GeometryOf(y).Lba(2), Times(y.bitmapClusters, GeometryOf(y).spc), head)
    requires forall i :: 0 <= i < y.bps * 8 ==> (TestBit(head[i / 8], i % 8) <==> i < y.UsedClusters())
    ensures GeometryOf(y).BitLba(c) < |disk| && (c - 2 < y.UsedClusters() <==> BitmapBit(GeometryOf(y), disk, c))
  {
    hide TestBit, Times, RegionIs;
    var i := c - 2;
    NewBitByte(disk, y, head, c);
    NoBits(i % 8);
    if i / 8 < |head| {
      assert i < y.bps * 8;
    }
  }

  lemma NewBitByte(disk: seq<Sector>, y: Layout, head: seq<byte>, c: nat)
    requires y.bps == 512 || y.bps == 4096
    requires GeometryOf(y).Valid() && GeometryOf(y).IsCluster(c) && |head| == y.bps
    requires RegionIs(disk, GeometryOf(y).Lba(2), Times(y.bitmapClusters, GeometryOf(y).spc), head)
    ensures var g, j := GeometryOf(y), (c - 2) / 8;
            g.BitLba(c) < |disk| && disk[g.BitLba(c)][g.BitByte(c)] == if j < |head| then head[j] else 0
  {
    hide Times, RegionIs;
    var g := GeometryOf(y);
    var b, s := BitLbaInBitmap(g, c);
    LbaApart(g, b, 2 + y.bitmapClusters);
    ClusterSpan(g, 2, y.bitmapClusters);
    RegionByte(disk, g.Lba(2), Times(y.bitmapClusters, g.spc), head, (c - 2) / 8);
  }

  /** The views of a new volume match the disk. */
  lemma NewMatches(disk: seq<Sector>, y: Layout, lab: seq<nat>, fatHead: seq<byte>, bitmapHead: seq<byte>)
    requires y.count >= 1 && (y.bps == 512 || y.bps == 4096) && |lab| <= LABEL_MAX && Formatted(disk, y, lab, fatHead, bitmapHead)
    requires GeometryOf(y).Valid() && GeometryOf(y).Lba(y.count + 2) <= |disk| && y.UsedClusters() <= y.count && y.bitmapClusters >= 1
    requires y.Root() < y.bps / 4
    ensures var g := GeometryOf(y); Matches(g, disk, NewFat(g, disk), Clusters(y.UsedClusters()), NewHeap(g, disk))
  {
    hide Formatted, Times, UsedMatches, FatMatches, HeapMatches, NewFat, NewHeap;
    NewBitmap(disk, y, lab, fatHead, bitmapHead);
    ViewsMatch(GeometryOf(y), disk);
  }

  lemma ViewsMatch(g: Geometry, disk: seq<Sector>)
    requires g.Valid() && g.Lba(g.count + 2) <= |disk|
    ensures FatMatches(g, disk, NewFat(g, disk)) && HeapMatches(g, disk, NewHeap(g, disk))
  {
    hide Rd32;
    forall c, s | g.IsData(c) && 0 <= s < g.spc
      ensures SectorShown(g, disk, NewHeap(g, disk), c, s)
    {
    }
  }

  /** The link of the root ends its chain. */
  lemma NewRootLink(disk: seq<Sector>, y: Layout, lab: seq<nat>, fatHead: seq<byte>, bitmapHead: seq<byte>)
    requires y.count >= 1 && (y.bps == 512 || y.bps == 4096) && |lab| <= LABEL_MAX && Formatted(disk, y, lab, fatHead, bitmapHead)
    requires GeometryOf(y).Valid() && GeometryOf(y).Lba(y.count + 2) <= |disk| && y.Root() < y.bps / 4 && y.Root() < y.count + 2
    requires y.bitmapClusters >= 1
    ensures NewFat(GeometryOf(y), disk)[y.Root()] == FAT_EOC
  {
    hide BootWritten, RootHead, UpcaseTable, TestBit, Times, RegionIs, Rd32;
    var g, c := GeometryOf(y), y.Root();
    assert Rd32(fatHead, c * 4) == FAT_EOC;
    RegionWord(disk, g.fatLba, Times(y.fatLen, y.Scale()), fatHead, c);
  }

  /** A word of a region's first buffer. */
  lemma RegionWord(disk: seq<Sector>, lba: nat, n: nat, head: seq<byte>, c: nat)
    requires |head| % 512 == 0 && RegionIs(disk, lba, n, head) && c * 4 + 4 <= |head|
    ensures lba + c / 128 < |disk| && Rd32(disk[lba + c / 128], c % 128 * 4) == Rd32(head, c * 4)
  {
    var sec := SectorOf(head, c / 128);
    assert disk[lba + c / 128] == sec;
    assert forall j :: 0 <= j < 512 ==> sec[j] == head[c / 128 * 512 + j];
    assert c / 128 * 512 + c % 128 * 4 == c * 4;
  }

  /** The root of a new volume is an empty directory. */
  lemma NewRootHeld(disk: seq<Sector>, y: Layout, lab: seq<nat>, fatHead: seq<byte>, bitmapHead: seq<byte>)
    requires y.count >= 1 && (y.bps == 512 || y.bps == 4096) && |lab| <= LABEL_MAX && Formatted(disk, y, lab, fatHead, bitmapHead)
    requires GeometryOf(y).Valid() && GeometryOf(y).Lba(y.count + 2) <= |disk| && y.Root() < y.bps / 4 && y.Root() < y.count + 2
    requires y.bitmapClusters >= 1 && y.bitmapBytes < 0x1_0000_0000 && y.UsedClusters() <= y.count
    ensures var g := GeometryOf(y);
            DirHeld(g, NewFat(g, disk), Clusters(y.UsedClusters()), NewHeap(g, disk), y.Root(), [y.Root()], [])
  {
    hide BootWritten, RootHead, UpcaseTable, TestBit, Times, Rd32, Rd64, Tidy, List, Entries;
    var g := GeometryOf(y);
    var fat, heap, cl := NewFat(g, disk), NewHeap(g, disk), [y.Root()];
    NewRootLink(disk, y, lab, fatHead, bitmapHead);
    RootEntries(y, lab);
    var es := Entries(heap, cl, g.spc);
    forall i | 0 <= i < |es|
      ensures es[i][0] == if i * 32 < y.bps then RootHead(y, lab)[i * 32] else 0
    {
      NewRootEntry(disk, y, lab, i);
    }
    EmptyRoot(es);
  }

  lemma NewRootEntry(disk: seq<Sector>, y: Layout, lab: seq<nat>, i: nat)
    requires y.count >= 1 && (y.bps == 512 || y.bps == 4096) && |lab| <= LABEL_MAX
    requires GeometryOf(y).Valid() && GeometryOf(y).Lba(y.count + 2) <= |disk| && y.Root() < y.count + 2
    requires RegionIs(disk, GeometryOf(y).Lba(y.Root()), GeometryOf(y).spc, RootHead(y, lab))
    requires i < GeometryOf(y).spc * 16 && Rows(NewHeap(GeometryOf(y), disk), [y.Root()], GeometryOf(y).spc)
    ensures var es := Entries(NewHeap(GeometryOf(y), disk), [y.Root()], GeometryOf(y).spc);
            i < |es| && es[i][0] == if i * 32 < y.bps then RootHead(y, lab)[i * 32] else 0
  {
    hide RootHead, Times, RegionIs, Entries, NewHeap, Rows;
    var g := GeometryOf(y);
    EntryOnDisk(g, disk, y.Root(), i);
    EntryByte(i);
    RegionByte(disk, g.Lba(y.Root()), g.spc, RootHead(y, lab), i * 32);
  }

  lemma EntryByte(i: nat)
    ensures i * 32 / 512 == i / 16 && i * 32 % 512 == i % 16 * 32
  {
  }

  lemma EntryOnDisk(g: Geometry, disk: seq<Sector>, c: nat, i: nat)
    requires g.Valid() && g.Lba(g.count + 2) <= |disk| && g.IsCluster(c) && i < g.spc * 16 && Rows(NewHeap(g, disk), [c], g.spc)
    ensures g.Lba(c) + i / 16 < |disk| && i < |Entries(NewHeap(g, disk), [c], g.spc)|
    ensures Entries(NewHeap(g, disk), [c], g.spc)[i][0] == disk[g.Lba(c) + i / 16][i % 16 * 32]
  {
    hide Entries;
    EntryInSector(NewHeap(g, disk), [c], g.spc, 0, i / 16, i % 16);
    assert 0 * g.spc == 0 && i / 16 * 16 + i % 16 == i;
    assert NewHeap(g, disk)[c] == NewRow(g, disk, c);
  }

  /** Label, bitmap and up-case entries before the end marker list nothing. */
  lemma EmptyRoot(es: seq<Entry>)
    requires |es| >= 4 && es[0][0] == TYPE_LABEL && es[1][0] == TYPE_BITMAP && es[2][0] == TYPE_UPCASE
    requires forall i :: 3 <= i < |es| ==> es[i][0] == 0
    ensures Tidy(es, 0) && List(es, 0) == []
  {
    hide Tidy, List;
    TidyEnd(es, 3);
    TidyStep(es, 2);
    ListStep(es, 2);
    TidyStep(es, 1);
    ListStep(es, 1);
    TidyStep(es, 0);
    ListStep(es, 0);
  }

  // ---- format, then mount ----

  /** The geometry the operations use, from what a mount keeps. */
  function MountedGeometry(b: Boot, sp: Special): Geometry
    requires b.bpsShift >= 9
  {
    Geometry(Times(b.fatOffset, Pow2(b.bpsShift - 9)), Times(b.heap, Pow2(b.bpsShift - 9)), SectorsPerCluster(b), b.count,
             sp.bitmapCluster, CeilDiv(sp.bitmapBytes, SectorsPerCluster(b) * 512))
  }

  /** The tree of a new volume. */
  function NewTree(root: nat): Tree {
    Tree(root, map[root := [root]], {root}, map[root := []], map[])
  }

  /** The boot fields of a layout. */
  function BootFieldsOf(y: Layout): Boot {
    Boot(FAT_OFFSET, y.fatLen, y.heap, y.count, y.Root(), BpsShift(y), y.spcShift, 1)
  }

  /** What the root of a new volume says. */
  function SpecialOf(y: Layout): Special {
    Special(2, y.bitmapBytes, y.Upcase(), 60)
  }

  /** What any accepted layout satisfies. */
  lemma LayoutFacts(sectors: nat, bps: nat)
    requires sectors < 0x1_0000_0000_0000_0000 && Plan(sectors, bps).Accepted?
    ensures var y := Plan(sectors, bps).layout;
            && y.bps == bps && (bps == 512 || bps == 4096) && y.count >= 1 && y.spcShift + BpsShift(y) <= 17
            && y.volume < 0x1_0000_0000_0000_0000 && y.heap < 0x1_0000_0000 && y.count < 0x1_0000_0000 && y.bitmapBytes < 0x1_0000_0000
            && y.Root() < bps / 4 && y.Laid()
            && ClusterLba(BootFieldsOf(y), y.Root()) == GeometryOf(y).Lba(y.Root()) <= 0xFFFF_FFFF
            && GeometryOf(y).Lba(y.Root()) + GeometryOf(y).spc <= sectors
  {
    hide Plan, Times, HeapOffset, Quotient, Trunc32, BitmapBytes, Pow2, KnownShape, ClusterLba, MountedGeometry;
    var y := Plan(sectors, bps).layout;
    PlanParts(sectors, bps);
    PlanShape(sectors, bps);
    GeometryRecovered(sectors, bps);
    ShapeFacts(y.bps, y.spc, y.cb);
    LayoutReach(sectors, bps);
    NotMoreThan(BitmapBytes(y.count), y.count);
    AlwaysLaid(sectors, bps);
  }

  lemma LayoutReach(sectors: nat, bps: nat)
    requires sectors < 0x1_0000_0000_0000_0000 && Plan(sectors, bps).Accepted?
    ensures var y := Plan(sectors, bps).layout;
            GeometryOf(y).Lba(y.Root()) <= 0xFFFF_FFFF && GeometryOf(y).Lba(y.Root()) + GeometryOf(y).spc <= sectors
  {
    hide Plan, Times, HeapOffset, Quotient, Trunc32, BitmapBytes, Pow2, KnownShape;
    var y := Plan(sectors, bps).layout;
    PlanParts(sectors, bps);
    PlanShape(sectors, bps);
    ShapeFacts(y.bps, y.spc, y.cb);
    AlwaysLaid(sectors, bps);
    RegionsInOrder(y, sectors);
    RootNearStart(y);
  }

  lemma NotMoreThan(b: nat, count: nat)
    requires b == BitmapBytes(count)
    ensures b < 0x1_0000_0000
  {
  }

  /** The root lies within reach of 32-bit sector numbers. */
  lemma RootNearStart(y: Layout)
    requires y.heap < 0x400_0000 && y.Root() < y.bps / 4 && KnownShape(y.bps, y.spc, y.cb)
    ensures GeometryOf(y).Lba(y.Root()) <= 0xFFFF_FFFF
  {
    hide KnownShape;
    ShapeFacts(y.bps, y.spc, y.cb);
    LbaClosed(GeometryOf(y), y.Root());
    MulMonotone(y.Root() - 2, 1024, Times(y.spc, y.Scale()));
    MulMonotone(Times(y.spc, y.Scale()), 256, 1024);
    MulMonotone(y.Scale(), 8, y.heap);
  }

  lemma GeometryRecovered(sectors: nat, bps: nat)
    requires sectors < 0x1_0000_0000_0000_0000 && Plan(sectors, bps).Accepted?
    ensures var y := Plan(sectors, bps).layout;
            && y.spcShift + BpsShift(y) <= 17
            && MountedGeometry(BootFieldsOf(y), SpecialOf(y)) == GeometryOf(y)
            && ClusterLba(BootFieldsOf(y), y.Root())
               == GeometryOf(y).Lba(y.Root())
  {
    hide Plan, Times, HeapOffset, BitmapBytes;
    var y := Plan(sectors, bps).layout;
    PlanParts(sectors, bps);
    PlanShape(sectors, bps);
    ClusterStart(y, y.Root());
    ShapeFacts(y.bps, y.spc, y.cb);
    PowersUsed();
    Pow2Adds(y.spcShift, BpsShift(y) - 9);
    assert Pow2(BpsShift(y) - 9) == y.Scale();
    assert Pow2(y.spcShift + (BpsShift(y) - 9)) == Times(y.spc, y.Scale()) by { TimesIs(y.spc, y.Scale()); }
    assert Times(y.spc, y.Scale()) * 512 == y.cb by { TimesIs(y.spc, y.Scale()); }
  }

  lemma TimesIs(a: nat, b: nat)
    ensures Times(a, b) == a * b
  {
  }

  /** What a sound layout within the block layer's reach satisfies. */
  lemma NewLayoutFacts(sectors: nat, bps: nat)
    requires sectors < 0x1_0000_0000 && Plan(sectors, bps).Accepted?
    ensures var y := Plan(sectors, bps).layout;
            && y.Sound() && y.bps == bps && (bps == 512 || bps == 4096) && y.count >= 1 && y.bitmapClusters >= 1
            && y.Root() < bps / 4 && y.Root() < y.count + 2 && y.UsedClusters() <= y.count && y.bitmapBytes < 0x1_0000_0000
            && y.heap < 0x1_0000_0000 && y.count < 0x1_0000_0000 && y.volume < 0x1_0000_0000
            && GeometryOf(y).Valid() && GeometryOf(y).Lba(y.count + 2) <= sectors && 1 <= GeometryOf(y).spc <= 256
            && GeometryOf(y).Lba(y.Root()) + GeometryOf(y).spc <= sectors
  {
    hide Plan, Quotient, HeapOffset, Times;
    SoundBelow(sectors, bps);
    PlanParts(sectors, bps);
    PlanShape(sectors, bps);
    var y := Plan(sectors, bps).layout;
    ShapeFacts(y.bps, y.spc, y.cb);
    CountFits(y, sectors);
    NewGeometryValid(y, sectors);
    LbaApart(GeometryOf(y), y.Root(), y.count + 2);
  }

  lemma CountFits(y: Layout, sectors: nat)
    requires y.Sound() && KnownShape(y.bps, y.spc, y.cb) && y.volume == sectors / (y.bps / 512) && sectors < 0x1_0000_0000
    ensures y.volume <= sectors
  {
  }

  /** Format a device and mount it: for every size the mount recovers the boot fields and the special
    * clusters that were laid out, which for the wrapping sizes do not describe a volume.
    */
  method FormatAndRead(dev: Device, sectors: nat, bps: nat, lab: seq<nat>)
    returns (r: int, m: Option<(Boot, Special)>, ghost fatHead: seq<byte>, ghost bitmapHead: seq<byte>)
    requires |dev.disk| == sectors < 0x1_0000_0000_0000_0000 && |lab| <= LABEL_MAX
    modifies dev
    ensures |dev.disk| == sectors && r == if Plan(sectors, bps).Accepted? then 0 else Plan(sectors, bps).code
    ensures r != 0 ==> dev.disk == old(dev.disk) && m == None
    ensures r == 0 ==>
              var y := Plan(sectors, bps).layout;
              && (y.Sound() <==> !Wrapping(sectors, bps)) && y.Laid() && y.count >= 1 && y.bps == bps && (bps == 512 || bps == 4096)
              && Formatted(dev.disk, y, lab, fatHead, bitmapHead) && m == Some((BootFieldsOf(y), SpecialOf(y)))
  {
    hide Plan, Times, RootHead, Noted, BootWritten, RegionIs, ClusterLba, EndsFrom, Wrapping, WholeRoot, NotedAll, SectorsOf;
    m := None;
    if Plan(sectors, bps).Accepted? {
      SoundExactly(sectors, bps);
    }
    r, fatHead, bitmapHead := Mkfs(dev, sectors, bps, lab);
    if r != 0 {
      return;
    }
    RefusedCode2(sectors, bps, r);
    ghost var y := Plan(sectors, bps).layout;
    LayoutFacts(sectors, bps);
    BootReadsBack(dev.disk, y);
    NewRootShown(dev.disk, sectors, bps, lab);
    m := Mount(dev.disk, [y.Root()]);
  }

  /** A device formatted and mounted is an empty file system: the geometry is the one laid
    * out, the root lists nothing, and the clusters in use are exactly those of the bitmap, the
    * up-case table and the root.
    */
  method FormatAndMount(dev: Device, sectors: nat, bps: nat, lab: seq<nat>) returns (r: int, v: Volume?, root: nat)
    requires |dev.disk| == sectors < 0x1_0000_0000 && |lab| <= LABEL_MAX
    modifies dev
    ensures r == if Plan(sectors, bps).Accepted? then 0 else Plan(sectors, bps).code
    ensures r != 0 ==> dev.disk == old(dev.disk)
    ensures r == 0 ==>
              var y := Plan(sectors, bps).layout;
              && v != null && fresh(v) && root == y.Root() && v.g == GeometryOf(y) && v.disk == dev.disk && y.Sound()
              && v.used == Clusters(y.UsedClusters())
              && FsOk(v, NewTree(root), Clusters(y.UsedClusters()) - {root}, {})
  {
    hide Plan, Times, RootHead, Noted, BootWritten, RegionIs, NewFat, NewHeap, Matches, MountedGeometry, ClusterLba, EndsFrom;
    v, root := null, 0;
    if Plan(sectors, bps).Accepted? {
      NewLayoutFacts(sectors, bps);
    }
    ghost var fatHead, bitmapHead;
    var m;
    r, m, fatHead, bitmapHead := FormatAndRead(dev, sectors, bps, lab);
    if r != 0 {
      return;
    }
    RefusedCode2(sectors, bps, r);
    ghost var y := Plan(sectors, bps).layout;
    ghost var g := GeometryOf(y);
    NewLayoutFacts(sectors, bps);
    GeometryRecovered(sectors, bps);
    var b, sp := m.value.0, m.value.1;
    NewMatches(dev.disk, y, lab, fatHead, bitmapHead);
    v := new Volume(MountedGeometry(b, sp), dev.disk, NewFat(g, dev.disk), Clusters(y.UsedClusters()), NewHeap(g, dev.disk));
    root := b.root;
    NewRootHeld(dev.disk, y, lab, fatHead, bitmapHead);
    NewVolumeOk(v, root, y.UsedClusters());
  }

  lemma RefusedCode2(sectors: nat, bps: nat, r: int)
    requires r == if Plan(sectors, bps).Accepted? then 0 else Plan(sectors, bps).code
    ensures r == 0 ==> Plan(sectors, bps).Accepted?
  {
    if Plan(sectors, bps).Refused? {
      RefusedCode(sectors, bps);
    }
  }

  lemma FirstRootSector(disk: seq<Sector>, y: Layout, lab: seq<nat>)
    requires |lab| <= LABEL_MAX && (y.bps == 512 || y.bps == 4096)
    requires RegionIs(disk, GeometryOf(y).Lba(y.Root()), GeometryOf(y).spc, RootHead(y, lab))
    ensures GeometryOf(y).Lba(y.Root()) < |disk| && disk[GeometryOf(y).Lba(y.Root())] == SectorOf(RootHead(y, lab), 0)
  {
    hide RootHead;
    assert disk[GeometryOf(y).Lba(y.Root()) + 0] == SectorOf(RootHead(y, lab), 0);
  }

  /** The root of a new volume is its one cluster, and its first sector says it all. */
  lemma NewRootWhole(disk: seq<Sector>, b: Boot, y: Layout)
    requires b.bpsShift >= 9 && b.count >= 1 && b.root >= 2 && OnVolume(disk, b, b.root)
    requires EndsFrom(disk[ClusterLba(b, b.root)], 0) && Noted(disk[ClusterLba(b, b.root)], 0, Special(0, 0, 0, 0)) == SpecialOf(y)
    ensures WholeRoot(disk, b, [b.root]) && NotedAll(SectorsOf(disk, b, [b.root]), Special(0, 0, 0, 0)) == SpecialOf(y)
  {
    hide ClusterLba, SectorsPerCluster, EndsFrom, Noted, LinkIs;
    var secs := SectorsOf(disk, b, [b.root]);
    assert secs[0] == disk[ClusterLba(b, b.root)];
  }

  lemma NewRootShown(disk: seq<Sector>, sectors: nat, bps: nat, lab: seq<nat>)
    requires |disk| == sectors < 0x1_0000_0000_0000_0000 && Plan(sectors, bps).Accepted? && |lab| <= LABEL_MAX
    requires var y := Plan(sectors, bps).layout; RegionIs(disk, GeometryOf(y).Lba(y.Root()), GeometryOf(y).spc, RootHead(y, lab))
    ensures var y := Plan(sectors, bps).layout;
            && WholeRoot(disk, BootFieldsOf(y), [y.Root()])
            && NotedAll(SectorsOf(disk, BootFieldsOf(y), [y.Root()]), Special(0, 0, 0, 0)) == SpecialOf(y)
  {
    hide Plan, Times, RootHead, Noted, RegionIs, ClusterLba, EndsFrom, WholeRoot, NotedAll, SectorsOf;
    var y := Plan(sectors, bps).layout;
    LayoutFacts(sectors, bps);
    GeometryRecovered(sectors, bps);
    FirstRootSector(disk, y, lab);
    RootNoted(y, lab, disk[GeometryOf(y).Lba(y.Root())]);
    NewRootWhole(disk, BootFieldsOf(y), y);
  }

  /** A volume whose only directory is its empty root. */
  lemma NewVolumeOk(v: Volume, root: nat, n: nat)
    requires v.Valid() && 1 <= v.g.spc <= 0x1_0000 && v.used == Clusters(n) && root in v.used
    requires DirHeld(v.g, v.fat, v.used, v.heap, root, [root], [])
    ensures FsOk(v, NewTree(root), Clusters(n) - {root}, {})
  {
    hide Matches, DirHeld, Clusters, Accounted, TreeOk;
    var t := NewTree(root);
    NewTreeAccounted(v.used, root);
    NewTreeOk(root, v.g.spc * 512);
    assert ChainHeld(v.g, v.fat, v.used, v.heap, t, root);
  }

  lemma NewTreeAccounted(used: set<nat>, root: nat)
    requires root in used
    ensures Accounted(used, NewTree(root).chains, used - {root}, {})
  {
    OwnedAdd(map[], root, [root]);
    assert map[][root := [root]] == NewTree(root).chains;
    assert Owned(NewTree(root).chains) == {root};
  }

  lemma NewTreeOk(root: nat, cb: nat)
    requires root >= 2 && cb >= 1
    ensures TreeOk(NewTree(root), cb)
  {
    assert Rooted(NewTree(root), root, 0, 0);
  }
}
