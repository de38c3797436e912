/** Writing a new volume: boot regions, FAT, allocation bitmap, up-case table and root directory. */
module ExfatFormat {
  import opened Arith
  import opened Bytes
  import opened ExfatVolume
  import opened ExfatContents
  import opened ExfatLayout
  import opened ExfatNames
  import opened ExfatEntrySet

  // ---- buffers ----

  datatype Field = Field(offset: nat, bytes: seq<byte>)

  predicate FieldsFit(fields: seq<Field>, n: nat) {
    forall i :: 0 <= i < |fields| ==> fields[i].offset + |fields[i].bytes| <= n
  }

  /** The fields stored one after the other. */
  function PutAll(b: seq<byte>, fields: seq<Field>): (r: seq<byte>)
    requires FieldsFit(fields, |b|)
    ensures |r| == |b|
  {
    if fields == [] then b
    else Put(PutAll(b, fields[..|fields| - 1]), fields[|fields| - 1].offset, fields[|fields| - 1].bytes)
  }

  predicate Apart(f: Field, o: nat, n: nat) {
    o + n <= f.offset || f.offset + |f.bytes| <= o
  }

  /** Bytes no field touches are as before. */
  lemma {:induction false} PutAllElsewhere(b: seq<byte>, fields: seq<Field>, o: nat, n: nat)
    requires FieldsFit(fields, |b|) && o + n <= |b| && forall i :: 0 <= i < |fields| ==> Apart(fields[i], o, n)
    ensures PutAll(b, fields)[o..o + n] == b[o..o + n]
  {
    if fields != [] {
      PutAllElsewhere(b, fields[..|fields| - 1], o, n);
    }
  }

  /** A field no later one overlaps is there. */
  lemma {:induction false} PutAllAt(b: seq<byte>, fields: seq<Field>, k: nat)
    requires FieldsFit(fields, |b|) && k < |fields|
    requires forall i :: k < i < |fields| ==> Apart(fields[i], fields[k].offset, |fields[k].bytes|)
    ensures PutAll(b, fields)[fields[k].offset..fields[k].offset + |fields[k].bytes|] == fields[k].bytes
  {
    if k < |fields| - 1 {
      PutAllAt(b, fields[..|fields| - 1], k);
    }
  }

  lemma Rd32Slice(b: seq<byte>, o: nat, v: nat)
    requires o + 4 <= |b| && b[o..o + 4] == Le32(v) && v < 0x1_0000_0000
    ensures Rd32(b, o) == v
  {
    Rd32Le32(v);
    var s := b[o..o + 4];
    assert forall i :: 0 <= i < 4 ==> s[i] == b[o + i];
  }

  lemma Rd64Slice(b: seq<byte>, o: nat, v: nat)
    requires o + 8 <= |b| && b[o..o + 8] == Le64(v) && v < 0x1_0000_0000_0000_0000
    ensures Rd64(b, o) == v
  {
    var s := b[o..o + 8];
    assert b[o..o + 4] == s[..4] == Le32(v % 0x1_0000_0000);
    assert b[o + 4..o + 8] == s[4..] == Le32(v / 0x1_0000_0000);
    Rd32Slice(b, o, v % 0x1_0000_0000);
    Rd32Slice(b, o + 4, v / 0x1_0000_0000);
  }

  // ---- contents ----

  const SIGNATURE: seq<byte> := [0x45, 0x58, 0x46, 0x41, 0x54, 0x20, 0x20, 0x20]

  function BpsShift(y: Layout): nat {
    if y.bps == 4096 then 12 else 9
  }

  /** The fields of the main boot sector (section 3.1 of the exFAT specification). */
  function BootFields(y: Layout): seq<Field>
    requires y.count >= 1
  {
    [Field(0, [0xEB, 0x76, 0x90] + SIGNATURE),
     Field(72, Le64(y.volume)),
     Field(80, Le32(FAT_OFFSET) + Le32(y.fatLen) + Le32(y.heap) + Le32(y.count) + Le32(y.Root())),
     Field(100, [0x4E, 0x49, 0x41, 0x4D, 0x00, 0x01]),
     Field(108, [BpsShift(y), y.spcShift % 256, 1, 0x80, Trunc32(y.UsedClusters() * 100) / y.count % 256]),
     Field(120, seq(390, _ => 0xF4)),
     Field(510, [0x55, 0xAA])]
  }

  function BootSector(y: Layout): (b: seq<byte>)
    requires y.count >= 1 && y.bps >= 512
    ensures |b| == y.bps
  {
    PutAll(Zeros(y.bps), BootFields(y))
  }

  function FatHeadEntry(y: Layout, c: nat): (v: nat)
    ensures c < 0x1_0000_0000 && y.Root() < 0x1_0000_0000 ==> v < 0x1_0000_0000
  {
    if c == 0 then 0xFFFF_FFF8
    else if c == 1 then 0xFFFF_FFFF
    else if c < 1 + y.bitmapClusters then c + 1
    else if c <= y.Root() then FAT_EOC
    else 0
  }

  /** The first logical sector of the FAT. */
  method FatHead(y: Layout) returns (sec: seq<byte>)
    requires y.bps >= 512 && y.Root() < y.bps / 4 && y.Root() < 0x1_0000_0000
    ensures |sec| == y.bps
    ensures forall c :: 0 <= c < y.bps / 4 ==> Rd32(sec, c * 4) == FatHeadEntry(y, c)
  {
    hide Rd32, Le32;
    sec := Zeros(y.bps);
    forall c | 0 <= c < y.bps / 4
      ensures Rd32(sec, c * 4) == 0
    {
      ZeroField(sec, c * 4);
    }
    sec := FatStore(sec, y, 0, 0, 0xFFFF_FFF8);
    sec := FatStore(sec, y, 1, 1, 0xFFFF_FFFF);
    for i := 0 to y.bitmapClusters
      invariant |sec| == y.bps
      invariant forall c :: 0 <= c < y.bps / 4 ==> Rd32(sec, c * 4) == if c < 2 + i then FatHeadEntry(y, c) else 0
    {
      var cl := 2 + i;
      var next := if i + 1 < y.bitmapClusters then cl + 1 else FAT_EOC;
      sec := FatStore(sec, y, cl, cl, next);
    }
    sec := FatStore(sec, y, y.Upcase(), y.Upcase(), FAT_EOC);
    sec := FatStore(sec, y, y.Root(), y.Root(), FAT_EOC);
  }

  lemma ZeroField(sec: seq<byte>, o: nat)
    requires o + 4 <= |sec| && forall i :: o <= i < o + 4 ==> sec[i] == 0
    ensures Rd32(sec, o) == 0
  {
  }

  /** Store entry `c`; the entries before it are done and those after it still zero. */
  method FatStore(sec: seq<byte>, y: Layout, c: nat, ghost done: nat, value: nat) returns (r: seq<byte>)
    requires |sec| == y.bps && c < y.bps / 4 && value == FatHeadEntry(y, c) < 0x1_0000_0000 && done == c
    requires forall d :: 0 <= d < y.bps / 4 ==> Rd32(sec, d * 4) == if d < c then FatHeadEntry(y, d) else 0
    ensures |r| == y.bps
    ensures forall d :: 0 <= d < y.bps / 4 ==> Rd32(r, d * 4) == if d < c + 1 then FatHeadEntry(y, d) else 0
  {
    hide Rd32, Le32, FatHeadEntry;
    r := Put(sec, c * 4, Le32(value));
    Rd32Put(sec, c * 4, value);
    forall d | 0 <= d < y.bps / 4 && d != c
      ensures Rd32(r, d * 4) == Rd32(sec, d * 4)
    {
      Rd32PutElsewhere(sec, c * 4, Le32(value), d * 4);
    }
  }

  /** The first logical sector of the allocation bitmap: the first `used` bits set. */
  method BitmapHead(y: Layout) returns (sec: seq<byte>)
    requires y.bps >= 512 && y.UsedClusters() < y.bps / 4
    ensures |sec| == y.bps
    ensures forall i :: 0 <= i < y.bps * 8 ==> (TestBit(sec[i / 8], i % 8) <==> i < y.UsedClusters())
  {
    hide TestBit, BitWritten;
    sec := Zeros(y.bps);
    forall i | 0 <= i < y.bps * 8
      ensures !TestBit(sec[i / 8], i % 8)
    {
      NoBits(i % 8);
    }
    for k := 0 to y.UsedClusters()
      invariant |sec| == y.bps
      invariant forall i :: 0 <= i < y.bps * 8 ==> (TestBit(sec[i / 8], i % 8) <==> i < k)
    {
      ghost var sec0 := sec;
      var b: byte := BitWritten(sec[k / 8], k % 8, true);
      sec := sec[k / 8 := b];
      forall i | 0 <= i < y.bps * 8
        ensures TestBit(sec[i / 8], i % 8) <==> i < k + 1
      {
        BitWrittenTests(sec0[k / 8], k % 8, i % 8);
      }
    }
  }

  lemma {:induction false} NoBits(k: nat)
    ensures !TestBit(0, k)
    decreases k
  {
    if k > 0 {
      NoBits(k - 1);
    }
  }

  lemma BitWrittenTests(b: byte, k: nat, j: nat)
    requires k < 8
    ensures TestBit(BitWritten(b, k, true), j) <==> j == k || TestBit(b, j)
  {
    WriteBitTests(b, k, true, j);
  }

  // ---- checksums ----

  /** Rotate right by one bit and add a byte, in 32 bits. */
  function RotateAdd(sum: nat, b: byte): (r: nat)
    ensures r < 0x1_0000_0000
  {
    Trunc32((if sum % 2 == 1 then 0x8000_0000 else 0) + sum / 2 + b)
  }

  /** Boot bytes that change while the volume is mounted: VolumeFlags and PercentInUse. */
  predicate Volatile(i: int) {
    i == 106 || i == 107 || i == 112
  }

  /** The boot region checksum over the first `n` bytes (section 3.4 of the exFAT specification). */
  function BootSum(b: seq<byte>, n: nat): (r: nat)
    requires n <= |b|
    ensures r < 0x1_0000_0000
  {
    if n == 0 then 0 else if Volatile(n - 1) then BootSum(b, n - 1) else RotateAdd(BootSum(b, n - 1), b[n - 1])
  }

  /** The checksum does not depend on the volatile bytes. */
  lemma {:induction false} BootSumIgnoresVolatile(b: seq<byte>, c: seq<byte>, n: nat)
    requires n <= |b| == |c| && forall i :: 0 <= i < n && !Volatile(i) ==> b[i] == c[i]
    ensures BootSum(b, n) == BootSum(c, n)
  {
    if n > 0 {
      BootSumIgnoresVolatile(b, c, n - 1);
    }
  }

  /** Add one logical sector, at offset `|done|` of the region, to the running checksum. */
  method AddToBootSum(sum: nat, sec: seq<byte>, first: bool, ghost done: seq<byte>) returns (r: nat)
    requires sum == BootSum(done, |done|) && (first <==> done == []) && (done == [] || |done| >= 113)
    ensures r == BootSum(done + sec, |done + sec|)
  {
    hide RotateAdd;
    r := sum;
    BootSumPrefix(done, sec, |done|);
    for i := 0 to |sec|
      invariant r == BootSum(done + sec, |done| + i)
    {
      if first && Volatile(i) {
        continue;
      }
      r := RotateAdd(r, sec[i]);
    }
  }

  lemma {:induction false} BootSumPrefix(a: seq<byte>, b: seq<byte>, n: nat)
    requires n <= |a|
    ensures BootSum(a + b, n) == BootSum(a, n)
  {
    if n > 0 {
      BootSumPrefix(a, b, n - 1);
    }
  }

  // ---- the device ----

  /** Physical sector `i` of a buffer. */
  function SectorOf(data: seq<byte>, i: nat): Sector
    requires i * 512 + 512 <= |data|
  {
    data[i * 512..i * 512 + 512]
  }

  class Device {
    var disk: seq<Sector>

    /** Write whole sectors from `lba` on. */
    method Write(lba: nat, data: seq<byte>)
      requires |data| % 512 == 0 && lba + |data| / 512 <= |disk|
      modifies this
      ensures |disk| == |old(disk)|
      ensures forall l :: 0 <= l < |disk| && !(lba <= l < lba + |data| / 512) ==> disk[l] == old(disk)[l]
      ensures forall i :: 0 <= i < |data| / 512 ==> disk[lba + i] == SectorOf(data, i)
    {
      var n := |data| / 512;
      var secs: seq<Sector> := seq(n, i requires 0 <= i < n => SectorOf(data, i));
      disk := disk[..lba] + secs + disk[lba + n..];
    }

    /** Write `count` zero sectors, eight at a time. */
    method WriteZeros(lba: nat, count: nat)
      requires lba + count <= |disk|
      modifies this
      ensures |disk| == |old(disk)|
      ensures forall l :: 0 <= l < |disk| ==> disk[l] == if lba <= l < lba + count then Zeros(512) else old(disk)[l]
    {
      var at, left := lba, count;
      while left > 0
        invariant at + left == lba + count && lba <= at && |disk| == |old(disk)|
        invariant forall l :: 0 <= l < |disk| ==> disk[l] == if lba <= l < at then Zeros(512) else old(disk)[l]
      {
        var chunk := if left > 8 then 8 else left;
        ghost var before := disk;
        var zbuf := Zeros(chunk * 512);
        Write(at, zbuf);
        forall l | at <= l < at + chunk
          ensures disk[l] == Zeros(512)
        {
          assert disk[at + (l - at)] == SectorOf(zbuf, l - at);
        }
        at, left := at + chunk, left - chunk;
      }
    }

    /** A region of `n` sectors: a first buffer, then zeros. */
    method WriteRegion(lba: nat, n: nat, head: seq<byte>)
      requires |head| % 512 == 0 && |head| / 512 <= n && lba + n <= |disk|
      modifies this
      ensures |disk| == |old(disk)| && RegionIs(disk, lba, n, head)
      ensures forall l :: 0 <= l < |disk| && !(lba <= l < lba + n) ==> disk[l] == old(disk)[l]
    {
      var s := |head| / 512;
      Write(lba, head);
      if n > s {
        WriteZeros(lba + s, n - s);
      }
    }
  }

  /** The region of `n` sectors from `lba` on holds `head` and then zeros. */
  ghost predicate RegionIs(disk: seq<Sector>, lba: nat, n: nat, head: seq<byte>)
    requires |head| % 512 == 0
  {
    && lba + n <= |disk| && |head| / 512 <= n
    && (forall i :: 0 <= i < |head| / 512 ==> disk[lba + i] == SectorOf(head, i))
    && forall l :: lba + |head| / 512 <= l < lba + n ==> disk[l] == Zeros(512)
  }

  lemma RegionKept(disk: seq<Sector>, disk': seq<Sector>, lba: nat, n: nat, head: seq<byte>)
    requires |head| % 512 == 0 && RegionIs(disk, lba, n, head) && |disk'| == |disk|
    requires forall l :: lba <= l < lba + n ==> disk'[l] == disk[l]
    ensures RegionIs(disk', lba, n, head)
  {
  }

  // ---- the boot regions ----

  /** Logical sectors 1 to 8 carry only the extended boot signature. */
  function ExtendedBoot(bps: nat): (b: seq<byte>)
    requires bps >= 4
    ensures |b| == bps
  {
    Put(Zeros(bps), bps - 2, [0x55, 0xAA])
  }

  /** Sectors 0 to 10 of the boot region. */
  function BootPart(y: Layout, k: nat): (b: seq<byte>)
    requires y.count >= 1 && y.bps >= 512
    ensures |b| == y.bps
  {
    if k == 0 then BootSector(y) else if k <= 8 then ExtendedBoot(y.bps) else Zeros(y.bps)
  }

  function BootParts(y: Layout, n: nat): (b: seq<byte>)
    requires y.count >= 1 && y.bps >= 512
    ensures n > 0 ==> |b| >= 512
    ensures n == 0 ==> b == []
  {
    if n == 0 then [] else BootParts(y, n - 1) + BootPart(y, n - 1)
  }

  /** The checksum repeated over a logical sector. */
  function ChecksumSector(sum: nat, bps: nat): (b: seq<byte>)
    ensures |b| == bps
  {
    seq(bps, i requires 0 <= i < bps => Le32(sum)[i % 4])
  }

  /** Logical sector `k` of the boot region. */
  function BootLogical(y: Layout, k: nat): (b: seq<byte>)
    requires y.count >= 1 && y.bps >= 512
    ensures |b| == y.bps
  {
    if k < 11 then BootPart(y, k) else ChecksumSector(BootSum(BootParts(y, 11), |BootParts(y, 11)|), y.bps)
  }

  /** Logical sector `k` is at its place and in the backup region. */
  ghost predicate BootWritten(disk: seq<Sector>, y: Layout, k: nat)
    requires y.count >= 1 && y.bps >= 512
  {
    BootAt(disk, y, k, k) && BootAt(disk, y, k, k + 12)
  }

  ghost predicate BootAt(disk: seq<Sector>, y: Layout, k: nat, at: nat)
    requires y.count >= 1 && y.bps >= 512
  {
    forall i :: 0 <= i < y.Scale() ==> BootPiece(disk, y, k, Times(at, y.Scale()), i)
  }

  /** Physical sector `i` of logical sector `k` is at its place from `lba` on. */
  ghost predicate BootPiece(disk: seq<Sector>, y: Layout, k: nat, lba: nat, i: nat)
    requires y.count >= 1 && y.bps >= 512
  {
    lba + i < |disk| && i * 512 + 512 <= |BootLogical(y, k)| && disk[lba + i] == SectorOf(BootLogical(y, k), i)
  }

  lemma ScaleCases(y: Layout, k: nat)
    requires y.bps == 512 || y.bps == 4096
    ensures y.Scale() == 1 || y.Scale() == 8
    ensures Times(k, y.Scale()) == if y.bps == 512 then k else k * 8
    ensures y.bps / 512 == y.Scale() && y.bps % 512 == 0
  {
  }

  /** A write elsewhere keeps a boot sector. */
  lemma BootAtKept(disk: seq<Sector>, disk': seq<Sector>, y: Layout, k: nat, at: nat, lba: nat)
    requires y.count >= 1 && (y.bps == 512 || y.bps == 4096) && BootAt(disk, y, k, at) && |disk'| == |disk|
    requires lba != at && forall l :: 0 <= l < |disk| && !(Times(lba, y.Scale()) <= l < Times(lba, y.Scale()) + y.Scale()) ==> disk'[l] == disk[l]
    ensures BootAt(disk', y, k, at)
  {
    hide BootLogical, SectorOf, Times;
    ScaleCases(y, at);
    ScaleCases(y, lba);
    forall i | 0 <= i < y.Scale()
      ensures BootPiece(disk', y, k, Times(at, y.Scale()), i)
    {
      assert BootPiece(disk, y, k, Times(at, y.Scale()), i);
    }
  }

  /** Write a logical sector of the main boot region and of its backup. */
  method WriteBoth(dev: Device, y: Layout, k: nat, sec: seq<byte>)
    requires y.count >= 1 && (y.bps == 512 || y.bps == 4096) && k < 12 && sec == BootLogical(y, k) && 24 * y.Scale() <= |dev.disk|
    requires forall j :: 0 <= j < k ==> BootWritten(dev.disk, y, j)
    modifies dev
    ensures |dev.disk| == |old(dev.disk)| && forall j :: 0 <= j <= k ==> BootWritten(dev.disk, y, j)
    ensures forall l :: 24 * y.Scale() <= l < |dev.disk| ==> dev.disk[l] == old(dev.disk)[l]
  {
    hide BootLogical, SectorOf, BootAt;
    ScaleCases(y, k);
    ScaleCases(y, k + 12);
    ghost var disk0 := dev.disk;
    dev.Write(Times(k, y.Scale()), sec);
    ghost var disk1 := dev.disk;
    BootAtWritten(disk1, y, k, k, sec);
    dev.Write(Times(k + 12, y.Scale()), sec);
    BootAtWritten(dev.disk, y, k, k + 12, sec);
    BootAtKept(disk1, dev.disk, y, k, k, k + 12);
    forall j | 0 <= j < k
      ensures BootWritten(dev.disk, y, j)
    {
      assert BootWritten(disk0, y, j);
      BootAtKept(disk0, disk1, y, j, j, k);
      BootAtKept(disk0, disk1, y, j, j + 12, k);
      BootAtKept(disk1, dev.disk, y, j, j, k + 12);
      BootAtKept(disk1, dev.disk, y, j, j + 12, k + 12);
    }
  }

  lemma BootAtWritten(disk: seq<Sector>, y: Layout, k: nat, at: nat, sec: seq<byte>)
    requires y.count >= 1 && (y.bps == 512 || y.bps == 4096) && sec == BootLogical(y, k)
    requires Times(at, y.Scale()) + y.bps / 512 <= |disk|
    requires forall i :: 0 <= i < y.bps / 512 ==> disk[Times(at, y.Scale()) + i] == SectorOf(sec, i)
    ensures BootAt(disk, y, k, at)
  {
    hide BootLogical, SectorOf;
  }

  lemma NothingSummed(y: Layout)
    requires y.count >= 1 && y.bps >= 512
    ensures BootSum(BootParts(y, 0), |BootParts(y, 0)|) == 0
  {
  }

  /** Both boot regions: boot sector, extended boot sectors, parameters and checksum. */
  method WriteBootRegions(dev: Device, y: Layout)
    requires y.count >= 1 && (y.bps == 512 || y.bps == 4096) && 24 * y.Scale() <= |dev.disk|
    modifies dev
    ensures |dev.disk| == |old(dev.disk)| && forall j :: 0 <= j < 12 ==> BootWritten(dev.disk, y, j)
    ensures forall l :: 24 * y.Scale() <= l < |dev.disk| ==> dev.disk[l] == old(dev.disk)[l]
  {
    hide BootAt, BootSum, BootSector, ExtendedBoot, ChecksumSector;
    var bsum := 0;
    assert BootSum(BootParts(y, 0), |BootParts(y, 0)|) == 0 by { NothingSummed(y); }
    for k := 0 to 11
      invariant |dev.disk| == |old(dev.disk)| && forall j :: 0 <= j < k ==> BootWritten(dev.disk, y, j)
      invariant forall l :: 24 * y.Scale() <= l < |dev.disk| ==> dev.disk[l] == old(dev.disk)[l]
      invariant bsum == BootSum(BootParts(y, k), |BootParts(y, k)|)
    {
      assert BootParts(y, k + 1) == BootParts(y, k) + BootPart(y, k);
      var sec := BootPart(y, k);
      bsum := AddToBootSum(bsum, sec, k == 0, BootParts(y, k));
      WriteBoth(dev, y, k, sec);
    }
    WriteBoth(dev, y, 11, ChecksumSector(bsum, y.bps));
  }

  // ---- the heap ----

  const TYPE_BITMAP: byte := 0x81
  const TYPE_UPCASE: byte := 0x82
  const TYPE_LABEL: byte := 0x83
  const LABEL_MAX: nat := 11

  /** The compressed up-case table: identity but for the letters a to z. */
  function UpcaseTable(): (b: seq<byte>)
    ensures |b| == 60
  {
    [0xFF, 0xFF, 0x61, 0x00]
    + seq(52, i requires 0 <= i < 52 => if i % 2 == 0 then 0x41 + i / 2 else 0)
    + [0xFF, 0xFF, 0x85, 0xFF]
  }

  function TableSum(t: seq<byte>): (r: nat)
    ensures r < 0x1_0000_0000
  {
    if t == [] then 0 else RotateAdd(TableSum(t[..|t| - 1]), t[|t| - 1])
  }

  /** The label, bitmap and up-case entries of the root (sections 7.1 to 7.3 of the exFAT specification). */
  function RootFields(y: Layout, lab: seq<nat>): seq<Field>
    requires |lab| <= LABEL_MAX
  {
    [Field(0, [TYPE_LABEL, |lab|]), Field(2, UnitBytes(lab)),
     Field(32, [TYPE_BITMAP]), Field(52, Le32(2) + Le64(y.bitmapBytes)),
     Field(64, [TYPE_UPCASE]), Field(68, Le32(TableSum(UpcaseTable()))), Field(84, Le32(y.Upcase())), Field(88, Le64(60))]
  }

  function RootHead(y: Layout, lab: seq<nat>): (b: seq<byte>)
    requires |lab| <= LABEL_MAX && y.bps >= 512
    ensures |b| == y.bps
  {
    PutAll(Zeros(y.bps), RootFields(y, lab))
  }

  /** The geometry of the volume in physical sectors. */
  function GeometryOf(y: Layout): Geometry {
    Geometry(Times(FAT_OFFSET, y.Scale()), Times(y.heap, y.Scale()), Times(y.spc, y.Scale()), y.count, 2, y.bitmapClusters)
  }

  /** A cluster starts `spc` file-system sectors after the one before it. */
  lemma ClusterStart(y: Layout, c: nat)
    requires c >= 2
    ensures GeometryOf(y).Lba(c) == Times(y.heap + (c - 2) * y.spc, y.Scale())
  {
    LbaClosed(GeometryOf(y), c);
    Distribute(y.heap, (c - 2) * y.spc, y.Scale());
    Associate(c - 2, y.spc, y.Scale());
  }

  lemma Distribute(a: nat, b: nat, s: nat)
    ensures Times(a + b, s) == Times(a, s) + Times(b, s)
  {
  }

  lemma Associate(a: nat, b: nat, s: nat)
    ensures a * Times(b, s) == Times(a * b, s)
  {
  }

  /** A whole number of clusters, in sectors. */
  lemma ClusterSpan(g: Geometry, c: nat, n: nat)
    requires c >= 2
    ensures g.Lba(c + n) == g.Lba(c) + Times(n, g.spc)
  {
    LbaClosed(g, c);
    LbaClosed(g, c + n);
    Distribute(c - 2, n, g.spc);
  }

  /** The regions of a layout follow each other on the device. */
  lemma RegionsInOrder(y: Layout, sectors: nat)
    requires y.Laid() && (y.bps == 512 || y.bps == 4096) && y.volume == sectors / (y.bps / 512)
    ensures var g := GeometryOf(y);
            && 24 * y.Scale() <= g.fatLba && g.fatLba + Times(y.fatLen, y.Scale()) == g.heapLba == g.Lba(2)
            && g.Lba(2 + y.bitmapClusters) == g.Lba(2) + Times(y.bitmapClusters, g.spc)
            && g.Lba(y.Root()) == g.Lba(y.Upcase()) + g.spc && g.Lba(y.Root() + 1) == g.Lba(y.Root()) + g.spc
            && g.Lba(y.Root() + 1) <= g.Lba(y.count + 2) <= sectors
  {
    hide Times;
    var g := GeometryOf(y);
    HeapStarts(y);
    ClusterSpan(g, 2, y.bitmapClusters);
    LbaRises(g, y.Root() + 1, y.count + 2);
    HeapEnds(y, sectors);
  }

  lemma HeapStarts(y: Layout)
    requires FAT_OFFSET + y.fatLen == y.heap && (y.bps == 512 || y.bps == 4096)
    ensures var g := GeometryOf(y);
            24 * y.Scale() <= g.fatLba && g.fatLba + Times(y.fatLen, y.Scale()) == g.heapLba == g.Lba(2)
  {
    Distribute(FAT_OFFSET, y.fatLen, y.Scale());
    ScaleCases(y, FAT_OFFSET);
    LbaClosed(GeometryOf(y), 2);
  }

  lemma HeapEnds(y: Layout, sectors: nat)
    requires y.heap + y.count * y.spc <= y.volume && (y.bps == 512 || y.bps == 4096) && y.volume == sectors / (y.bps / 512)
    ensures GeometryOf(y).Lba(y.count + 2) <= sectors
  {
    hide Times;
    ClusterStart(y, y.count + 2);
    InsideDevice(y, sectors);
  }

  lemma InsideDevice(y: Layout, sectors: nat)
    requires y.heap + y.count * y.spc <= y.volume && (y.bps == 512 || y.bps == 4096) && y.volume == sectors / (y.bps / 512)
    ensures Times(y.heap + (y.count + 2 - 2) * y.spc, y.Scale()) <= sectors
  {
    ScaleCases(y, y.heap + y.count * y.spc);
  }

  lemma LbaRises(g: Geometry, c: nat, d: nat)
    requires 2 <= c <= d
    ensures g.Lba(c) <= g.Lba(d)
  {
    if c < d {
      LbaApart(g, c, d);
    }
  }

  /** What the buffers at the head of the FAT and of the bitmap hold. */
  ghost predicate HeadsOk(y: Layout, fatHead: seq<byte>, bitmapHead: seq<byte>) {
    && |fatHead| == y.bps && |bitmapHead| == y.bps
    && (forall c :: 0 <= c < y.bps / 4 ==> Rd32(fatHead, c * 4) == FatHeadEntry(y, c))
    && forall i :: 0 <= i < y.bps * 8 ==> (TestBit(bitmapHead[i / 8], i % 8) <==> i < y.UsedClusters())
  }

  /** The device holds a new volume. */
  ghost predicate Formatted(disk: seq<Sector>, y: Layout, lab: seq<nat>, fatHead: seq<byte>, bitmapHead: seq<byte>)
    requires y.count >= 1 && (y.bps == 512 || y.bps == 4096) && |lab| <= LABEL_MAX
  {
    var g := GeometryOf(y);
    && HeadsOk(y, fatHead, bitmapHead)
    && (forall k :: 0 <= k < 12 ==> BootWritten(disk, y, k))
    && RegionIs(disk, g.fatLba, Times(y.fatLen, y.Scale()), fatHead)
    && (y.bitmapClusters >= 1 ==> RegionIs(disk, g.Lba(2), Times(y.bitmapClusters, g.spc), bitmapHead))
    && RegionIs(disk, g.Lba(y.Upcase()), g.spc, Put(Zeros(y.bps), 0, UpcaseTable()))
    && RegionIs(disk, g.Lba(y.Root()), g.spc, RootHead(y, lab))
  }

  lemma BootWrittenKept(disk: seq<Sector>, disk': seq<Sector>, y: Layout, k: nat)
    requires y.count >= 1 && (y.bps == 512 || y.bps == 4096) && k < 12 && BootWritten(disk, y, k) && |disk'| == |disk|
    requires forall l :: 0 <= l < 24 * y.Scale() && l < |disk| ==> disk'[l] == disk[l]
    ensures BootWritten(disk', y, k)
  {
    hide BootLogical, SectorOf, Times;
    ScaleCases(y, k);
    ScaleCases(y, k + 12);
    forall at, i | at in {k, k + 12} && 0 <= i < y.Scale()
      ensures BootPiece(disk', y, k, Times(at, y.Scale()), i)
    {
      assert BootPiece(disk, y, k, Times(at, y.Scale()), i);
    }
  }

  /** Format a device: the result code, and on success a new volume. */
  method Mkfs(dev: Device, sectors: nat, bps: nat, lab: seq<nat>)
    returns (r: int, ghost fatHead: seq<byte>, ghost bitmapHead: seq<byte>)
    requires |dev.disk| == sectors < 0x1_0000_0000_0000_0000 && |lab| <= LABEL_MAX
    modifies dev
    ensures |dev.disk| == |old(dev.disk)|
    ensures r == if Plan(sectors, bps).Accepted? then 0 else Plan(sectors, bps).code
    ensures r != 0 ==> dev.disk == old(dev.disk)
    ensures r == 0 ==>
              var y := Plan(sectors, bps).layout;
              y.count >= 1 && y.bps == bps && (bps == 512 || bps == 4096) && Formatted(dev.disk, y, lab, fatHead, bitmapHead)
  {
    hide Plan, BootWritten, Times, UpcaseTable, RootHead, Rd32, TestBit, RegionIs;
    fatHead, bitmapHead := [], [];
    var p := Plan(sectors, bps);
    if p.Refused? {
      RefusedCode(sectors, bps);
      return p.code, fatHead, bitmapHead;
    }
    var y := p.layout;
    PlanParts(sectors, bps);
    PlanShape(sectors, bps);
    AlwaysLaid(sectors, bps);
    RegionsInOrder(y, sectors);
    ScaleCases(y, y.fatLen);
    OrderOfLayout(y, sectors);
    WriteBootRegions(dev, y);
    ghost var disk1 := dev.disk;
    fatHead, bitmapHead := WriteAllocation(dev, y);
    ghost var disk2 := dev.disk;
    WriteRoot(dev, y, lab);
    ghost var g := GeometryOf(y);
    RegionKept(disk2, dev.disk, g.fatLba, Times(y.fatLen, y.Scale()), fatHead);
    if y.bitmapClusters >= 1 {
      RegionKept(disk2, dev.disk, g.Lba(2), Times(y.bitmapClusters, g.spc), bitmapHead);
    }
    forall k | 0 <= k < 12
      ensures BootWritten(dev.disk, y, k)
    {
      BootWrittenKept(disk1, dev.disk, y, k);
    }
    r := 0;
  }

  lemma RefusedCode(sectors: nat, bps: nat)
    requires Plan(sectors, bps).Refused?
    ensures Plan(sectors, bps).code < 0
  {
    hide HeapOffset, Quotient, BitmapBytes;
  }

  lemma OneSectorFits(y: Layout)
    requires y.Laid() && (y.bps == 512 || y.bps == 4096) && y.spc >= 1
    ensures y.Scale() <= Times(y.fatLen, y.Scale()) && y.Scale() <= Times(y.spc, y.Scale())
    ensures y.bitmapClusters >= 1 ==> Times(y.spc, y.Scale()) <= Times(y.bitmapClusters, Times(y.spc, y.Scale()))
  {
    MulMonotone(1, y.fatLen, y.Scale());
    MulMonotone(1, y.spc, y.Scale());
    if y.bitmapClusters >= 1 {
      MulMonotone(1, y.bitmapClusters, Times(y.spc, y.Scale()));
    }
  }

  /** The regions are in order on a device of `n` sectors, each with room for its first buffer. */
  predicate InOrder(y: Layout, n: nat) {
    var g, s := GeometryOf(y), y.Scale();
    && g.fatLba + Times(y.fatLen, s) == g.Lba(2) && g.Lba(2) + Times(y.bitmapClusters, g.spc) == g.Lba(y.Upcase())
    && g.Lba(y.Upcase()) + g.spc == g.Lba(y.Root()) && g.Lba(y.Root()) + g.spc <= n
    && s <= Times(y.fatLen, s) && s <= g.spc && (y.bitmapClusters >= 1 ==> g.spc <= Times(y.bitmapClusters, g.spc))
  }

  lemma OrderOfLayout(y: Layout, n: nat)
    requires y.Laid() && (y.bps == 512 || y.bps == 4096) && y.spc >= 1 && y.volume == n / (y.bps / 512)
    ensures InOrder(y, n)
  {
    hide Times;
    RegionsInOrder(y, n);
    OneSectorFits(y);
  }

  /** The FAT and the allocation bitmap. The bitmap's first sector is written even if it has no
    * cluster; the up-case table then goes over it.
    */
  method WriteAllocation(dev: Device, y: Layout) returns (fatHead: seq<byte>, bitmapHead: seq<byte>)
    requires InOrder(y, |dev.disk|) && (y.bps == 512 || y.bps == 4096) && y.Root() < y.bps / 4
    modifies dev
    ensures |dev.disk| == |old(dev.disk)| && HeadsOk(y, fatHead, bitmapHead)
    ensures forall l :: 0 <= l < |dev.disk| && !(GeometryOf(y).fatLba <= l < GeometryOf(y).Lba(y.Root())) ==> dev.disk[l] == old(dev.disk)[l]
    ensures RegionIs(dev.disk, GeometryOf(y).fatLba, Times(y.fatLen, y.Scale()), fatHead)
    ensures y.bitmapClusters >= 1 ==> RegionIs(dev.disk, GeometryOf(y).Lba(2), Times(y.bitmapClusters, GeometryOf(y).spc), bitmapHead)
  {
    hide Times, Rd32, TestBit, RegionIs;
    var g, s := GeometryOf(y), y.Scale();
    ScaleCases(y, y.fatLen);
    fatHead := FatHead(y);
    dev.WriteRegion(g.fatLba, Times(y.fatLen, s), fatHead);
    ghost var disk1 := dev.disk;
    bitmapHead := BitmapHead(y);
    ClusterStart(y, 2);
    dev.WriteRegion(Times(y.heap, s), if y.bitmapClusters >= 1 then Times(y.bitmapClusters, g.spc) else s, bitmapHead);
    RegionKept(disk1, dev.disk, g.fatLba, Times(y.fatLen, s), fatHead);
  }

  /** The up-case table and the root directory. */
  method WriteRoot(dev: Device, y: Layout, lab: seq<nat>)
    requires InOrder(y, |dev.disk|) && (y.bps == 512 || y.bps == 4096) && |lab| <= LABEL_MAX
    modifies dev
    ensures |dev.disk| == |old(dev.disk)|
    ensures forall l :: 0 <= l < GeometryOf(y).Lba(y.Upcase()) && l < |dev.disk| ==> dev.disk[l] == old(dev.disk)[l]
    ensures RegionIs(dev.disk, GeometryOf(y).Lba(y.Upcase()), GeometryOf(y).spc, Put(Zeros(y.bps), 0, UpcaseTable()))
    ensures RegionIs(dev.disk, GeometryOf(y).Lba(y.Root()), GeometryOf(y).spc, RootHead(y, lab))
  {
    hide Times, UpcaseTable, RootHead, RegionIs, Put;
    var g, s := GeometryOf(y), y.Scale();
    ScaleCases(y, y.fatLen);
    ClusterStart(y, y.Upcase());
    dev.WriteRegion(Times(y.heap + (y.Upcase() - 2) * y.spc, s), g.spc, Put(Zeros(y.bps), 0, UpcaseTable()));
    ghost var disk1 := dev.disk;
    ClusterStart(y, y.Root());
    dev.WriteRegion(Times(y.heap + (y.Root() - 2) * y.spc, s), g.spc, RootHead(y, lab));
    RegionKept(disk1, dev.disk, g.Lba(y.Upcase()), g.spc, Put(Zeros(y.bps), 0, UpcaseTable()));
  }
}
