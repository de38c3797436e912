/** Laying out a new volume: where the FAT, the bitmap, the up-case table and the root go, and
  * for which sizes the layout is sound.
  */
module ExfatLayout {
  import opened Arith

  const ERR_SECTOR_SIZE: int := -3
  const ERR_TOO_SMALL: int := -4

  const FAT_OFFSET: nat := 128

  function Trunc32(x: nat): (r: nat)
    ensures r < 0x1_0000_0000
  {
    x % 0x1_0000_0000
  }

  /** 64-bit unsigned subtraction. */
  function Sub64(a: nat, b: nat): nat {
    (a - b) % 0x1_0000_0000_0000_0000
  }

  /** The cluster shapes there are: bytes in a logical sector, logical sectors in a cluster, bytes in a cluster. */
  predicate KnownShape(bps: nat, spc: nat, cb: nat) {
    || (bps == 512 && ((spc == 8 && cb == 4096) || (spc == 64 && cb == 32768) || (spc == 256 && cb == 131072)))
    || (bps == 4096 && ((spc == 1 && cb == 4096) || (spc == 8 && cb == 32768) || (spc == 32 && cb == 131072)))
  }

  /** Whole units of `n`. */
  function Quotient(n: nat, unit: nat): nat
    requires unit >= 1
  {
    n / unit
  }

  /** Offsets and lengths in logical sectors of `bps` bytes, `spc` of them to a cluster. */
  datatype Layout = Layout(
    bps: nat, spcShift: nat, spc: nat, cb: nat, volume: nat, fatLen: nat, heap: nat, count: nat,
    bitmapBytes: nat, bitmapClusters: nat)
  {
    function Upcase(): nat { 2 + bitmapClusters }
    function Root(): nat { 3 + bitmapClusters }
    function UsedClusters(): nat { bitmapClusters + 2 }
    function Scale(): nat { bps / 512 }

    /** The regions follow each other inside the volume, and the first structures fit the heap. */
    predicate Laid() {
      && FAT_OFFSET + fatLen == heap && 24 <= FAT_OFFSET && 1 <= fatLen
      && heap + count * spc <= volume && Root() < count + 2
    }

    /** Besides, the FAT has an entry and the bitmap a bit for every cluster. */
    predicate Sound() {
      && Laid()
      && (count + 2) * 4 <= fatLen * bps
      && count <= bitmapBytes * 8 && bitmapBytes <= bitmapClusters * cb && 1 <= bitmapClusters
    }
  }

  datatype Planned = Refused(code: int) | Accepted(layout: Layout)

  /** log2 of the cluster size. */
  function ClusterShift(sectors: nat): nat {
    if sectors <= 524288 then 12 else if sectors <= 67108864 then 15 else 17
  }

  /** The layout the formatter computes, in its 32- and 64-bit arithmetic. */
  function Plan(sectors: nat, bps: nat): Planned {
    if bps != 512 && bps != 4096 then Refused(ERR_SECTOR_SIZE)
    else if sectors < 2048 then Refused(ERR_TOO_SMALL)
    else
      var volume := sectors / (bps / 512);
      if volume < 64 then Refused(ERR_TOO_SMALL)
      else
        var bpsShift := if bps == 4096 then 12 else 9;
        var spcShift := Max(ClusterShift(sectors), bpsShift) - bpsShift;
        Divide(bps, spcShift, Pow2(spcShift), Pow2(Max(ClusterShift(sectors), bpsShift)), volume)
  }

  /** Where the heap starts: after a FAT with room for an overestimate of the clusters. */
  function HeapOffset(bps: nat, spc: nat, volume: nat): (heap: nat)
    requires bps >= 1 && spc >= 1
    ensures heap >= FAT_OFFSET
  {
    var estimate := Trunc32(Quotient(Sub64(volume, FAT_OFFSET), spc));
    var fatBytes := (estimate + 2) * 4;
    var fatLen := Trunc32(Quotient(fatBytes + (bps - 1), bps));
    RoundUp(FAT_OFFSET + fatLen, spc)
  }

  function BitmapBytes(count: nat): nat {
    Trunc32(count + 7) / 8
  }

  /** The part of the plan after the cluster size is known. */
  function Divide(bps: nat, spcShift: nat, spc: nat, cb: nat, volume: nat): Planned
    requires bps >= 1 && spc >= 1 && cb >= 1
  {
    hide HeapOffset, Quotient, BitmapBytes;
    var heap := HeapOffset(bps, spc, volume);
    var count := Trunc32(Quotient(Sub64(volume, heap), spc));
    if count < 4 then Refused(ERR_TOO_SMALL)
    else
      var bitmapClusters := Quotient(BitmapBytes(count) + cb - 1, cb);
      if 2 + bitmapClusters + 1 >= bps / 4 then Refused(ERR_TOO_SMALL)
      else Accepted(Layout(bps, spcShift, spc, cb, volume, heap - FAT_OFFSET, heap, count, BitmapBytes(count), bitmapClusters))
  }

  /** The next multiple of `spc`. */
  function RoundUp(n: nat, spc: nat): (r: nat)
    requires spc >= 1
    ensures n <= r < n + spc
  {
    if n % spc == 0 then n else n + (spc - n % spc)
  }

  lemma PlanShape(sectors: nat, bps: nat)
    requires Plan(sectors, bps).Accepted?
    ensures var y := Plan(sectors, bps).layout;
            && y.bps == bps && KnownShape(bps, y.spc, y.cb) && y.spc == Pow2(y.spcShift)
            && y.volume == sectors / (bps / 512) && Plan(sectors, bps) == Divide(bps, y.spcShift, y.spc, y.cb, y.volume)
            && y.spc * 240 <= y.volume
            && y.spcShift == ClusterShift(sectors) - (if bps == 512 then 9 else 12)
  {
    hide HeapOffset, Quotient, BitmapBytes;
    PowersUsed();
  }

  lemma PowersUsed()
    ensures Pow2(3) == 8 && Pow2(6) == 64 && Pow2(8) == 256 && Pow2(0) == 1 && Pow2(5) == 32
    ensures Pow2(12) == 4096 && Pow2(15) == 32768 && Pow2(17) == 131072
  {
    Pow2Adds(6, 6);
    Pow2Adds(12, 3);
    Pow2Adds(12, 5);
  }

  lemma HeapBounds512(spc: nat, volume: nat, estimate: nat, heap: nat)
    requires (spc == 8 || spc == 64 || spc == 256) && spc * 240 <= volume
    requires estimate <= (volume - FAT_OFFSET) / spc && estimate < 0x1_0000_0000
    requires heap == RoundUp(FAT_OFFSET + ((estimate + 2) * 4 + 511) / 512, spc)
    ensures heap <= volume && heap % spc == 0 && (estimate + 2) * 4 <= (heap - FAT_OFFSET) * 512
    ensures heap <= FAT_OFFSET + estimate / 128 + 2 + spc < 0x400_0000
  {
    if spc == 8 {} else if spc == 64 {} else {}
  }

  lemma HeapBounds4096(spc: nat, volume: nat, estimate: nat, heap: nat)
    requires (spc == 1 || spc == 8 || spc == 32) && spc * 240 <= volume
    requires estimate <= (volume - FAT_OFFSET) / spc && estimate < 0x1_0000_0000
    requires heap == RoundUp(FAT_OFFSET + ((estimate + 2) * 4 + 4095) / 4096, spc)
    ensures heap <= volume && heap % spc == 0 && (estimate + 2) * 4 <= (heap - FAT_OFFSET) * 4096
    ensures heap <= FAT_OFFSET + estimate / 128 + 2 + spc < 0x400_0000
  {
    if spc == 1 {} else if spc == 8 {} else {}
  }

  lemma HeapBounds(bps: nat, spc: nat, cb: nat, volume: nat, estimate: nat, heap: nat)
    requires KnownShape(bps, spc, cb) && spc * 240 <= volume && FAT_OFFSET <= volume
    requires estimate <= Quotient(volume - FAT_OFFSET, spc) && estimate < 0x1_0000_0000
    requires heap == RoundUp(FAT_OFFSET + Quotient((estimate + 2) * 4 + (bps - 1), bps), spc)
    ensures heap <= volume && heap % spc == 0 && (estimate + 2) * 4 <= (heap - FAT_OFFSET) * bps
    ensures heap <= FAT_OFFSET + estimate / 128 + 2 + spc < 0x400_0000
  {
    hide RoundUp;
    if bps == 512 {
      HeapBounds512(spc, volume, estimate, heap);
    } else {
      HeapBounds4096(spc, volume, estimate, heap);
    }
  }

  /** How far the estimate is above the count, before either is truncated. */
  lemma Slack(bps: nat, spc: nat, cb: nat, volume: nat, heap: nat)
    requires KnownShape(bps, spc, cb) && FAT_OFFSET <= heap <= volume && heap < 0x400_0000
    requires heap <= FAT_OFFSET + 0x200_0000 + 2 + spc
    ensures var q, r := Quotient(volume - FAT_OFFSET, spc), Quotient(volume - heap, spc); r <= q <= r + 0x210_0000
  {
    if spc == 1 {} else if spc == 8 {} else if spc == 32 {} else if spc == 64 {} else {}
  }

  lemma HeapFound(bps: nat, spc: nat, cb: nat, volume: nat)
    requires KnownShape(bps, spc, cb) && spc * 240 <= volume < 0x1_0000_0000_0000_0000 && FAT_OFFSET <= volume
    ensures var heap, q := HeapOffset(bps, spc, volume), Quotient(volume - FAT_OFFSET, spc);
            && heap <= volume && heap < 0x400_0000 && heap % spc == 0
            && (Trunc32(q) + 2) * 4 <= (heap - FAT_OFFSET) * bps
            && Quotient(volume - heap, spc) <= q <= Quotient(volume - heap, spc) + 0x210_0000
            && Sub64(volume, heap) == volume - heap
  {
    hide RoundUp, Quotient;
    var q := Quotient(volume - FAT_OFFSET, spc);
    assert Sub64(volume, FAT_OFFSET) == volume - FAT_OFFSET;
    var fatLen := Quotient((Trunc32(q) + 2) * 4 + (bps - 1), bps);
    assert Trunc32(fatLen) == fatLen by { FatFits(bps, spc, cb, Trunc32(q)); }
    HeapBounds(bps, spc, cb, volume, Trunc32(q), HeapOffset(bps, spc, volume));
    Slack(bps, spc, cb, volume, HeapOffset(bps, spc, volume));
  }

  lemma FatFits(bps: nat, spc: nat, cb: nat, estimate: nat)
    requires KnownShape(bps, spc, cb) && estimate < 0x1_0000_0000
    ensures Trunc32(Quotient((estimate + 2) * 4 + (bps - 1), bps)) == Quotient((estimate + 2) * 4 + (bps - 1), bps)
  {
  }

  /** What the accepted branch of the plan computed. */
  lemma PlanParts(sectors: nat, bps: nat)
    requires sectors < 0x1_0000_0000_0000_0000 && Plan(sectors, bps).Accepted?
    ensures var y := Plan(sectors, bps).layout;
            && y.bps == bps && KnownShape(bps, y.spc, y.cb) && FAT_OFFSET <= y.volume
            && y.heap <= y.volume && y.heap < 0x400_0000 && y.heap == FAT_OFFSET + y.fatLen && y.heap % y.spc == 0
            && var r, q := Quotient(y.volume - y.heap, y.spc), Quotient(y.volume - FAT_OFFSET, y.spc);
            && (Trunc32(q) + 2) * 4 <= y.fatLen * bps && y.count == Trunc32(r) >= 4 && r <= q <= r + 0x210_0000
            && y.bitmapBytes == BitmapBytes(y.count)
            && y.bitmapClusters == Quotient(y.bitmapBytes + y.cb - 1, y.cb) && y.Root() < bps / 4
  {
    hide HeapOffset, Plan, Quotient, BitmapBytes;
    PlanShape(sectors, bps);
    var y := Plan(sectors, bps).layout;
    HeapFound(bps, y.spc, y.cb, y.volume);
  }

  /** The bitmap covers the clusters exactly when its size did not wrap. */
  lemma BitmapCovers(count: nat, cb: nat, n: nat)
    requires 4 <= count < 0x1_0000_0000 && cb >= 4096 && n == Quotient(BitmapBytes(count) + cb - 1, cb)
    ensures count <= 0xFFFF_FFF8 ==> count <= BitmapBytes(count) * 8 && BitmapBytes(count) <= n * cb && n >= 1 && n + 3 < count + 2
    ensures count > 0xFFFF_FFF8 ==> BitmapBytes(count) == 0 && n == 0
  {
    var b := BitmapBytes(count);
    BytesCover(count);
    QuotientUp(b, cb);
    ClustersCover(b, cb, n);
  }

  lemma ClustersCover(b: nat, cb: nat, n: nat)
    requires cb >= 4096 && n == CeilDiv(b, cb)
    ensures b <= n * cb && (b == 0 <==> n == 0) && (n > 0 ==> (n - 1) * 4096 < b)
  {
    CeilDivBounds(b, cb);
    if n > 0 {
      MulMonotone(4096, cb, n - 1);
    }
    if b == 0 {
      QuotientSmall(cb - 1, cb);
    }
  }

  lemma QuotientUp(n: nat, unit: nat)
    requires unit >= 1
    ensures Quotient(n + unit - 1, unit) == CeilDiv(n, unit)
  {
  }

  lemma BytesCover(count: nat)
    requires 4 <= count < 0x1_0000_0000
    ensures count <= 0xFFFF_FFF8 ==> 1 <= BitmapBytes(count) && count <= BitmapBytes(count) * 8 <= count + 7
    ensures count > 0xFFFF_FFF8 ==> BitmapBytes(count) == 0
  {
  }

  lemma QuotientSmall(n: nat, unit: nat)
    requires n < unit
    ensures Quotient(n, unit) == 0
  {
  }

  /** Truncations that drop different multiples of 2^32 leave a count close to 2^32. */
  lemma TruncationsAgree(q: nat, r: nat)
    requires r <= q <= r + 0x210_0000
    ensures Trunc32(r) <= Trunc32(q) || Trunc32(r) >= 0xFD00_0000
  {
  }

  /** Few clusters of bitmap mean few clusters. */
  lemma SmallBitmap(count: nat, cb: nat, bitmapBytes: nat, n: nat)
    requires count <= bitmapBytes * 8 && bitmapBytes <= n * cb && n <= 1024 && cb <= 131072
    ensures count <= 0x4000_0000
  {
    MulMonotone(n, 1024, cb);
  }

  lemma HeapInside(volume: nat, heap: nat, spc: nat, count: nat)
    requires spc >= 1 && heap <= volume && count <= Quotient(volume - heap, spc)
    ensures heap + count * spc <= volume
  {
    var r := Quotient(volume - heap, spc);
    MulMonotone(count, r, spc);
    assert r * spc + (volume - heap) % spc == volume - heap;
  }

  /** Every accepted layout has its regions in order. */
  lemma AlwaysLaid(sectors: nat, bps: nat)
    requires sectors < 0x1_0000_0000_0000_0000 && Plan(sectors, bps).Accepted?
    ensures Plan(sectors, bps).layout.Laid()
  {
    hide Plan, Quotient, BitmapBytes;
    PlanParts(sectors, bps);
    var y := Plan(sectors, bps).layout;
    BitmapCovers(y.count, y.cb, y.bitmapClusters);
    HeapInside(y.volume, y.heap, y.spc, y.count);
  }

  /** An accepted layout is sound exactly when rounding the cluster count up to whole bitmap
    * bytes does not wrap in 32 bits.
    */
  lemma SoundByCount(sectors: nat, bps: nat)
    requires sectors < 0x1_0000_0000_0000_0000 && Plan(sectors, bps).Accepted?
    ensures Plan(sectors, bps).layout.Sound() <==> Plan(sectors, bps).layout.count <= 0xFFFF_FFF8
  {
    hide Plan, Quotient, BitmapBytes;
    PlanParts(sectors, bps);
    var y := Plan(sectors, bps).layout;
    var r, q := Quotient(y.volume - y.heap, y.spc), Quotient(y.volume - FAT_OFFSET, y.spc);
    BitmapCovers(y.count, y.cb, y.bitmapClusters);
    if y.count <= 0xFFFF_FFF8 {
      SmallBitmap(y.count, y.cb, y.bitmapBytes, y.bitmapClusters);
      TruncationsAgree(q, r);
      HeapInside(y.volume, y.heap, y.spc, y.count);
    }
  }

  /** The sizes whose count comes out one short of a multiple of 2^32: a stretch after every
    * multiple of 2^40 sectors.
    */
  predicate Wrapping(sectors: nat, bps: nat) {
    && sectors >= 0x100_0000_0000
    && if bps == 512 then 128 <= sectors % 0x100_0000_0000 < 256 else 1024 <= sectors % 0x100_0000_0000 < 1280
  }

  /** The first and the last heap offset for large clusters. */
  lemma LargeHeap(bps: nat, spc: nat, volume: nat)
    requires (bps == 512 && spc == 256) || (bps == 4096 && spc == 32)
    requires 0x80_0000 <= volume < 0x1_0000_0000_0000_0000
    ensures var est, heap := Trunc32(Quotient(volume - FAT_OFFSET, spc)), HeapOffset(bps, spc, volume);
            && heap >= FAT_OFFSET + est / 1024 && heap <= FAT_OFFSET + est / 128 + 2 + spc
            && (est <= 2 ==> heap == if bps == 512 then 256 else 160)
  {
    var est := Trunc32(Quotient(volume - FAT_OFFSET, spc));
    assert Sub64(volume, FAT_OFFSET) == volume - FAT_OFFSET;
    var fatLen := Quotient((est + 2) * 4 + (bps - 1), bps);
    assert Trunc32(fatLen) == fatLen;
    assert fatLen >= est / 1024;
  }

  /** A count that would wrap the bitmap's size means an estimate of no clusters at all. */
  lemma EstimateNone(q: nat, r: nat, heap: nat, spc: nat)
    requires spc == 256 || spc == 32
    requires r + (heap - FAT_OFFSET) / spc <= q <= r + (heap - FAT_OFFSET) / spc + 1 && FAT_OFFSET <= heap
    requires var est := Trunc32(q); heap >= FAT_OFFSET + est / 1024 && heap <= FAT_OFFSET + est / 128 + 2 + spc
    requires Trunc32(r) > 0xFFFF_FFF8 && q <= r + 0x210_0000
    ensures Trunc32(q) <= 2
  {
    var est, d := Trunc32(q), q - r;
    assert est == (if Trunc32(r) + d >= 0x1_0000_0000 then Trunc32(r) + d - 0x1_0000_0000 else Trunc32(r) + d) by {
      TruncSum(r, d);
    }
  }

  lemma TruncSum(r: nat, d: nat)
    requires d < 0x1_0000_0000
    ensures Trunc32(r + d) == if Trunc32(r) + d >= 0x1_0000_0000 then Trunc32(r) + d - 0x1_0000_0000 else Trunc32(r) + d
  {
  }

  lemma QuotientsApart(volume: nat, heap: nat, spc: nat)
    requires (spc == 256 || spc == 32) && FAT_OFFSET <= heap <= volume
    ensures var r, q := Quotient(volume - heap, spc), Quotient(volume - FAT_OFFSET, spc);
            r + (heap - FAT_OFFSET) / spc <= q <= r + (heap - FAT_OFFSET) / spc + 1
  {
  }

  /** For large clusters the count would wrap the bitmap's size exactly at the wrapping sizes. */
  lemma WrapsExactly(sectors: nat, bps: nat, spc: nat, volume: nat)
    requires (bps == 512 && spc == 256 && volume == sectors) || (bps == 4096 && spc == 32 && volume == sectors / 8)
    requires 0x400_0000 < sectors < 0x1_0000_0000_0000_0000 && 0x80_0000 <= volume && HeapOffset(bps, spc, volume) <= volume
    requires var r, q := Quotient(volume - HeapOffset(bps, spc, volume), spc), Quotient(volume - FAT_OFFSET, spc); q <= r + 0x210_0000
    ensures Trunc32(Quotient(volume - HeapOffset(bps, spc, volume), spc)) > 0xFFFF_FFF8 <==> Wrapping(sectors, bps)
  {
    hide HeapOffset, Quotient, Trunc32;
    var heap := HeapOffset(bps, spc, volume);
    var r, q := Quotient(volume - heap, spc), Quotient(volume - FAT_OFFSET, spc);
    LargeHeap(bps, spc, volume);
    QuotientsApart(volume, heap, spc);
    if Trunc32(r) > 0xFFFF_FFF8 {
      EstimateNone(q, r, heap, spc);
    }
    if Trunc32(q) <= 2 {
      NearMultiple(sectors, bps, spc, volume, heap);
    } else if Wrapping(sectors, bps) {
      WrappingEstimate(sectors, bps, spc, volume);
    }
  }

  lemma WrappingEstimate(sectors: nat, bps: nat, spc: nat, volume: nat)
    requires (bps == 512 && spc == 256 && volume == sectors) || (bps == 4096 && spc == 32 && volume == sectors / 8)
    requires volume >= FAT_OFFSET && Wrapping(sectors, bps)
    ensures Trunc32(Quotient(volume - FAT_OFFSET, spc)) == 0
  {
    var k := sectors / 0x100_0000_0000;
    if bps == 512 {
      assert (volume - FAT_OFFSET) / 256 == k * 0x1_0000_0000;
    } else {
      assert (volume - FAT_OFFSET) / 32 == k * 0x1_0000_0000;
    }
  }

  /** Two neighbouring quotients on both sides of a multiple of 2^32. */
  lemma Straddles(q: nat, r: nat)
    requires r <= q <= r + 1 && Trunc32(r) > 0xFFFF_FFF8 && Trunc32(q) <= 2
    ensures q == r + 1 && q % 0x1_0000_0000 == 0 && q > 0
  {
  }

  lemma StraddleAt(volume: nat, m: nat)
    requires volume >= 256 && (volume - 128) / 256 == m * 0x1_0000_0000 && (volume - 256) / 256 == m * 0x1_0000_0000 - 1
    ensures volume == m * 0x100_0000_0000 + volume % 0x100_0000_0000 && 128 <= volume % 0x100_0000_0000 < 256
  {
  }

  lemma StraddleAt4096(volume: nat, m: nat)
    requires volume >= 160 && (volume - 128) / 32 == m * 0x1_0000_0000 && (volume - 160) / 32 == m * 0x1_0000_0000 - 1
    ensures volume == m * 0x20_0000_0000 + volume % 0x20_0000_0000 && 128 <= volume % 0x20_0000_0000 < 160
  {
  }

  lemma SectorsOf(sectors: nat, volume: nat)
    requires volume == sectors / 8 && 128 <= volume % 0x20_0000_0000 < 160
    ensures 1024 <= sectors % 0x100_0000_0000 < 1280
  {
  }

  lemma NearMultiple(sectors: nat, bps: nat, spc: nat, volume: nat, heap: nat)
    requires (bps == 512 && spc == 256 && volume == sectors && heap == 256) || (bps == 4096 && spc == 32 && volume == sectors / 8 && heap == 160)
    requires volume >= 0x80_0000
    ensures Trunc32(Quotient(volume - heap, spc)) > 0xFFFF_FFF8 && Trunc32(Quotient(volume - FAT_OFFSET, spc)) <= 2 ==> Wrapping(sectors, bps)
    ensures Wrapping(sectors, bps) ==> Trunc32(Quotient(volume - heap, spc)) == 0xFFFF_FFFF
  {
    var r, q := Quotient(volume - heap, spc), Quotient(volume - FAT_OFFSET, spc);
    if Trunc32(r) > 0xFFFF_FFF8 && Trunc32(q) <= 2 {
      QuotientsNear(volume, heap, spc);
      Straddles(q, r);
      var m := q / 0x1_0000_0000;
      if bps == 512 {
        StraddleAt(volume, m);
      } else {
        StraddleAt4096(volume, m);
        SectorsOf(sectors, volume);
      }
    }
    if Wrapping(sectors, bps) {
      OneShort(sectors, bps, spc, volume, heap);
    }
  }

  lemma QuotientsNear(volume: nat, heap: nat, spc: nat)
    requires ((spc == 256 && heap == 256) || (spc == 32 && heap == 160)) && volume >= 0x80_0000
    ensures Quotient(volume - heap, spc) <= Quotient(volume - FAT_OFFSET, spc) <= Quotient(volume - heap, spc) + 1
  {
  }

  lemma OneShort(sectors: nat, bps: nat, spc: nat, volume: nat, heap: nat)
    requires (bps == 512 && spc == 256 && volume == sectors && heap == 256) || (bps == 4096 && spc == 32 && volume == sectors / 8 && heap == 160)
    requires volume >= 0x80_0000 && Wrapping(sectors, bps)
    ensures Trunc32(Quotient(volume - heap, spc)) == 0xFFFF_FFFF
  {
    var k := sectors / 0x100_0000_0000;
    if bps == 512 {
      assert (volume - heap) / 256 == k * 0x1_0000_0000 - 1;
    } else {
      assert (volume - heap) / 32 == k * 0x1_0000_0000 - 1;
    }
  }

  /** An accepted size gets a sound layout exactly when it is not one of the wrapping sizes. */
  lemma SoundExactly(sectors: nat, bps: nat)
    requires sectors < 0x1_0000_0000_0000_0000 && Plan(sectors, bps).Accepted?
    ensures Plan(sectors, bps).layout.Sound() <==> !Wrapping(sectors, bps)
  {
    hide Plan, Quotient, BitmapBytes, HeapOffset, Trunc32;
    SoundByCount(sectors, bps);
    PlanParts(sectors, bps);
    PlanShape(sectors, bps);
    var y := Plan(sectors, bps).layout;
    if sectors > 67108864 {
      PowersUsed();
      assert y.spcShift == if bps == 512 then 8 else 5;
      LargeVolume(sectors, bps, y.volume);
      DividedHeap(sectors, bps);
      WrapsExactly(sectors, bps, y.spc, y.volume);
    } else {
      QuotientBelow(y.volume - y.heap, y.spc);
      SmallTrunc(Quotient(y.volume - y.heap, y.spc));
    }
  }

  lemma SmallTrunc(n: nat)
    requires n < 0x1_0000_0000
    ensures Trunc32(n) == n
  {
  }

  lemma LargeVolume(sectors: nat, bps: nat, volume: nat)
    requires sectors > 67108864 && (bps == 512 || bps == 4096) && volume == sectors / (bps / 512)
    ensures volume == (if bps == 512 then sectors else sectors / 8) && volume >= 0x80_0000
  {
  }

  lemma DividedHeap(sectors: nat, bps: nat)
    requires Plan(sectors, bps).Accepted?
    ensures var y := Plan(sectors, bps).layout; y.heap == HeapOffset(bps, y.spc, y.volume)
  {
    hide HeapOffset, Quotient, BitmapBytes;
    PlanShape(sectors, bps);
  }

  /** Every size below 2^40 sectors that is accepted gets a sound layout. */
  lemma SoundBelow(sectors: nat, bps: nat)
    requires sectors < 0x100_0000_0000 && Plan(sectors, bps).Accepted?
    ensures Plan(sectors, bps).layout.Sound()
  {
    hide Plan;
    SoundExactly(sectors, bps);
  }

  /** The wrapping sizes are accepted all the same. */
  lemma WrappingAccepted(sectors: nat, bps: nat)
    requires sectors < 0x1_0000_0000_0000_0000 && (bps == 512 || bps == 4096) && Wrapping(sectors, bps)
    ensures Plan(sectors, bps).Accepted? && !Plan(sectors, bps).layout.Sound()
  {
    hide HeapOffset, Quotient, Trunc32;
    PowersUsed();
    var spc, volume := if bps == 512 then 256 else 32, sectors / (bps / 512);
    LargeVolume(sectors, bps, volume);
    WrappingEstimate(sectors, bps, spc, volume);
    LargeHeap(bps, spc, volume);
    NearMultiple(sectors, bps, spc, volume, HeapOffset(bps, spc, volume));
    assert Sub64(volume, HeapOffset(bps, spc, volume)) == volume - HeapOffset(bps, spc, volume);
    NoBitmap();
    assert Plan(sectors, bps) == Divide(bps, if bps == 512 then 8 else 5, spc, 131072, volume);
    SoundExactly(sectors, bps);
  }

  lemma NoBitmap()
    ensures BitmapBytes(0xFFFF_FFFF) == 0 && Quotient(131071, 131072) == 0
  {
  }

  lemma QuotientBelow(n: nat, unit: nat)
    requires unit >= 1
    ensures Quotient(n, unit) <= n
  {
    if Quotient(n, unit) > n {
      MulMonotone(1, unit, Quotient(n, unit));
    }
  }

  /** A size past that is accepted with a layout whose bitmap has no byte and whose FAT has
    * no room for the clusters.
    */
  lemma UnsoundSize()
    ensures var p := Plan(0x100_0000_0080, 512);
            && p.Accepted? && p.layout.count == 0xFFFF_FFFF && p.layout.bitmapBytes == 0 && p.layout.Root() == 3
            && p.layout.fatLen * 512 < (p.layout.count + 2) * 4 && !p.layout.Sound()
  {
    PowersUsed();
    assert HeapOffset(512, 256, 0x100_0000_0080) == 256;
    hide HeapOffset;
    assert Quotient(Sub64(0x100_0000_0080, 256), 256) == 0xFFFF_FFFF;
    hide Quotient;
  }

  /** What an accepted layout is below 2^40 sectors: clusters of 4, 32 or 128 KiB by the size of the volume, as many as
    * there is room for behind the FAT, and no more bitmap than they take.
    */
  lemma PlanIs(sectors: nat, bps: nat)
    requires sectors < 0x100_0000_0000 && Plan(sectors, bps).Accepted?
    ensures var y := Plan(sectors, bps).layout;
            && y.bps == bps && (bps == 512 || bps == 4096) && y.volume * bps <= sectors * 512 < (y.volume + 1) * bps
            && y.spc * bps == y.cb == (if sectors <= 524288 then 4096 else if sectors <= 67108864 then 32768 else 131072)
            && y.heap % y.spc == 0 && y.heap + y.count * y.spc <= y.volume < y.heap + (y.count + 1) * y.spc
            && y.count <= y.bitmapBytes * 8 < y.count + 8
            && y.bitmapBytes <= y.bitmapClusters * y.cb < y.bitmapBytes + y.cb
  {
    hide Plan, Quotient, BitmapBytes, Trunc32;
    PlanParts(sectors, bps);
    PlanShape(sectors, bps);
    SoundBelow(sectors, bps);
    var y := Plan(sectors, bps).layout;
    VolumeOf(sectors, bps);
    RoomFor(sectors, y.volume, y.heap, y.spc);
    BytesCover(y.count);
    SoundByCount(sectors, bps);
    QuotientUp(y.bitmapBytes, y.cb);
    CeilDivBounds(y.bitmapBytes, y.cb);
  }

  lemma VolumeOf(sectors: nat, bps: nat)
    requires bps == 512 || bps == 4096
    ensures (sectors / (bps / 512)) * bps <= sectors * 512 < (sectors / (bps / 512) + 1) * bps && sectors / (bps / 512) <= sectors
  {
  }

  /** Below 2^40 sectors the count is not cut to 32 bits. */
  lemma RoomFor(sectors: nat, volume: nat, heap: nat, spc: nat)
    requires volume <= sectors < 0x100_0000_0000 && heap <= volume && spc >= 1 && (sectors > 67108864 ==> spc >= 32)
    requires sectors <= 67108864 || volume < 0x20_0000_0000 || spc >= 256
    ensures var r := Quotient(volume - heap, spc); Trunc32(r) == r && heap + r * spc <= volume < heap + (r + 1) * spc
  {
    var r := Quotient(volume - heap, spc);
    HeapInside(volume, heap, spc, r);
    assert r * spc + (volume - heap) % spc == volume - heap;
  }

  /** The FAT is no longer than the clusters before it was taken off need, and a cluster more. */
  lemma FatIsTight(sectors: nat, bps: nat)
    requires sectors < 0x1_0000_0000_0000_0000 && Plan(sectors, bps).Accepted?
    ensures var y := Plan(sectors, bps).layout;
            (y.fatLen - y.spc) * bps < ((y.volume - 128) / y.spc + 2) * 4 + bps
  {
    hide Plan, BitmapBytes, RoundUp, HeapOffset, Quotient;
    PlanParts(sectors, bps);
    PlanShape(sectors, bps);
    DividedHeap(sectors, bps);
    VolumeOf(sectors, bps);
    var y := Plan(sectors, bps).layout;
    HeapTight(bps, y.spc, y.cb, y.volume);
  }

  lemma HeapTight(bps: nat, spc: nat, cb: nat, volume: nat)
    requires KnownShape(bps, spc, cb) && FAT_OFFSET <= volume < 0x1_0000_0000_0000_0000
    ensures (HeapOffset(bps, spc, volume) - FAT_OFFSET - spc) * bps < ((volume - 128) / spc + 2) * 4 + bps
  {
    var q := Quotient(volume - FAT_OFFSET, spc);
    assert Sub64(volume, FAT_OFFSET) == volume - FAT_OFFSET;
    var fatLen := Quotient((Trunc32(q) + 2) * 4 + (bps - 1), bps);
    FatFits(bps, spc, cb, Trunc32(q));
    assert HeapOffset(bps, spc, volume) - FAT_OFFSET - spc < fatLen;
    TightProduct(HeapOffset(bps, spc, volume) - FAT_OFFSET - spc, (Trunc32(q) + 2) * 4 + (bps - 1), bps);
  }

  lemma TightProduct(n: int, bytes: nat, unit: nat)
    requires unit >= 1 && n < Quotient(bytes, unit)
    ensures n * unit <= bytes
  {
    hide Quotient;
    QuotientTimes(bytes, unit);
    if n >= 0 {
      MulMonotone(n, Quotient(bytes, unit), unit);
    }
  }

  lemma QuotientTimes(n: nat, unit: nat)
    requires unit >= 1
    ensures Quotient(n, unit) * unit <= n
  {
    assert n / unit * unit + n % unit == n;
  }
}
