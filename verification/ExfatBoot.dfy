/** What formatting writes and mounting reads, byte by byte, and what the checksums of the boot region detect. */
module ExfatBoot {
  import opened Arith
  import opened Bytes
  import opened ExfatVolume
  import opened ExfatContents
  import opened ExfatNames
  import opened ExfatEntrySet
  import opened ExfatLayout
  import opened ExfatFormat
  import opened ExfatMount

  /** Four bytes from `o` on, the lowest first. */
  function Word(b: seq<byte>, o: nat): nat
    requires o + 4 <= |b|
  {
    b[o] as int + 256 * b[o + 1] as int + 65536 * b[o + 2] as int + 16777216 * b[o + 3] as int
  }

  lemma WordWritten(b: seq<byte>, o: nat, v: nat)
    requires o + 4 <= |b| && b[o..o + 4] == Le32(v) && v < 0x1_0000_0000
    ensures Word(b, o) == v
  {
    Rd32Slice(b, o, v);
  }

  // ---- the boot sector ----

  /** The fields of the main boot sector (section 3.1): jump and name, the length of the volume at byte 72, the offset
    * and length of the FAT at 80 and 84, the heap at 88, its clusters at 92, the root at 96, the shifts at 108 and 109,
    * the number of FATs at 110 and the signature at 510.
    */
  lemma BootBytes(y: Layout)
    requires (y.bps == 512 || y.bps == 4096) && y.count >= 1 && y.volume < 0x1_0000_0000_0000_0000 && y.spcShift < 256
    requires y.fatLen < 0x1_0000_0000 && y.heap < 0x1_0000_0000 && y.count < 0x1_0000_0000 && y.Root() < 0x1_0000_0000
    ensures var b := BootSector(y);
            && b[0..11] == [0xEB, 0x76, 0x90, 0x45, 0x58, 0x46, 0x41, 0x54, 0x20, 0x20, 0x20]
            && Word(b, 72) + 0x1_0000_0000 * Word(b, 76) == y.volume
            && Word(b, 80) == 128 && Word(b, 84) == y.fatLen && Word(b, 88) == y.heap && Word(b, 92) == y.count
            && Word(b, 96) == 3 + y.bitmapClusters && b[108] == (if y.bps == 512 then 9 else 12) && b[109] == y.spcShift
            && b[110] == 1 && b[111] == 0x80 && b[510] == 0x55 && b[511] == 0xAA
  {
    hide BootSector, Le32, Le64;
    var b := BootSector(y);
    FieldRead(y, 0);
    VolumeLength(y);
    FieldRead(y, 2);
    Numbers(b, y);
    FieldRead(y, 4);
    assert b[108] == b[108..113][0] && b[109] == b[108..113][1] && b[110] == b[108..113][2] && b[111] == b[108..113][3];
    FieldRead(y, 6);
    assert b[510] == b[510..512][0] && b[511] == b[510..512][1];
  }

  lemma VolumeLength(y: Layout)
    requires (y.bps == 512 || y.bps == 4096) && y.count >= 1 && y.volume < 0x1_0000_0000_0000_0000
    ensures var b := BootSector(y); Word(b, 72) + 0x1_0000_0000 * Word(b, 76) == y.volume
  {
    hide BootSector, Le32;
    var b := BootSector(y);
    FieldRead(y, 1);
    var s := b[72..80];
    assert b[72..76] == s[..4] == Le32(y.volume % 0x1_0000_0000);
    assert b[76..80] == s[4..] == Le32(y.volume / 0x1_0000_0000);
    WordWritten(b, 72, y.volume % 0x1_0000_0000);
    WordWritten(b, 76, y.volume / 0x1_0000_0000);
  }

  lemma Numbers(b: seq<byte>, y: Layout)
    requires |b| >= 512 && b[80..100] == Le32(FAT_OFFSET) + Le32(y.fatLen) + Le32(y.heap) + Le32(y.count) + Le32(y.Root())
    requires y.fatLen < 0x1_0000_0000 && y.heap < 0x1_0000_0000 && y.count < 0x1_0000_0000 && y.Root() < 0x1_0000_0000
    ensures Word(b, 80) == 128 && Word(b, 84) == y.fatLen && Word(b, 88) == y.heap && Word(b, 92) == y.count && Word(b, 96) == y.Root()
  {
    hide Le32;
    var s := b[80..100];
    assert s[0..4] == Le32(FAT_OFFSET) && s[4..8] == Le32(y.fatLen) && s[8..12] == Le32(y.heap) && s[12..16] == Le32(y.count) && s[16..20] == Le32(y.Root());
    Within(b, 80, 20, 0);
    Within(b, 80, 20, 4);
    Within(b, 80, 20, 8);
    Within(b, 80, 20, 12);
    Within(b, 80, 20, 16);
    WordWritten(b, 80, FAT_OFFSET);
    WordWritten(b, 84, y.fatLen);
    WordWritten(b, 88, y.heap);
    WordWritten(b, 92, y.count);
    WordWritten(b, 96, y.Root());
  }

  lemma Within(b: seq<byte>, o: nat, n: nat, i: nat)
    requires o + n <= |b| && i + 4 <= n
    ensures b[o..o + n][i..i + 4] == b[o + i..o + i + 4]
  {
    var l, r := b[o..o + n][i..i + 4], b[o + i..o + i + 4];
    assert |l| == |r| && forall k :: 0 <= k < 4 ==> l[k] == r[k];
  }

  /** A mount takes its fields from the same places. */
  lemma MountReads(sec: Sector)
    ensures BootOf(sec) == Boot(Word(sec, 80), Word(sec, 84), Word(sec, 88), Word(sec, 92), Word(sec, 96), sec[108], sec[109], sec[110])
  {
  }

  // ---- the root and the up-case table ----

  /** The root: the label with its length and units, the bitmap entry with cluster 2 at byte 52 and its length at 56,
    * and the up-case entry with the table's checksum at byte 68, its cluster at 84 and its length at 88.
    */
  lemma RootBytes(y: Layout, lab: seq<nat>)
    requires |lab| <= LABEL_MAX && AreUnits(lab) && y.bps >= 512 && y.bitmapBytes < 0x1_0000_0000 && y.Upcase() < 0x1_0000_0000
    ensures var b := RootHead(y, lab);
            && b[0] == 0x83 && b[1] == |lab| && (forall k :: 0 <= k < |lab| ==> LabelUnit(b, k) == lab[k])
            && b[32] == 0x81 && Word(b, 52) == 2 && Word(b, 56) == y.bitmapBytes && Word(b, 60) == 0
            && b[64] == 0x82 && Word(b, 68) == TableSum(UpcaseTable()) && Word(b, 84) == 2 + y.bitmapClusters
            && Word(b, 88) == 60 && Word(b, 92) == 0
  {
    hide RootHead, Le32, Le64, UnitBytes, TableSum, UpcaseTable;
    var b := RootHead(y, lab);
    RootField(y, lab, 0);
    assert b[0] == b[0..2][0] && b[1] == b[0..2][1];
    LabelBytes(y, lab);
    RootField(y, lab, 2);
    assert b[32] == b[32..33][0];
    RootField(y, lab, 3);
    assert b[52..56] == b[52..64][..4] && b[56..64] == b[52..64][4..];
    WordWritten(b, 52, 2);
    LongWritten(b, 56, y.bitmapBytes);
    RootField(y, lab, 4);
    assert b[64] == b[64..65][0];
    RootField(y, lab, 5);
    WordWritten(b, 68, TableSum(UpcaseTable()));
    RootField(y, lab, 6);
    WordWritten(b, 84, y.Upcase());
    RootField(y, lab, 7);
    LongWritten(b, 88, 60);
  }

  function LabelUnit(b: seq<byte>, k: nat): int
    requires 4 + 2 * k <= |b|
  {
    b[2 + 2 * k] as int + 256 * b[3 + 2 * k] as int
  }

  lemma LongWritten(b: seq<byte>, o: nat, v: nat)
    requires o + 8 <= |b| && b[o..o + 8] == Le64(v) && v < 0x1_0000_0000
    ensures Word(b, o) == v && Word(b, o + 4) == 0
  {
    hide Le32;
    var s := b[o..o + 8];
    assert b[o..o + 4] == s[..4] == Le32(v) && b[o + 4..o + 8] == s[4..] == Le32(0);
    WordWritten(b, o, v);
    WordWritten(b, o + 4, 0);
  }

  lemma LabelBytes(y: Layout, lab: seq<nat>)
    requires |lab| <= LABEL_MAX && AreUnits(lab) && y.bps >= 512
    ensures forall k :: 0 <= k < |lab| ==> LabelUnit(RootHead(y, lab), k) == lab[k]
  {
    hide RootHead, UnitBytes;
    var b := RootHead(y, lab);
    RootField(y, lab, 1);
    forall k | 0 <= k < |lab|
      ensures LabelUnit(b, k) == lab[k]
    {
      UnitBytesAt(lab, k);
      var s := b[2..2 + 2 * |lab|];
      assert s[2 * k] == b[2 + 2 * k] && s[2 * k + 1] == b[3 + 2 * k];
    }
  }

  /** The up-case table: 0x61 characters as they are, the letters a to z in upper case, and the other 0xFF85 as they are. */
  lemma TableIs(i: nat)
    requires i < 26
    ensures var t := UpcaseTable();
            && t[4 + 2 * i] as int == 65 + i && t[5 + 2 * i] == 0
            && t[0] == 0xFF && t[1] == 0xFF && t[2] as int + 256 * t[3] as int == 97
            && t[56] == 0xFF && t[57] == 0xFF && t[58] as int + 256 * t[59] as int == 65536 - 97 - 26
  {
  }

  // ---- checksums ----

  /** The step is an exact rotation to the right in 32 bits for a zero byte, and adds any other. */
  lemma RotateAddIs(sum: nat, b: byte)
    requires sum < 0x1_0000_0000
    ensures 2 * RotateAdd(sum, 0) == sum + (if sum % 2 == 1 then 0xFFFF_FFFF else 0)
    ensures RotateAdd(sum, b) == RotateAdd(sum, 0) + b - (if RotateAdd(sum, 0) + b >= 0x1_0000_0000 then 0x1_0000_0000 else 0)
  {
  }

  lemma RotateAddInjective(sum: nat, sum': nat, b: byte, b': byte)
    requires sum < 0x1_0000_0000 && sum' < 0x1_0000_0000
    ensures sum != sum' ==> RotateAdd(sum, b) != RotateAdd(sum', b)
    ensures b != b' ==> RotateAdd(sum, b) != RotateAdd(sum, b')
  {
    RotateAddIs(sum, b);
    RotateAddIs(sum', b);
    RotateAddIs(sum, b');
    hide RotateAdd;
  }

  /** Bytes 106, 107 and 112 of the boot sector, which change while the volume is mounted, do not count. */
  lemma NotCounted(p: nat)
    ensures Volatile(p) <==> p in {106, 107, 112}
  {
  }

  /** The boot checksum detects any one changed byte that counts. */
  lemma {:induction false} BootChecksumDetects(b: seq<byte>, b': seq<byte>, p: nat, n: nat)
    requires |b| == |b'| && p < |b| && n <= |b| && b[p] != b'[p] && forall q :: 0 <= q < |b| && q != p ==> b[q] == b'[q]
    ensures BootSum(b, n) == BootSum(b', n) <==> n <= p || p in {106, 107, 112}
  {
    hide RotateAdd;
    if n > 0 {
      BootChecksumDetects(b, b', p, n - 1);
      RotateAddInjective(BootSum(b, n - 1), BootSum(b', n - 1), b[n - 1], b'[n - 1]);
    }
  }

  /** So does the checksum of the up-case table. */
  lemma {:induction false} TableSumDetects(t: seq<byte>, t': seq<byte>, p: nat)
    requires |t| == |t'| && p < |t| && t[p] != t'[p] && forall q :: 0 <= q < |t| && q != p ==> t[q] == t'[q]
    ensures TableSum(t) != TableSum(t')
  {
    hide RotateAdd;
    var k := |t| - 1;
    if p < k {
      TableSumDetects(t[..k], t'[..k], p);
    } else {
      assert t[..k] == t'[..k];
    }
    RotateAddInjective(TableSum(t[..k]), TableSum(t'[..k]), t[k], t'[k]);
  }

  /** The checksum sector repeats the sum over the first eleven sectors, four bytes at a time. */
  lemma ChecksumRepeated(y: Layout, k: nat)
    requires y.count >= 1 && y.bps >= 512 && y.bps % 4 == 0 && 4 * k + 4 <= y.bps
    ensures Word(BootLogical(y, 11), 4 * k) == BootSum(BootParts(y, 11), |BootParts(y, 11)|)
  {
    hide BootParts, BootSum, Le32;
    var sum := BootSum(BootParts(y, 11), |BootParts(y, 11)|);
    var b := BootLogical(y, 11);
    assert b[4 * k..4 * k + 4] == Le32(sum);
    WordWritten(b, 4 * k, sum);
  }
}
