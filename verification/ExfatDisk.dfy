/** Where a volume keeps its links, its bitmap and its clusters, said of the bytes of the disk. */
module ExfatDisk {
  import opened Arith
  import opened Bytes
  import opened ExfatVolume

  /** The link of cluster `c` is the little-endian word at byte `4 * c` of the FAT. */
  lemma LinkAt(v: Volume, c: nat)
    requires v.Valid() && c < v.g.count + 2
    ensures var lba, o := v.g.fatLba + 4 * c / 512, 4 * c % 512;
            && lba < |v.disk| && c < |v.fat|
            && var s := v.disk[lba]; v.fat[c] == s[o] as int + 256 * s[o + 1] as int + 65536 * s[o + 2] as int + 16777216 * s[o + 3] as int
  {
    hide HeapMatches, UsedMatches;
    assert 4 * c / 512 == c / 128 && 4 * c % 512 == c % 128 * 4;
    LbaClosed(v.g, v.g.count + 2);
  }

  const BIT_VALUES: seq<nat> := [1, 2, 4, 8, 16, 32, 64, 128]

  /** Bit `k` of a byte counts `2^k`. */
  lemma {:induction false} BitIs(b: nat, k: nat)
    requires k < 8
    ensures TestBit(b, k) <==> b / BIT_VALUES[k] % 2 == 1
    decreases k
  {
    if k > 0 {
      BitIs(b / 2, k - 1);
      HalfThen(b, k);
    }
  }

  lemma HalfThen(b: nat, k: nat)
    requires 0 < k < 8
    ensures b / 2 / BIT_VALUES[k - 1] == b / BIT_VALUES[k]
  {
    if k == 1 {} else if k == 2 {} else if k == 3 {} else if k == 4 {} else if k == 5 {} else if k == 6 {} else {}
  }

  /** A cluster is in use exactly if its bit is set: bit `(c - 2) % 8` of byte `(c - 2) / 8` of the bitmap, whose first
    * cluster starts `spc` sectors for each cluster before it behind the start of the heap.
    */
  lemma BitAt(v: Volume, c: nat, lba: nat)
    requires v.Valid() && v.g.IsCluster(c) && lba == v.g.heapLba + (v.g.bitmapCluster - 2) * v.g.spc + (c - 2) / 4096
    ensures lba < |v.disk| && (c in v.used <==> v.disk[lba][(c - 2) / 8 % 512] as int / BIT_VALUES[(c - 2) % 8] % 2 == 1)
  {
    hide HeapMatches, FatMatches, TestBit;
    LbaClosed(v.g, v.g.bitmapCluster);
    assert (c - 2) / 8 / 512 == (c - 2) / 4096;
    BitIs(v.disk[v.g.BitLba(c)][v.g.BitByte(c)], (c - 2) % 8);
  }

  /** Sector `s` of data cluster `c`, counted from 2. */
  lemma SectorAt(v: Volume, c: nat, s: nat, lba: nat)
    requires v.Valid() && v.g.IsData(c) && s < v.g.spc && lba == v.g.heapLba + (c - 2) * v.g.spc + s
    ensures lba < |v.disk| && c < |v.heap| && s < |v.heap[c]| && v.heap[c][s] == v.disk[lba]
  {
    hide UsedMatches, FatMatches;
    LbaClosed(v.g, c);
    assert SectorShown(v.g, v.disk, v.heap, c, s);
  }
}
