/** The bytes of a chain of clusters, seen as one flat sequence, and how a sector write
  * and a chain extension change it. `spc` is the number of 512-byte sectors in a cluster.
  */
module ExfatContents {
  import opened Arith
  import opened Bytes
  import opened ExfatVolume

  // ---- the flat view ----

  /** Every cluster of `cl` is a row of `spc` sectors. */
  ghost predicate Rows(heap: seq<seq<Sector>>, cl: seq<nat>, spc: nat) {
    forall i :: 0 <= i < |cl| ==> cl[i] < |heap| && |heap[cl[i]]| == spc
  }

  lemma SectorIndex(j: nat, n: nat, spc: nat)
    requires j < n * spc
    ensures spc >= 1 && j / spc < n
  {
    assert spc != 0;
    DivBelow(j, n, spc);
  }

  /** Byte `i` of the chain. */
  ghost function ByteAt(heap: seq<seq<Sector>>, cl: seq<nat>, spc: nat, i: nat): byte
    requires Rows(heap, cl, spc) && i / 512 < |cl| * spc
  {
    SectorIndex(i / 512, |cl|, spc);
    heap[cl[i / 512 / spc]][i / 512 % spc][i % 512]
  }

  ghost function ChainBytes(heap: seq<seq<Sector>>, cl: seq<nat>, spc: nat): (b: seq<byte>)
    requires Rows(heap, cl, spc)
    ensures |b| == |cl| * spc * 512
    ensures forall i :: 0 <= i < |b| ==> i / 512 < |cl| * spc && b[i] == ByteAt(heap, cl, spc, i)
  {
    seq(|cl| * spc * 512, i requires 0 <= i < |cl| * spc * 512 => ByteAt(heap, cl, spc, i))
  }

  /** The slice of a chain that one of its sectors holds. */
  lemma SectorSlice(heap: seq<seq<Sector>>, cl: seq<nat>, spc: nat, k: nat, s: nat)
    requires Rows(heap, cl, spc) && k < |cl| && s < spc
    ensures (k * spc + s) * 512 + 512 <= |ChainBytes(heap, cl, spc)|
    ensures ChainBytes(heap, cl, spc)[(k * spc + s) * 512..(k * spc + s) * 512 + 512] == heap[cl[k]][s]
  {
    MulStep(k, |cl|, spc);
    var j := k * spc + s;
    var b := ChainBytes(heap, cl, spc);
    forall i | 0 <= i < 512
      ensures b[j * 512 + i] == heap[cl[k]][s][i]
    {
      assert (j * 512 + i) / 512 == j && (j * 512 + i) % 512 == i;
      DivModUnique(k, s, spc);
    }
  }

  /** Two positions of a chain fall in the same row and sector only by having the same number. */
  lemma SectorApart(k: nat, s: nat, j: nat, spc: nat)
    requires spc >= 1 && s < spc
    ensures (j / spc == k && j % spc == s) <==> j == k * spc + s
  {
    DivModUnique(k, s, spc);
  }

  /** Writing part of one sector writes that slice of the chain. */
  lemma ChunkWritten(heap: seq<seq<Sector>>, cl: seq<nat>, spc: nat, k: nat, s: nat, off: nat, data: seq<byte>, sec: Sector)
    requires Rows(heap, cl, spc) && Distinct(cl) && k < |cl| && s < spc && off + |data| <= 512
    requires sec == Put(heap[cl[k]][s], off, data)
    ensures (k * spc + s) * 512 + off + |data| <= |ChainBytes(heap, cl, spc)|
    ensures Rows(HeapPut(heap, cl[k], s, sec), cl, spc)
    ensures ChainBytes(HeapPut(heap, cl[k], s, sec), cl, spc) ==
            Put(ChainBytes(heap, cl, spc), (k * spc + s) * 512 + off, data)
  {
    MulStep(k, |cl|, spc);
    var heap' := HeapPut(heap, cl[k], s, sec);
    var b, b' := ChainBytes(heap, cl, spc), ChainBytes(heap', cl, spc);
    var q := k * spc + s;
    var p := q * 512 + off;
    forall i | 0 <= i < |b|
      ensures b'[i] == Put(b, p, data)[i]
    {
      ByteAfterWrite(heap, cl, spc, k, s, off, data, sec, i);
    }
  }

  lemma ByteAfterWrite(heap: seq<seq<Sector>>, cl: seq<nat>, spc: nat, k: nat, s: nat, off: nat, data: seq<byte>,
                       sec: Sector, i: nat)
    requires Rows(heap, cl, spc) && Distinct(cl) && k < |cl| && s < spc && off + |data| <= 512
    requires sec == Put(heap[cl[k]][s], off, data)
    requires i / 512 < |cl| * spc
    ensures Rows(HeapPut(heap, cl[k], s, sec), cl, spc)
    ensures var p := (k * spc + s) * 512 + off;
            ByteAt(HeapPut(heap, cl[k], s, sec), cl, spc, i) ==
            if p <= i < p + |data| then data[i - p] else ByteAt(heap, cl, spc, i)
  {
    var j := i / 512;
    var q := k * spc + s;
    SectorIndex(j, |cl|, spc);
    SectorApart(k, s, j, spc);
    if j == q {
      assert i == q * 512 + i % 512;
    }
  }

  /** A chain none of whose clusters changed keeps its bytes. */
  lemma ChainUntouched(heap: seq<seq<Sector>>, heap': seq<seq<Sector>>, cl: seq<nat>, spc: nat)
    requires Rows(heap, cl, spc) && |heap'| == |heap|
    requires forall i :: 0 <= i < |cl| ==> heap'[cl[i]] == heap[cl[i]]
    ensures Rows(heap', cl, spc)
    ensures ChainBytes(heap', cl, spc) == ChainBytes(heap, cl, spc)
  {
    var b, b' := ChainBytes(heap, cl, spc), ChainBytes(heap', cl, spc);
    forall i | 0 <= i < |b|
      ensures b'[i] == b[i]
    {
      SectorIndex(i / 512, |cl|, spc);
    }
  }

  /** Clusters appended to a chain leave the bytes before them in place. */
  lemma ChainPrefix(heap: seq<seq<Sector>>, cl: seq<nat>, n: nat, spc: nat)
    requires Rows(heap, cl, spc) && n <= |cl|
    ensures Rows(heap, cl[..n], spc)
    ensures ChainBytes(heap, cl[..n], spc) <= ChainBytes(heap, cl, spc)
  {
    MulMonotone(n, |cl|, spc);
    var b, p := ChainBytes(heap, cl, spc), ChainBytes(heap, cl[..n], spc);
    forall i | 0 <= i < |p|
      ensures p[i] == b[i]
    {
      SectorIndex(i / 512, n, spc);
    }
  }

  // ---- flat files ----

  function Zeros(n: nat): (z: seq<byte>)
    ensures |z| == n && forall i :: 0 <= i < n ==> z[i] == 0
  {
    seq(n, _ => 0)
  }

  /** The bytes of a file: those below ValidDataLength from its chain, zeros up to DataLength. */
  ghost function Visible(chain: seq<byte>, valid: nat, size: nat): (c: seq<byte>)
    requires valid <= size && valid <= |chain|
    ensures |c| == size
  {
    chain[..valid] + Zeros(size - valid)
  }

  /** What a write at `pos` means for a flat byte sequence: a gap past the end reads as zeros. */
  function FlatWrite(c: seq<byte>, pos: nat, data: seq<byte>): (r: seq<byte>)
    ensures |r| == if data == [] then |c| else Max(|c|, pos + |data|)
  {
    if data == [] then c
    else if pos + |data| >= |c| then
      if pos <= |c| then c[..pos] + data else c + Zeros(pos - |c|) + data
    else
      c[..pos] + data + c[pos + |data|..]
  }

  /** What setting the length means: cut, or extend with zeros. */
  function FlatResize(c: seq<byte>, n: nat): (r: seq<byte>)
    ensures |r| == n
  {
    if n <= |c| then c[..n] else c + Zeros(n - |c|)
  }

  /** `b` with the gap between ValidDataLength and the cursor made real zeros. */
  ghost function GapFilled(b: seq<byte>, valid: nat, pos: nat): (r: seq<byte>)
    requires Max(valid, pos) <= |b|
    ensures |r| == |b|
  {
    if pos > valid then Put(b, valid, Zeros(pos - valid)) else b
  }

  /** Zeroing the gap above ValidDataLength and storing the data is a flat write. */
  lemma WriteIsFlat(b0: seq<byte>, b1: seq<byte>, valid: nat, size: nat, pos: nat, data: seq<byte>)
    requires b0 <= b1 && valid <= size && valid <= |b0| && pos + |data| <= |b1| && data != []
    ensures var end := pos + |data|;
            Visible(Put(GapFilled(b1, valid, pos), pos, data), Max(valid, end), Max(size, end)) ==
            FlatWrite(Visible(b0, valid, size), pos, data)
  {
    var end := pos + |data|;
    var c := Visible(b0, valid, size);
    var l, r := Visible(Put(GapFilled(b1, valid, pos), pos, data), Max(valid, end), Max(size, end)), FlatWrite(c, pos, data);
    assert |l| == |r|;
    forall i | 0 <= i < |l|
      ensures l[i] == r[i]
    {
      if i < valid {
        assert b0[i] == b1[i];
      }
    }
  }

  /** Moving DataLength, with ValidDataLength following it only downwards, is a flat resize. */
  lemma ResizeIsFlat(b0: seq<byte>, b1: seq<byte>, valid: nat, size: nat, n: nat)
    requires valid <= size && valid <= |b0| && Min(valid, n) <= |b1|
    requires b0[..Min(valid, n)] == b1[..Min(valid, n)]
    ensures Visible(b1, Min(valid, n), n) == FlatResize(Visible(b0, valid, size), n)
  {
    var v := Min(valid, n);
    assert forall i :: 0 <= i < v ==> b0[..v][i] == b1[..v][i];
  }
}
