/** Bytes, 512-byte sectors, little-endian fields and single bits of a byte. */
module Bytes {
  import opened Arith

  type byte = x: int | 0 <= x < 256

  type Sector = s: seq<byte> | |s| == 512 witness seq(512, _ => 0)

  const ZERO_SECTOR: Sector := seq(512, _ => 0)

  // ---- little-endian fields ----

  function Rd16(s: seq<byte>, o: nat): (r: nat)
    requires o + 2 <= |s|
    ensures r < 0x1_0000
  {
    s[o] as int + 0x100 * s[o + 1] as int
  }

  function Rd32(s: seq<byte>, o: nat): (r: nat)
    requires o + 4 <= |s|
    ensures r < 0x1_0000_0000
  {
    s[o] as int + 0x100 * s[o + 1] as int + 0x1_0000 * s[o + 2] as int + 0x100_0000 * s[o + 3] as int
  }

  function Rd64(s: seq<byte>, o: nat): (r: nat)
    requires o + 8 <= |s|
  {
    Rd32(s, o) + 0x1_0000_0000 * Rd32(s, o + 4)
  }

  function Le16(v: nat): (r: seq<byte>)
    ensures |r| == 2
  {
    [v % 0x100, v / 0x100 % 0x100]
  }

  function Le32(v: nat): (r: seq<byte>)
    ensures |r| == 4
  {
    [v % 0x100, v / 0x100 % 0x100, v / 0x1_0000 % 0x100, v / 0x100_0000 % 0x100]
  }

  function Le64(v: nat): (r: seq<byte>)
    ensures |r| == 8
  {
    Le32(v % 0x1_0000_0000) + Le32(v / 0x1_0000_0000)
  }

  /** `s` with the bytes `b` copied in at offset `o`. */
  function Put(s: seq<byte>, o: nat, b: seq<byte>): (r: seq<byte>)
    requires o + |b| <= |s|
    ensures |r| == |s|
    ensures forall i :: 0 <= i < |s| ==> r[i] == if o <= i < o + |b| then b[i - o] else s[i]
  {
    s[..o] + b + s[o + |b|..]
  }

  lemma PutPut(s: seq<byte>, o: nat, a: seq<byte>, b: seq<byte>)
    requires o + |a| + |b| <= |s|
    ensures Put(Put(s, o, a), o + |a|, b) == Put(s, o, a + b)
  {
  }

  lemma Rd16Put(s: seq<byte>, o: nat, v: nat)
    requires o + 2 <= |s| && v < 0x1_0000
    ensures Rd16(Put(s, o, Le16(v)), o) == v
  {
  }

  lemma Rd32Le32(v: nat)
    requires v < 0x1_0000_0000
    ensures Rd32(Le32(v), 0) == v
  {
    Halves(v);
    assert v / 0x100_0000 < 0x100;
  }

  /** A number from its bytes. */
  lemma Halves(v: nat)
    ensures v == v % 0x100 + 0x100 * (v / 0x100)
    ensures v / 0x100 == v / 0x100 % 0x100 + 0x100 * (v / 0x1_0000)
    ensures v / 0x1_0000 == v / 0x1_0000 % 0x100 + 0x100 * (v / 0x100_0000)
  {
  }

  lemma Rd32Put(s: seq<byte>, o: nat, v: nat)
    requires o + 4 <= |s| && v < 0x1_0000_0000
    ensures Rd32(Put(s, o, Le32(v)), o) == v
  {
    Rd32Le32(v);
    var r := Put(s, o, Le32(v));
    assert forall i :: 0 <= i < 4 ==> r[o + i] == Le32(v)[i];
  }

  lemma Rd64Put(s: seq<byte>, o: nat, v: nat)
    requires o + 8 <= |s| && v < 0x1_0000_0000_0000_0000
    ensures Rd64(Put(s, o, Le64(v)), o) == v
  {
    var lo, hi := v % 0x1_0000_0000, v / 0x1_0000_0000;
    Rd32Le32(lo);
    Rd32Le32(hi);
    var r := Put(s, o, Le64(v));
    assert forall i :: 0 <= i < 8 ==> r[o + i] == Le64(v)[i];
    assert Rd32(r, o) == lo && Rd32(r, o + 4) == hi;
  }

  /** A field outside the bytes written is read as before. */
  lemma Rd32PutElsewhere(s: seq<byte>, o: nat, b: seq<byte>, p: nat)
    requires o + |b| <= |s| && p + 4 <= |s|
    requires p + 4 <= o || o + |b| <= p
    ensures Rd32(Put(s, o, b), p) == Rd32(s, p)
  {
  }

  // ---- bits of a byte, bit 0 the lowest ----

  predicate TestBit(b: nat, k: nat)
    decreases k
  {
    if k == 0 then b % 2 == 1 else TestBit(b / 2, k - 1)
  }

  /** `b` with bit `k` set to `on`. */
  function WriteBit(b: nat, k: nat, on: bool): nat
    decreases k
  {
    if k == 0 then b / 2 * 2 + (if on then 1 else 0)
    else b % 2 + 2 * WriteBit(b / 2, k - 1, on)
  }

  lemma {:induction false} WriteBitFits(b: nat, k: nat, on: bool, n: nat)
    requires k < n && b < Pow2(n)
    ensures WriteBit(b, k, on) < Pow2(n)
    decreases k
  {
    assert Pow2(n) == 2 * Pow2(n - 1);
    if k > 0 {
      WriteBitFits(b / 2, k - 1, on, n - 1);
    }
  }

  /** The read-modify-write of one bit of a byte in a bitmap. */
  function BitWritten(b: byte, k: nat, on: bool): byte
    requires k < 8
  {
    WriteBitFits(b, k, on, 8);
    assert Pow2(8) == 256 by {
      assert Pow2(4) == 16;
      Pow2Adds(4, 4);
    }
    WriteBit(b, k, on)
  }

  lemma {:induction false} WriteBitTests(b: nat, k: nat, on: bool, j: nat)
    ensures TestBit(WriteBit(b, k, on), j) == if j == k then on else TestBit(b, j)
    decreases k
  {
    if k == 0 {
    } else if j == 0 {
      assert WriteBit(b, k, on) % 2 == b % 2;
    } else {
      assert WriteBit(b, k, on) / 2 == WriteBit(b / 2, k - 1, on);
      WriteBitTests(b / 2, k - 1, on, j - 1);
    }
  }
}
