/** File names: UTF-8 bytes on the caller's side, UTF-16 code units on disk. */
module ExfatNames {
  import opened Arith
  import opened Bytes

  /** The UTF-8 form of one code unit of the basic plane. */
  function EncodeUnit(cp: nat): (r: seq<byte>)
    requires cp < 0x1_0000
    ensures 1 <= |r| <= 3
  {
    if cp < 0x80 then [cp]
    else if cp < 0x800 then [0xC0 + cp / 64, 0x80 + cp % 64]
    else [0xE0 + cp / 4096, 0x80 + cp / 64 % 64, 0x80 + cp % 64]
  }

  predicate IsSurrogate(cp: nat) {
    0xD800 <= cp <= 0xDFFF
  }

  /** Surrogate halves are shown as a question mark. */
  function Shown(cp: nat): nat {
    if IsSurrogate(cp) then 0x3F else cp
  }

  predicate AreUnits(u: seq<nat>) {
    forall i :: 0 <= i < |u| ==> u[i] < 0x1_0000
  }

  function Encode(u: seq<nat>): seq<byte>
    requires AreUnits(u)
  {
    if u == [] then [] else EncodeUnit(Shown(u[0])) + Encode(u[1..])
  }

  /** The units that fit a buffer with `room` bytes left, terminator included. */
  function Fitting(u: seq<nat>, room: nat): (r: seq<byte>)
    requires AreUnits(u)
  {
    if u == [] || |EncodeUnit(Shown(u[0]))| >= room then []
    else EncodeUnit(Shown(u[0])) + Fitting(u[1..], room - |EncodeUnit(Shown(u[0]))|)
  }

  /** A name that fits the buffer is not cut. */
  lemma {:induction false} FittingAll(u: seq<nat>, room: nat)
    requires AreUnits(u) && |Encode(u)| < room
    ensures Fitting(u, room) == Encode(u)
  {
    if u != [] {
      FittingAll(u[1..], room - |EncodeUnit(Shown(u[0]))|);
    }
  }

  /** UTF-16 to UTF-8 into a buffer of `cap` bytes, terminator included. */
  method Utf16ToUtf8(src: seq<nat>, cap: nat) returns (dst: seq<byte>)
    requires AreUnits(src) && cap >= 1
    ensures dst == Fitting(src, cap)
  {
    hide EncodeUnit;
    dst := [];
    assert src[0..] == src;
    for i := 0 to |src|
      invariant |dst| < cap && Fitting(src, cap) == dst + Fitting(src[i..], cap - |dst|)
    {
      var cp := src[i];
      if IsSurrogate(cp) {
        cp := 0x3F;
      }
      var unit := EncodeUnit(cp);
      assert src[i..][0] == src[i] && src[i..][1..] == src[i + 1..];
      if |dst| + |unit| >= cap {
        return;
      }
      dst := dst + unit;
    }
  }

  // ---- UTF-8 (section 4 of RFC 3629), without the NUL character and the 4-byte forms ----

  predicate IsTail(b: byte) {
    0x80 <= b <= 0xBF
  }

  /** Length of the well-formed sequence at the front of `s`, or 0. */
  function SequenceLength(s: seq<byte>): (n: nat)
    ensures n <= |s| && n <= 3
  {
    if |s| >= 1 && 0x01 <= s[0] <= 0x7F then 1
    else if |s| >= 2 && 0xC2 <= s[0] <= 0xDF && IsTail(s[1]) then 2
    else if |s| >= 3 && IsTail(s[2]) &&
            ((s[0] == 0xE0 && 0xA0 <= s[1] <= 0xBF) ||
             (0xE1 <= s[0] <= 0xEC && IsTail(s[1])) ||
             (s[0] == 0xED && 0x80 <= s[1] <= 0x9F) ||
             (0xEE <= s[0] <= 0xEF && IsTail(s[1]))) then 3
    else 0
  }

  predicate WellFormed(s: seq<byte>) {
    s == [] || (SequenceLength(s) > 0 && WellFormed(s[SequenceLength(s)..]))
  }

  /** The code point of the sequence at the front. */
  function FrontUnit(s: seq<byte>): (cp: nat)
    requires SequenceLength(s) > 0
    ensures cp < 0x1_0000 && cp != 0 && !IsSurrogate(cp)
  {
    if SequenceLength(s) == 1 then s[0]
    else if SequenceLength(s) == 2 then (s[0] - 0xC0) as int * 64 + (s[1] - 0x80) as int
    else (s[0] - 0xE0) as int * 4096 + (s[1] - 0x80) as int * 64 + (s[2] - 0x80) as int
  }

  function Units(s: seq<byte>): (u: seq<nat>)
    requires WellFormed(s)
    ensures AreUnits(u)
    ensures forall i :: 0 <= i < |u| ==> u[i] != 0 && !IsSurrogate(u[i])
    ensures |u| <= |s| && (s != [] ==> u != [])
  {
    if s == [] then [] else [FrontUnit(s)] + Units(s[SequenceLength(s)..])
  }

  lemma EncodeFront(s: seq<byte>)
    requires SequenceLength(s) > 0
    ensures EncodeUnit(FrontUnit(s)) == s[..SequenceLength(s)]
  {
    var n, cp := SequenceLength(s), FrontUnit(s);
    if n == 2 {
      assert cp / 64 == s[0] - 0xC0 && cp % 64 == s[1] - 0x80;
      assert s[..2] == [s[0], s[1]];
    } else if n == 3 {
      assert cp / 4096 == s[0] - 0xE0 && cp / 64 % 64 == s[1] - 0x80 && cp % 64 == s[2] - 0x80;
      assert s[..3] == [s[0], s[1], s[2]];
    }
  }

  /** Decoding a well-formed name and encoding it again gives the same bytes. */
  lemma {:induction false} NameRoundTrip(s: seq<byte>)
    requires WellFormed(s)
    ensures Encode(Units(s)) == s
  {
    hide EncodeUnit, SequenceLength, FrontUnit;
    if s != [] {
      var n := SequenceLength(s);
      EncodeFront(s);
      NameRoundTrip(s[n..]);
      assert Units(s)[1..] == Units(s[n..]);
      assert s == s[..n] + s[n..];
    }
  }

  /** The terminated string `s`: the byte at `i`, or the terminator. */
  function At(s: seq<byte>, i: nat): byte {
    if i < |s| then s[i] else 0
  }

  /** A continuation byte: its top bits are 10. */
  predicate Continues(b: byte) {
    b / 64 == 2
  }

  /** The bits of a byte below a power of two. */
  function Low(b: byte, m: nat): (r: nat)
    requires m >= 1
    ensures r < m && r < 256
  {
    b as nat % m
  }

  /** The code point at `p` and the bytes it takes, or 0 bytes when they are invalid. */
  method DecodeAt(s: seq<byte>, p: nat) returns (cp: nat, n: nat)
    requires p < |s|
    requires forall i :: 0 <= i < |s| ==> !(0xF0 <= s[i] <= 0xF7)
    ensures p + n <= |s| && cp < 0x1_0000
    ensures SequenceLength(s[p..]) > 0 ==> n == SequenceLength(s[p..]) && cp == FrontUnit(s[p..])
  {
    ghost var rest := s[p..];
    var c := s[p];
    if c < 0x80 {
      cp, n := c, 1;
    } else if c / 32 == 6 {
      if !Continues(At(s, p + 1)) {
        return 0, 0;
      }
      cp, n := Low(c, 32) * 64 + Low(s[p + 1], 64), 2;
    } else if c / 16 == 14 {
      if !Continues(At(s, p + 1)) || !Continues(At(s, p + 2)) {
        return 0, 0;
      }
      cp, n := Low(c, 16) * 4096 + Low(s[p + 1], 64) * 64 + Low(s[p + 2], 64), 3;
    } else {
      return 0, 0;
    }
    if SequenceLength(rest) > 0 {
      FrontMatches(rest, cp, n);
    }
  }

  /** UTF-8 to UTF-16, at most `cap` units. An empty result means invalid or oversize.
    * Lead bytes of the 4-byte form are outside this model.
    */
  method Utf8ToUtf16(s: seq<byte>, cap: nat) returns (out: seq<nat>)
    requires cap <= 255
    requires forall i :: 0 <= i < |s| ==> s[i] != 0 && !(0xF0 <= s[i] <= 0xF7)
    ensures AreUnits(out) && |out| <= cap
    ensures WellFormed(s) ==> out == if |Units(s)| <= cap then Units(s) else []
  {
    hide SequenceLength, FrontUnit;
    out := [];
    var p := 0;
    assert s[0..] == s;
    while p < |s|
      invariant p <= |s| && AreUnits(out) && |out| <= cap
      invariant WellFormed(s) ==> WellFormed(s[p..]) && Units(s) == out + Units(s[p..])
      decreases |s| - p
    {
      if |out| >= cap {
        return [];
      }
      var cp, n := DecodeAt(s, p);
      if n == 0 {
        return [];
      }
      assert s[p..][n..] == s[p + n..];
      out := out + [cp];
      p := p + n;
    }
  }

  /** The masks and shifts compute the code point of a well-formed sequence. */
  lemma FrontMatches(s: seq<byte>, cp: nat, n: nat)
    requires SequenceLength(s) > 0
    requires if s[0] < 0x80 then n == 1 && cp == s[0]
             else if s[0] / 32 == 6 then n == 2 && n <= |s| && cp == Low(s[0], 32) * 64 + Low(s[1], 64)
             else n == 3 && n <= |s| && cp == Low(s[0], 16) * 4096 + Low(s[1], 64) * 64 + Low(s[2], 64)
    ensures n == SequenceLength(s) && cp == FrontUnit(s)
  {
  }

  // ---- comparing names ----

  /** The C string in a buffer: the bytes before the first NUL. */
  function CString(s: seq<byte>): seq<byte> {
    if s == [] || s[0] == 0 then [] else [s[0]] + CString(s[1..])
  }

  /** ASCII upper case of a byte. */
  function Upper(b: byte): byte {
    if 0x61 <= b <= 0x7A then b - 32 else b
  }

  predicate SameFolded(a: seq<byte>, b: seq<byte>) {
    |a| == |b| && forall i :: 0 <= i < |a| ==> Upper(a[i]) == Upper(b[i])
  }

  /** ASCII case-insensitive equality of two names. */
  predicate SameName(a: seq<byte>, b: seq<byte>) {
    SameFolded(CString(a), CString(b))
  }

  lemma SameNameFront(a: seq<byte>, b: seq<byte>)
    ensures Upper(At(a, 0)) != Upper(At(b, 0)) ==> !SameName(a, b)
    ensures Upper(At(a, 0)) == Upper(At(b, 0)) == 0 ==> SameName(a, b)
    ensures Upper(At(a, 0)) == Upper(At(b, 0)) != 0 ==>
              a != [] && b != [] && (SameName(a, b) <==> SameName(a[1..], b[1..]))
  {
    if SameName(a, b) && CString(a) != [] {
      assert Upper(CString(a)[0]) == Upper(CString(b)[0]);
    }
    if Upper(At(a, 0)) == Upper(At(b, 0)) != 0 {
      var x, y := CString(a), CString(b);
      assert x[1..] == CString(a[1..]) && y[1..] == CString(b[1..]);
      if SameFolded(x[1..], y[1..]) {
        forall i | 0 <= i < |x|
          ensures Upper(x[i]) == Upper(y[i])
        {
          if i > 0 {
            assert x[1..][i - 1] == x[i] && y[1..][i - 1] == y[i];
          }
        }
      }
    }
  }

  method NameEqCi(a: seq<byte>, b: seq<byte>) returns (eq: bool)
    ensures eq == SameName(a, b)
  {
    hide SameName, Upper;
    var i := 0;
    assert a[0..] == a && b[0..] == b;
    while true
      invariant i <= |a| && i <= |b|
      invariant SameName(a, b) <==> SameName(a[i..], b[i..])
      decreases |a| - i
    {
      var ca, cb := Upper(At(a, i)), Upper(At(b, i));
      SameNameFront(a[i..], b[i..]);
      if ca != cb {
        return false;
      }
      if ca == 0 {
        return true;
      }
      assert a[i..][1..] == a[i + 1..] && b[i..][1..] == b[i + 1..];
      i := i + 1;
    }
  }
}
