/** FAT32 names: the 8.3 form, and long names spread over LFN entries. */
module FatNames {
  import opened Arith
  import opened Bytes
  import opened ExfatNames
  import opened ExfatEntrySet

  const ATTR_VOLUME: nat := 0x08
  const ATTR_LFN: byte := 0x0F
  const ATTR_AT: nat := 11
  const LFN_CHARS: nat := 13

  /** The highest number an LFN entry can carry, the highest that is read, and the bytes those spell. */
  const LFN_TOP: nat := 63
  const LFN_MAX: nat := 20
  const SHOWN_MAX: nat := 260

  /** The bytes of a name in the longest path. */
  const NAME_LIMIT: nat := 510

  const DOT: byte := 0x2E
  const BLANK: byte := 0x20
  const TILDE: byte := 0x7E

  function Lower(b: byte): byte {
    if 0x41 <= b <= 0x5A then b + 32 else b
  }

  function LowerAll(s: seq<byte>): (r: seq<byte>)
    ensures |r| == |s| && forall i :: 0 <= i < |s| ==> r[i] == Lower(s[i])
  {
    seq(|s|, i requires 0 <= i < |s| => Lower(s[i]))
  }

  // ---- 8.3 names ----

  /** Position of the last dot, or the length of the name. */
  function LastDot(s: seq<byte>): (d: nat)
    ensures d <= |s| && (d < |s| ==> s[d] == DOT)
    ensures forall i :: d < i < |s| ==> s[i] != DOT
    ensures d == |s| ==> forall i :: 0 <= i < |s| ==> s[i] != DOT
  {
    if s == [] then 0
    else if s[|s| - 1] == DOT then |s| - 1
    else
      var d := LastDot(s[..|s| - 1]);
      if d == |s| - 1 then |s| else d
  }

  /** Characters up to the first blank. */
  function Trimmed(s: seq<byte>): (r: seq<byte>)
    ensures |r| <= |s|
  {
    if s == [] || s[0] == BLANK then [] else [s[0]] + Trimmed(s[1..])
  }

  /** `s` upper-cased, cut or padded with blanks to `n` bytes. */
  function Field(s: seq<byte>, n: nat): (r: seq<byte>)
    ensures |r| == n && forall i :: 0 <= i < n ==> r[i] == if i < |s| then Upper(s[i]) else BLANK
  {
    seq(n, i requires 0 <= i < n => if i < |s| then Upper(s[i]) else BLANK)
  }

  /** The 11 bytes of a name in 8.3 form. */
  function Encode83(name: seq<byte>): (r: seq<byte>)
    ensures |r| == 11
  {
    var d := LastDot(name);
    Field(name[..Min(d, 8)], 8) + Field(if d < |name| then name[d + 1..] else [], 3)
  }

  /** How an 8.3 name is shown: lower case, with a dot before an extension. */
  function Decode83(e: seq<byte>): seq<byte>
    requires |e| >= 11
  {
    LowerAll(Trimmed(e[..8]) + if e[8] != BLANK then [DOT] + Trimmed(e[8..11]) else [])
  }

  /** Characters an 8.3 name does not have. */
  predicate Special(c: byte) {
    c in {0x20, 0x2B, 0x2C, 0x3B, 0x3D, 0x5B, 0x5D} || 0x61 <= c <= 0x7A
  }

  function CountDots(s: seq<byte>): nat {
    if s == [] then 0 else CountDots(s[..|s| - 1]) + if s[|s| - 1] == DOT then 1 else 0
  }

  /** Whether a name needs long-name entries. */
  predicate NeedsLfn(name: seq<byte>) {
    var d := LastDot(name);
    || |name| == 0 || |name| > 12 || name[0] == DOT || CountDots(name) > 1
    || d == 0 || d > 8 || (d < |name| && |name| - d - 1 > 3)
    || exists i :: 0 <= i < |name| && Special(name[i])
  }

  method NeedsLfnScan(name: seq<byte>) returns (needs: bool)
    ensures needs == NeedsLfn(name)
  {
    var len := |name|;
    if len == 0 || len > 12 || name[0] == DOT {
      return true;
    }
    var dot, dots := len, 0;
    for i := 0 to len
      invariant dots == CountDots(name[..i]) && (if dots == 0 then dot == len && LastDot(name[..i]) == i else dot == LastDot(name[..i]) < i)
    {
      assert name[..i + 1][..i] == name[..i];
      if name[i] == DOT {
        dot := i;
        dots := dots + 1;
      }
    }
    assert name[..len] == name;
    if dots > 1 {
      return true;
    }
    var baseLen := dot;
    var extLen := if dot < len then len - baseLen - 1 else 0;
    if baseLen == 0 || baseLen > 8 || extLen > 3 {
      return true;
    }
    for i := 0 to len
      invariant forall j :: 0 <= j < i ==> !Special(name[j])
    {
      if Special(name[i]) {
        return true;
      }
    }
    needs := false;
  }

  /** Without blanks nothing is trimmed but the padding. */
  lemma {:induction false} TrimmedField(s: seq<byte>, n: nat)
    requires |s| <= n && forall i :: 0 <= i < |s| ==> Upper(s[i]) != BLANK
    ensures Trimmed(Field(s, n)) == Field(s, |s|)
    decreases n
  {
    if s != [] {
      TrimmedField(s[1..], n - 1);
      assert Field(s, n)[1..] == Field(s[1..], n - 1);
      assert Field(s, |s|)[1..] == Field(s[1..], |s| - 1);
    }
  }

  lemma LowerUpper(s: seq<byte>, n: nat)
    requires n == |s|
    ensures LowerAll(Field(s, n)) == LowerAll(s)
  {
  }

  /** The two fields of an 8.3 name, shown. */
  lemma FieldsShown(name: seq<byte>, base: seq<byte>, ext: seq<byte>)
    requires |base| <= 8 && |ext| <= 3
    requires forall i :: 0 <= i < |base| ==> Upper(base[i]) != BLANK
    requires forall i :: 0 <= i < |ext| ==> Upper(ext[i]) != BLANK
    ensures Decode83(Field(base, 8) + Field(ext, 3)) == LowerAll(base) + if ext != [] then [DOT] + LowerAll(ext) else []
  {
    var e := Field(base, 8) + Field(ext, 3);
    TrimmedField(base, 8);
    TrimmedField(ext, 3);
    assert e[..8] == Field(base, 8) && e[8..11] == Field(ext, 3);
    LowerUpper(base, |base|);
    LowerUpper(ext, |ext|);
    var shown := Field(base, |base|) + if ext != [] then [DOT] + Field(ext, |ext|) else [];
    assert Decode83(e) == LowerAll(shown);
    var r := LowerAll(base) + if ext != [] then [DOT] + LowerAll(ext) else [];
    assert |LowerAll(shown)| == |r|;
    forall i | 0 <= i < |r|
      ensures LowerAll(shown)[i] == r[i]
    {
    }
  }

  /** A name in 8.3 form comes back in lower case exactly when it does not end with a dot. */
  lemma ShortNameShown(name: seq<byte>)
    requires !NeedsLfn(name)
    ensures Decode83(Encode83(name)) == LowerAll(name) <==> name[|name| - 1] != DOT
  {
    hide CountDots, Decode83, LowerAll, Field;
    var d := LastDot(name);
    var base, ext := name[..d], if d < |name| then name[d + 1..] else [];
    assert name[..Min(d, 8)] == base;
    NotSpecial(name);
    FieldsShown(name, base, ext);
    LowerDot();
    if d < |name| {
      assert name == base + ([DOT] + ext);
      LowerConcat(base, [DOT] + ext);
      LowerConcat([DOT], ext);
      LowerLength(base);
      LowerLength(name);
    } else {
      assert name == base;
    }
  }

  lemma NotSpecial(name: seq<byte>)
    requires !NeedsLfn(name)
    ensures forall i :: 0 <= i < |name| ==> Upper(name[i]) != BLANK
    ensures |name| >= 1
  {
    assert forall i :: 0 <= i < |name| ==> !Special(name[i]);
  }

  lemma LowerConcat(a: seq<byte>, b: seq<byte>)
    ensures LowerAll(a + b) == LowerAll(a) + LowerAll(b)
  {
  }

  lemma LowerDot()
    ensures LowerAll([DOT]) == [DOT] && LowerAll([]) == []
  {
  }

  lemma LowerLength(s: seq<byte>)
    ensures |LowerAll(s)| == |s|
  {
  }

  /** A name that ends with a dot loses it. */
  lemma TrailingDotLost()
    ensures !NeedsLfn([0x41, DOT]) && Decode83(Encode83([0x41, DOT])) == [0x61]
  {
    var name: seq<byte> := [0x41, DOT];
    assert name[..1] == [0x41];
    assert LastDot(name) == 1;
    assert CountDots(name) == CountDots(name[..1]) + 1 && CountDots(name[..1]) == CountDots(name[..1][..0]);
    ShortNameShown(name);
    TrimmedField([0x41], 8);
    TrimmedField([], 3);
    var e := Encode83(name);
    assert e[..8] == Field([0x41], 8);
  }

  // ---- long names ----

  /** Byte offset of character `j` in an LFN entry. */
  function CharAt(j: nat): (o: nat)
    requires j < LFN_CHARS
    ensures o + 2 <= 32 && o >= 1 && !(ATTR_AT - 1 <= o <= 13)
  {
    if j < 5 then 1 + 2 * j else if j < 11 then 14 + 2 * (j - 5) else 28 + 2 * (j - 11)
  }

  predicate IsLfn(e: Entry) {
    e[ATTR_AT] == ATTR_LFN
  }

  function Seq(e: Entry): nat {
    e[0] as nat % 64
  }

  predicate IsFirst(e: Entry) {
    e[0] as nat / 64 % 2 == 1
  }

  /** LFN entries carry `n`, `n - 1`, ..., 1; the first one is marked. */
  predicate LfnRun(s: seq<Entry>) {
    && 1 <= |s| <= LFN_TOP
    && forall i :: 0 <= i < |s| ==> IsLfn(s[i]) && s[i][0] != 0xE5 && s[i][0] != 0 && Seq(s[i]) == |s| - i && (IsFirst(s[i]) <==> i == 0)
  }

  /** The bytes the run spells, in order. */
  function Assembled(s: seq<Entry>): (b: seq<byte>)
    ensures |b| == LFN_CHARS * |s|
  {
    seq(LFN_CHARS * |s|, p requires 0 <= p < LFN_CHARS * |s| => s[|s| - 1 - p / LFN_CHARS][CharAt(p % LFN_CHARS)])
  }

  /** The name a run shows: at most twenty entries of it are read. */
  function LongName(s: seq<Entry>): seq<byte> {
    CString(Assembled(s)[..Min(|Assembled(s)|, SHOWN_MAX)])
  }

  /** The part of a name that is shown. */
  function ShownPart(name: seq<byte>): (r: seq<byte>)
    ensures r <= name && |r| == Min(|name|, SHOWN_MAX)
  {
    name[..Min(|name|, SHOWN_MAX)]
  }

  /** Character `ci` of a name padded for LFN entries, as two bytes. */
  function Padded(name: seq<byte>, ci: nat): (b: seq<byte>)
    ensures |b| == 2
  {
    if ci < |name| then [name[ci], 0] else if ci == |name| then [0, 0] else [0xFF, 0xFF]
  }

  /** The two bytes at `o` are character `ci` of the name: the byte and 0, then a zero, then 0xFF throughout. */
  predicate CharIs(e: Entry, o: nat, name: seq<byte>, ci: nat) {
    && o + 2 <= 32
    && e[o] == (if ci < |name| then name[ci] else if ci == |name| then 0 else 0xFF)
    && e[o + 1] == (if ci <= |name| then 0 else 0xFF)
  }

  /** An LFN entry has characters `o` to `o + 12` of the name at bytes 1 to 10, 14 to 25 and 28 to 31. */
  predicate Thirteen(e: Entry, name: seq<byte>, o: nat) {
    && CharIs(e, 1, name, o) && CharIs(e, 3, name, o + 1) && CharIs(e, 5, name, o + 2) && CharIs(e, 7, name, o + 3)
    && CharIs(e, 9, name, o + 4) && CharIs(e, 14, name, o + 5) && CharIs(e, 16, name, o + 6) && CharIs(e, 18, name, o + 7)
    && CharIs(e, 20, name, o + 8) && CharIs(e, 22, name, o + 9) && CharIs(e, 24, name, o + 10) && CharIs(e, 28, name, o + 11)
    && CharIs(e, 30, name, o + 12)
  }

  /** Those are the places the reader takes them from. */
  lemma CharPlaces()
    ensures CharAt(0) == 1 && CharAt(1) == 3 && CharAt(2) == 5 && CharAt(3) == 7 && CharAt(4) == 9
    ensures CharAt(5) == 14 && CharAt(6) == 16 && CharAt(7) == 18 && CharAt(8) == 20 && CharAt(9) == 22 && CharAt(10) == 24
    ensures CharAt(11) == 28 && CharAt(12) == 30
  {
  }

  /** One more character leaves those before it and the other fields alone. */
  lemma CharStored(e: Entry, j: nat, name: seq<byte>, o: nat)
    requires j < LFN_CHARS && forall k :: 0 <= k < j ==> CharIs(e, CharAt(k), name, o + k)
    ensures var r := PutEntry(e, CharAt(j), Padded(name, o + j));
            && (forall k :: 0 <= k <= j ==> CharIs(r, CharAt(k), name, o + k))
            && r[0] == e[0] && r[11] == e[11] && r[12] == e[12] && r[13] == e[13] && r[26] == e[26] && r[27] == e[27]
  {
  }

  lemma AllThirteen(e: Entry, name: seq<byte>, o: nat)
    requires forall k :: 0 <= k < LFN_CHARS ==> CharIs(e, CharAt(k), name, o + k)
    ensures Thirteen(e, name, o) && forall k :: 0 <= k < LFN_CHARS ==> e[CharAt(k)] == Padded(name, o + k)[0]
  {
    CharPlaces();
  }

  /** LFN entry number `s` of a name: 0xFF bytes overwritten field by field. */
  method BuildLfn(s: nat, isLast: bool, name: seq<byte>, checksum: byte) returns (e: Entry)
    requires 1 <= s <= LFN_TOP
    ensures IsLfn(e) && Seq(e) == s && (IsFirst(e) <==> isLast) && e[0] != 0 && e[0] != 0xE5
    ensures forall j :: 0 <= j < LFN_CHARS ==> e[CharAt(j)] == Padded(name, (s - 1) * LFN_CHARS + j)[0]
    ensures e[0] == (if isLast then s + 64 else s) && e[11] == 15 && e[12] == 0 && e[13] == checksum && e[26] == 0 && e[27] == 0
    ensures Thirteen(e, name, (s - 1) * 13)
  {
    hide CharIs, Padded, CharAt;
    e := seq(32, _ => 0xFF);
    e := PutEntry(e, 0, [if isLast then s + 0x40 else s]);
    e := PutEntry(e, ATTR_AT, [ATTR_LFN, 0, checksum]);
    e := PutEntry(e, 26, [0, 0]);
    var offset := (s - 1) * LFN_CHARS;
    ghost var head := e;
    for j := 0 to LFN_CHARS
      invariant e[0] == head[0] && e[11] == head[11] && e[12] == head[12] && e[13] == head[13] && e[26] == head[26] && e[27] == head[27]
      invariant forall k :: 0 <= k < j ==> CharIs(e, CharAt(k), name, offset + k)
    {
      CharStored(e, j, name, offset);
      e := PutEntry(e, CharAt(j), Padded(name, offset + j));
    }
    AllThirteen(e, name, offset);
  }

  /** LFN entries for a name of `n` characters. */
  function LfnCount(n: nat): nat {
    (n + 12) / LFN_CHARS
  }

  /** The run for a name shows it, up to the 260th byte. */
  lemma LongNameComesBack(s: seq<Entry>, name: seq<byte>)
    requires |s| == LfnCount(|name|) && 1 <= |name| <= NAME_LIMIT && forall i :: 0 <= i < |name| ==> name[i] != 0
    requires forall i, j :: 0 <= i < |s| && 0 <= j < LFN_CHARS ==> s[i][CharAt(j)] == Padded(name, (|s| - 1 - i) * LFN_CHARS + j)[0]
    ensures LongName(s) == ShownPart(name)
  {
    var b := Assembled(s);
    forall p | 0 <= p < |b|
      ensures b[p] == Padded(name, p)[0]
    {
      var i, j := |s| - 1 - p / LFN_CHARS, p % LFN_CHARS;
      assert (|s| - 1 - i) * LFN_CHARS + j == p;
      assert s[i][CharAt(j)] == Padded(name, p)[0];
    }
    EndsAtNul(b[..Min(|b|, SHOWN_MAX)], ShownPart(name));
  }

  lemma {:induction false} EndsAtNul(b: seq<byte>, name: seq<byte>)
    requires |name| <= |b| && (forall i :: 0 <= i < |name| ==> b[i] == name[i] != 0) && (|name| < |b| ==> b[|name|] == 0)
    ensures CString(b) == name
    decreases |name|
  {
    if name != [] {
      EndsAtNul(b[1..], name[1..]);
    }
  }

  /** One byte of that: the sum rotated to the right in eight bits, and the byte added. */
  function ShortStep(sum: byte, b: byte): byte {
    ((if sum % 2 == 1 then 0x80 else 0) + sum / 2 + b) % 0x100
  }

  /** The checksum of the short name that its LFN entries carry. */
  function ShortChecksum(n: seq<byte>): (r: byte) {
    if n == [] then 0 else ShortStep(ShortChecksum(n[..|n| - 1]), n[|n| - 1])
  }

  /** The step is an exact rotation for a zero byte, adds any other, and keeps different sums and bytes apart. */
  lemma ShortStepRotates(sum: byte, sum': byte, b: byte, b': byte)
    ensures 2 * ShortStep(sum, 0) as int == sum as int + (if sum % 2 == 1 then 0xFF else 0)
    ensures ShortStep(sum, b) as int == (ShortStep(sum, 0) as int + b as int) % 256
    ensures sum != sum' ==> ShortStep(sum, b) != ShortStep(sum', b)
    ensures b != b' ==> ShortStep(sum, b) != ShortStep(sum, b')
  {
    ShortStepIs(sum, b);
    ShortStepIs(sum', b);
    ShortStepIs(sum, b');
    ShortStepIs(sum, 0);
    ShortStepIs(sum', 0);
    hide ShortStep;
  }

  lemma ShortStepIs(sum: byte, b: byte)
    ensures var r := (if sum % 2 == 1 then 0x80 else 0) + sum as int / 2;
            && r < 256 && 2 * r == sum as int + (if sum % 2 == 1 then 0xFF else 0)
            && ShortStep(sum, b) as int == r + b as int - if r + b as int >= 256 then 256 else 0
  {
  }

  /** Short names that differ in one byte have different checksums. */
  lemma {:induction false} ShortChecksumDetects(n: seq<byte>, n': seq<byte>, p: nat)
    requires |n| == |n'| && p < |n| && n[p] != n'[p] && forall q :: 0 <= q < |n| && q != p ==> n[q] == n'[q]
    ensures ShortChecksum(n) != ShortChecksum(n')
  {
    hide ShortStep;
    var k := |n| - 1;
    if p < k {
      ShortChecksumDetects(n[..k], n'[..k], p);
    } else {
      assert n[..k] == n'[..k];
    }
    ShortStepRotates(ShortChecksum(n[..k]), ShortChecksum(n'[..k]), n[k], n'[k]);
  }
}
