/** What the checksum of an entry set detects, and what the fields of a set mean, byte by byte. */
module ExfatSums {
  import opened Arith
  import opened Bytes
  import opened ExfatNames
  import opened ExfatEntrySet

  const WORD: nat := 0x1_0000

  // ---- one step ----

  /** For a zero byte the step is an exact rotation to the right: the lowest bit comes back as the highest. */
  lemma StepRotates(sum: nat, i: nat)
    requires sum < WORD && i != 2 && i != 3
    ensures 2 * ChecksumStep(sum, i, 0) == sum + (if sum % 2 == 1 then 0xFFFF else 0)
  {
  }

  /** And any other byte is added, in 16 bits. */
  lemma StepAdds(sum: nat, i: nat, b: byte)
    requires sum < WORD && i != 2 && i != 3
    ensures ChecksumStep(sum, i, b) == ChecksumStep(sum, i, 0) + b - (if ChecksumStep(sum, i, 0) + b >= WORD then WORD else 0)
  {
  }

  /** The checksum's own field does not count. */
  lemma StepSkips(sum: nat, i: nat, b: byte)
    requires sum < WORD && (i == 2 || i == 3)
    ensures ChecksumStep(sum, i, b) == sum
  {
  }

  /** Different sums stay different, and different bytes make them so. */
  lemma StepInjective(sum: nat, sum': nat, i: nat, b: byte, b': byte)
    requires sum < WORD && sum' < WORD
    ensures sum != sum' ==> ChecksumStep(sum, i, b) != ChecksumStep(sum', i, b)
    ensures b != b' && i != 2 && i != 3 ==> ChecksumStep(sum, i, b) != ChecksumStep(sum, i, b')
  {
    if i != 2 && i != 3 {
      StepRotates(sum, i);
      StepRotates(sum', i);
      StepAdds(sum, i, b);
      StepAdds(sum', i, b);
      StepAdds(sum, i, b');
    }
  }

  // ---- whole sets ----

  /** Byte `p` of a set. */
  function ByteOf(es: seq<Entry>, p: nat): byte
    requires p < |es| * 32
  {
    es[p / 32][p % 32]
  }

  /** The sets differ in byte `p` alone. */
  predicate DifferAt(es: seq<Entry>, es': seq<Entry>, p: nat) {
    && |es| == |es'| && p < |es| * 32 && ByteOf(es, p) != ByteOf(es', p)
    && forall q :: 0 <= q < |es| * 32 && q != p ==> ByteOf(es, q) == ByteOf(es', q)
  }

  lemma {:induction false} SumsDiffer(es: seq<Entry>, es': seq<Entry>, p: nat, n: nat)
    requires DifferAt(es, es', p) && n <= |es| * 32
    ensures Checksum(es, n) == Checksum(es', n) <==> n <= p || p == 2 || p == 3
  {
    if n > 0 {
      SumsDiffer(es, es', p, n - 1);
      StepInjective(Checksum(es, n - 1), Checksum(es', n - 1), n - 1, ByteOf(es, n - 1), ByteOf(es', n - 1));
    }
  }

  /** A set that passes the checksum test fails it with any one byte changed. */
  lemma OneByteDetected(es: seq<Entry>, es': seq<Entry>, p: nat)
    requires DifferAt(es, es', p) && ChecksumOk(es)
    ensures !ChecksumOk(es')
  {
    hide Checksum;
    SumsDiffer(es, es', p, |es| * 32);
    assert ByteOf(es, 2) == es[0][2] && ByteOf(es, 3) == es[0][3] && ByteOf(es', 2) == es'[0][2] && ByteOf(es', 3) == es'[0][3];
    assert p != 2 ==> es[0][2] == es'[0][2];
    assert p != 3 ==> es[0][3] == es'[0][3];
  }

  // ---- two sets, byte by byte ----

  function Zeroed(n: nat): (z: seq<byte>)
    ensures |z| == n
  {
    seq(n, _ => 0)
  }

  /** A file "a" with the archive attribute and nothing else. */
  function PlainSet(): (es: seq<Entry>)
    ensures |es| == 3
  {
    [[0x85, 0x02, 0x66, 0x0E, 0x20] + Zeroed(27), [0xC0, 0x01, 0x00, 0x01] + Zeroed(28), [0xC1, 0x00, 0x61] + Zeroed(29)]
  }

  /** A 16-bit number rotated to the right by `k` bits. */
  function Rotated(sum: nat, k: nat): (r: nat)
    requires sum < WORD
    ensures r < WORD
  {
    if k == 0 then sum
    else
      var r := Rotated(sum, k - 1);
      r / 2 + r % 2 * 0x8000
  }

  lemma {:induction false} RotatedOn(sum: nat, a: nat, b: nat)
    requires sum < WORD
    ensures Rotated(sum, a + b) == Rotated(Rotated(sum, a), b)
  {
    if b > 0 {
      RotatedOn(sum, a, b - 1);
    }
  }

  /** Rotations by one, two, four and eight bits; sixteen give the number back. */
  lemma Turns(sum: nat)
    requires sum < WORD
    ensures Rotated(sum, 1) == sum / 2 + sum % 2 * 0x8000 && Rotated(sum, 2) == sum / 4 + sum % 4 * 0x4000
    ensures Rotated(sum, 4) == sum / 16 + sum % 16 * 0x1000 && Rotated(sum, 8) == sum / 256 + sum % 256 * 0x100
    ensures Rotated(sum, 16) == sum
  {
    QuarterTurn(sum);
    HalfTurn(sum);
    RotatedOn(sum, 8, 8);
    HalfTurn(Rotated(sum, 8));
    hide Rotated;
    assert Rotated(sum, 8) / 256 == sum % 256;
  }

  lemma QuarterTurn(sum: nat)
    requires sum < WORD
    ensures Rotated(sum, 1) == sum / 2 + sum % 2 * 0x8000 && Rotated(sum, 2) == sum / 4 + sum % 4 * 0x4000
    ensures Rotated(sum, 4) == sum / 16 + sum % 16 * 0x1000
  {
    TwoBits(sum);
    RotatedOn(sum, 2, 2);
    var t := Rotated(sum, 2);
    TwoBits(t);
    assert t / 4 == sum / 16 + sum % 4 * 0x1000;
  }

  lemma TwoBits(sum: nat)
    requires sum < WORD
    ensures Rotated(sum, 1) == sum / 2 + sum % 2 * 0x8000 && Rotated(sum, 2) == sum / 4 + sum % 4 * 0x4000
  {
    var r := Rotated(sum, 1);
    assert Rotated(sum, 0) == sum;
    assert r == sum / 2 + sum % 2 * 0x8000;
    assert r / 2 == sum / 4 + sum % 2 * 0x4000 && r % 2 == sum / 2 % 2;
    assert sum % 4 == sum % 2 + sum / 2 % 2 * 2;
  }

  lemma HalfTurn(sum: nat)
    requires sum < WORD
    ensures Rotated(sum, 8) == sum / 256 + sum % 256 * 0x100
  {
    RotatedOn(sum, 4, 4);
    QuarterTurn(sum);
    var t := Rotated(sum, 4);
    QuarterTurn(t);
    assert t / 16 == sum / 256 + sum % 16 * 0x100;
  }

  /** The rotations the plain set needs. */
  lemma LongTurns(sum: nat)
    requires sum < WORD
    ensures Rotated(sum, 27) == Rotated(Rotated(Rotated(sum, 8), 2), 1)
    ensures Rotated(sum, 28) == Rotated(Rotated(sum, 8), 4)
    ensures Rotated(sum, 29) == Rotated(Rotated(Rotated(sum, 8), 4), 1)
  {
    hide Rotated;
    Turns(sum);
    RotatedOn(sum, 16, 11);
    RotatedOn(sum, 8, 3);
    RotatedOn(Rotated(sum, 8), 2, 1);
    RotatedOn(sum, 16, 12);
    RotatedOn(sum, 8, 4);
    RotatedOn(sum, 16, 13);
    RotatedOn(sum, 8, 5);
    RotatedOn(Rotated(sum, 8), 4, 1);
  }

  /** The sums at the ends of the entries of the plain set. */
  lemma FileTurn()
    ensures Rotated(0x4042, 27) == 0x0848
  {
    hide Rotated;
    LongTurns(0x4042);
    Turns(0x4042);
    assert Rotated(0x4042, 8) == 0x4240;
    Turns(0x4240);
    assert Rotated(0x4240, 2) == 0x1090;
    Turns(0x1090);
  }

  lemma StreamTurn()
    ensures Rotated(0xC09D, 28) == 0x09DC
  {
    hide Rotated;
    LongTurns(0xC09D);
    Turns(0xC09D);
    assert Rotated(0xC09D, 8) == 0x9DC0;
    Turns(0x9DC0);
  }

  lemma NameTurn()
    ensures Rotated(0xC1CC, 29) == 0x0E66
  {
    hide Rotated;
    LongTurns(0xC1CC);
    Turns(0xC1CC);
    assert Rotated(0xC1CC, 8) == 0xCCC1;
    Turns(0xCCC1);
    assert Rotated(0xCCC1, 4) == 0x1CCC;
    Turns(0x1CCC);
  }

  /** The zeros at the end of entry `e` rotate the sum. */
  lemma {:induction false} ZeroTail(es: seq<Entry>, e: nat, j: nat, k: nat)
    requires e < |es| && j + k <= 32 && (e > 0 || j >= 4) && forall i :: j <= i < j + k ==> es[e][i] == 0
    ensures Checksum(es, 32 * e + j + k) == Rotated(Checksum(es, 32 * e + j), k)
  {
    hide Checksum, ChecksumStep;
    if k > 0 {
      ZeroTail(es, e, j, k - 1);
      ByteAdded(es, e, j + k - 1);
      StepRotates(Checksum(es, 32 * e + j + k - 1), 32 * e + j + k - 1);
    }
  }

  /** Byte `j` of entry `e` goes into the sum. */
  lemma ByteAdded(es: seq<Entry>, e: nat, j: nat)
    requires e < |es| && j < 32
    ensures Checksum(es, 32 * e + j + 1) == ChecksumStep(Checksum(es, 32 * e + j), 32 * e + j, es[e][j])
  {
    assert (32 * e + j) / 32 == e && (32 * e + j) % 32 == j;
  }

  /** The sum after the File entry, the Stream Extension and the name of the plain set. */
  lemma PlainSums()
    ensures var es := PlainSet(); Checksum(es, 32) == 0x0848 && Checksum(es, 64) == 0x09DC && Checksum(es, 96) == 0x0E66
  {
    var es := PlainSet();
    PlainFile(es);
    PlainStream(es);
    PlainName(es);
  }

  lemma PlainFile(es: seq<Entry>)
    requires es == PlainSet()
    ensures Checksum(es, 32) == 0x0848
  {
    hide Checksum, Rotated;
    Started(es);
    ByteAdded(es, 0, 0);
    ByteAdded(es, 0, 1);
    ByteAdded(es, 0, 2);
    ByteAdded(es, 0, 3);
    ByteAdded(es, 0, 4);
    assert Checksum(es, 5) == 0x4042;
    ZeroTail(es, 0, 5, 27);
    FileTurn();
  }

  lemma PlainStream(es: seq<Entry>)
    requires es == PlainSet() && Checksum(es, 32) == 0x0848
    ensures Checksum(es, 64) == 0x09DC
  {
    hide Checksum, Rotated;
    ByteAdded(es, 1, 0);
    ByteAdded(es, 1, 1);
    ByteAdded(es, 1, 2);
    ByteAdded(es, 1, 3);
    assert Checksum(es, 33) == 0x04E4;
    assert Checksum(es, 34) == 0x0273;
    assert Checksum(es, 35) == 0x8139;
    assert Checksum(es, 36) == 0xC09D;
    ZeroTail(es, 1, 4, 28);
    StreamTurn();
  }

  lemma PlainName(es: seq<Entry>)
    requires es == PlainSet() && Checksum(es, 64) == 0x09DC
    ensures Checksum(es, 96) == 0x0E66
  {
    hide Checksum, Rotated;
    ByteAdded(es, 2, 0);
    ByteAdded(es, 2, 1);
    ByteAdded(es, 2, 2);
    assert Checksum(es, 67) == 0xC1CC;
    ZeroTail(es, 2, 3, 29);
    NameTurn();
  }

  lemma Started(es: seq<Entry>)
    ensures Checksum(es, 0) == 0
  {
  }

  // ---- fields ----

  /** What a set that is accepted says, byte by byte. */
  lemma FieldsMean(es: seq<Entry>)
    requires |es| >= 2 && Parse(es).Some?
    ensures es[0][0] == 0x85 && es[1][0] == 0xC0 && es[0][2] as int + 256 * es[0][3] as int == Checksum(es, |es| * 32)
    ensures var i, s := Parse(es).value, es[1];
            && i.first == s[20] as int + 256 * s[21] as int + 65536 * s[22] as int + 16777216 * s[23] as int
            && i.size == Number(s, 24) && i.valid == Number(s, 8)
            && (i.isDir <==> es[0][4] as int / 16 % 2 == 1) && (i.contiguous <==> s[1] as int / 2 % 2 == 1)
  {
    hide Checksum, Collect, Fitting;
    assert ChecksumOk(es);
    Attribute(es[0][4], es[0][5]);
  }

  /** Eight bytes from `o` on, the lowest first. */
  function Number(e: Entry, o: nat): nat
    requires o + 8 <= 32
  {
    e[o] as int + 0x100 * e[o + 1] as int + 0x1_0000 * e[o + 2] as int + 0x100_0000 * e[o + 3] as int
    + 0x1_0000_0000 * e[o + 4] as int + 0x100_0000_0000 * e[o + 5] as int + 0x1_0000_0000_0000 * e[o + 6] as int
    + 0x100_0000_0000_0000 * e[o + 7] as int
  }

  lemma Attribute(lo: byte, hi: byte)
    ensures (lo as int + 0x100 * hi as int) / 16 % 2 == lo as int / 16 % 2
  {
    assert (lo as int + 0x100 * hi as int) / 16 == lo as int / 16 + 16 * hi as int;
  }

  /** Unit `k` of a name is in File Name entry `k / 15`, at bytes 2 + 2 * (k % 15) and the next. */
  ghost predicate NameAt(es: seq<Entry>, name: seq<byte>) {
    forall k :: 0 <= k < |name| ==>
      2 + k / 15 < |es| && es[2 + k / 15][2 + k % 15 * 2] == name[k] && es[2 + k / 15][3 + k % 15 * 2] == 0
  }

  /** A name of ASCII characters is read from there. */
  lemma AsciiNameMeans(es: seq<Entry>, name: seq<byte>)
    requires |es| >= 2 && es[1][3] as int == |name| && |name| <= NAME_MAX && NameAt(es, name)
    requires (forall k :: 0 <= k < |name| ==> name[k] < 128) && forall i :: 2 <= i < |es| ==> es[i][0] == 0xC1
    ensures ShownName(es) == name
  {
    CollectMeans(es, name, 0);
    assert name[..0] == [];
    FittingAscii(name, NAME_MAX + 1);
  }

  lemma {:induction false} CollectMeans(es: seq<Entry>, name: seq<byte>, i: nat)
    requires NameAt(es, name) && forall j :: 2 <= j < |es| ==> es[j][0] == 0xC1
    requires 15 * i < |name| + 15 && AreUnits(AsUnits(name))
    ensures Collect(es, 2 + i, |name|, AsUnits(name[..Min(15 * i, |name|)])) == AsUnits(name)
    decreases |name| + 15 - 15 * i
  {
    var got := Min(15 * i, |name|);
    if got < |name| {
      var n := Min(15, |name| - 15 * i);
      CharsAre(es, name, i, n);
      assert AsUnits(name[..15 * i]) + Chars(es[2 + i], n) == AsUnits(name[..15 * i + n]);
      if 15 * (i + 1) < |name| + 15 {
        CollectMeans(es, name, i + 1);
      }
    } else {
      assert name[..got] == name;
    }
  }

  lemma CharsAre(es: seq<Entry>, name: seq<byte>, i: nat, n: nat)
    requires NameAt(es, name) && n == Min(15, |name| - 15 * i) && n >= 1
    ensures 2 + i < |es| && Chars(es[2 + i], n) == AsUnits(name[15 * i..15 * i + n])
  {
    var part := name[15 * i..15 * i + n];
    assert (15 * i) / 15 == i && name[15 * i] == part[0];
    forall k | 0 <= k < |part|
      ensures Rd16(es[2 + i], 2 + 2 * k) == part[k]
    {
      assert (15 * i + k) / 15 == i && (15 * i + k) % 15 == k && name[15 * i + k] == part[k];
    }
  }

  function AsUnits(s: seq<byte>): (u: seq<nat>)
    ensures |u| == |s| && (forall k :: 0 <= k < |s| ==> u[k] == s[k]) && AreUnits(u)
  {
    seq(|s|, k requires 0 <= k < |s| => s[k] as nat)
  }

  lemma {:induction false} FittingAscii(name: seq<byte>, room: nat)
    requires |name| < room && forall k :: 0 <= k < |name| ==> name[k] < 128
    ensures Fitting(AsUnits(name), room) == name
  {
    if name != [] {
      assert AsUnits(name)[1..] == AsUnits(name[1..]);
      FittingAscii(name[1..], room - 1);
    }
  }

  /** The plain set is a file "a". */
  method PlainSetIsA() returns (r: Option<Info>)
    ensures r == Some(Info([0x61], 0, 0, 0, false, false))
  {
    PlainParses();
    r := ParseSet(PlainSet());
  }

  lemma PlainParses()
    ensures Parse(PlainSet()) == Some(Info([0x61], 0, 0, 0, false, false))
  {
    hide Checksum, ShownName, IsDirectory;
    var es := PlainSet();
    PlainSums();
    PlainNamed(es);
    assert ChecksumOk(es);
    FieldsMean(es);
  }

  lemma PlainNamed(es: seq<Entry>)
    requires es == PlainSet()
    ensures ShownName(es) == [0x61]
  {
    hide ShownName;
    AsciiNameMeans(es, [0x61]);
  }

  /** The name hash takes the two bytes of each unit, the low one first, by the same step, letters in upper case. */
  lemma HashIs(name: seq<nat>, c: nat)
    requires c < WORD
    ensures var u := if 0x61 <= c <= 0x7A then c - 32 else c;
            Hash(name + [c]) == ChecksumStep(ChecksumStep(Hash(name), 4, u % 256), 4, u / 256)
    ensures Hash([]) == 0
  {
    assert (name + [c])[..|name|] == name;
  }

  /** Characters of one, two and three bytes: "A", U+00E9 and U+20AC. */
  lemma KnownCharacters()
    ensures WellFormed([0x41, 0xC3, 0xA9, 0xE2, 0x82, 0xAC]) && Units([0x41, 0xC3, 0xA9, 0xE2, 0x82, 0xAC]) == [0x41, 0xE9, 0x20AC]
    ensures Encode([0x41, 0xE9, 0x20AC]) == [0x41, 0xC3, 0xA9, 0xE2, 0x82, 0xAC]
  {
    var s := [0x41 as byte, 0xC3, 0xA9, 0xE2, 0x82, 0xAC];
    assert s[1..] == [0xC3, 0xA9, 0xE2, 0x82, 0xAC] && s[1..][2..] == [0xE2, 0x82, 0xAC] && s[1..][2..][3..] == [];
    NameRoundTrip(s);
  }
}
