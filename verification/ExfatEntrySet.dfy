/** Directory entry sets: a File entry, a Stream Extension and File Name entries, bound
  * together by a checksum (sections 6.3.3, 7.4, 7.6 and 7.7 of the exFAT specification).
  */
module ExfatEntrySet {
  import opened Arith
  import opened Bytes
  import opened ExfatNames

  const ENTRY_BYTES: nat := 32
  const MAX_SECONDARY: nat := 18
  const NAME_MAX: nat := 255

  const TYPE_EOD: byte := 0x00
  const TYPE_FILE: byte := 0x85
  const TYPE_STREAM: byte := 0xC0
  const TYPE_NAME: byte := 0xC1

  const ATTR_DIRECTORY: nat := 0x10
  const ATTR_ARCHIVE: nat := 0x20
  const FLAG_NOFATCHAIN: nat := 0x02

  type Entry = e: seq<byte> | |e| == 32 witness seq(32, _ => 0)

  function ZeroEntry(): (e: Entry)
    ensures forall i :: 0 <= i < 32 ==> e[i] == 0
  {
    seq(32, _ => 0)
  }

  /** What a parsed set says about a file. */
  datatype Info = Info(name: seq<byte>, first: nat, size: nat, valid: nat, isDir: bool, contiguous: bool)

  datatype Option<T> = None | Some(value: T)

  /** An entry with the bytes `b` stored at `o`. */
  function PutEntry(e: Entry, o: nat, b: seq<byte>): Entry
    requires o + |b| <= 32
  {
    Put(e, o, b)
  }

  // ---- checksum ----

  /** Rotate right and add one byte, except the two bytes of the checksum itself. */
  function ChecksumStep(sum: nat, i: nat, b: byte): (r: nat)
    requires sum < 0x1_0000
    ensures r < 0x1_0000
  {
    if i == 2 || i == 3 then sum
    else ((if sum % 2 == 1 then 0x8000 else 0) + sum / 2 + b) % 0x1_0000
  }

  function Checksum(es: seq<Entry>, n: nat): (r: nat)
    requires n <= |es| * 32
    ensures r < 0x1_0000
  {
    if n == 0 then 0 else ChecksumStep(Checksum(es, n - 1), n - 1, es[(n - 1) / 32][(n - 1) % 32])
  }

  method EntrySetChecksum(es: seq<Entry>) returns (sum: nat)
    ensures sum == Checksum(es, |es| * 32)
  {
    sum := 0;
    for i := 0 to |es| * 32
      invariant sum == Checksum(es, i)
    {
      if i == 2 || i == 3 {
        continue;
      }
      sum := ((if sum % 2 == 1 then 0x8000 else 0) + sum / 2 + es[i / 32][i % 32]) % 0x1_0000;
    }
  }

  /** The set with the checksum field of its File entry filled in. */
  function WithChecksum(es: seq<Entry>, sum: nat): (r: seq<Entry>)
    requires es != []
    ensures |r| == |es| && r[1..] == es[1..]
    ensures r[0] == Put(es[0], 2, Le16(sum))
  {
    [PutEntry(es[0], 2, Le16(sum))] + es[1..]
  }

  /** Filling in the checksum does not change the checksum. */
  lemma {:induction false} ChecksumIgnoresItself(es: seq<Entry>, sum: nat, n: nat)
    requires es != [] && n <= |es| * 32
    ensures Checksum(WithChecksum(es, sum), n) == Checksum(es, n)
  {
    if n > 0 {
      ChecksumIgnoresItself(es, sum, n - 1);
      var r := WithChecksum(es, sum);
      if (n - 1) / 32 > 0 {
        assert r[(n - 1) / 32] == r[1..][(n - 1) / 32 - 1] == es[1..][(n - 1) / 32 - 1];
      }
    }
  }

  predicate ChecksumOk(es: seq<Entry>) {
    es != [] && Rd16(es[0], 2) == Checksum(es, |es| * 32)
  }

  lemma ChecksumFilled(es: seq<Entry>)
    requires es != []
    ensures ChecksumOk(WithChecksum(es, Checksum(es, |es| * 32)))
  {
    var sum := Checksum(es, |es| * 32);
    ChecksumIgnoresItself(es, sum, |es| * 32);
    Rd16Put(es[0], 2, sum);
  }

  // ---- names ----

  /** The first `n` code units of a File Name entry. */
  function Chars(e: Entry, n: nat): (u: seq<nat>)
    requires n <= 15
    ensures |u| == n && AreUnits(u)
  {
    seq(n, k requires 0 <= k < n => Rd16(e, 2 + 2 * k))
  }

  /** Name units collected from entry `idx` on, until `namelen` of them are found. */
  function Collect(es: seq<Entry>, idx: nat, namelen: nat, got: seq<nat>): (u: seq<nat>)
    requires AreUnits(got)
    ensures AreUnits(u)
    decreases |es| - idx
  {
    if idx >= |es| || |got| >= namelen then got
    else if es[idx][0] != TYPE_NAME then Collect(es, idx + 1, namelen, got)
    else Collect(es, idx + 1, namelen, got + Chars(es[idx], Min(15, namelen - |got|)))
  }

  function NameEntries(namelen: nat): nat {
    (namelen + 14) / 15
  }

  /** Name units as little-endian bytes. */
  function UnitBytes(u: seq<nat>): (b: seq<byte>)
    ensures |b| == 2 * |u|
  {
    seq(2 * |u|, j requires 0 <= j < 2 * |u| => Le16(u[j / 2])[j % 2])
  }

  /** File Name entry number `i` of a name. */
  function NameEntry(name: seq<nat>, i: nat): (e: Entry)
    requires i < NameEntries(|name|)
    ensures e[0] == TYPE_NAME
  {
    Put(Put(ZeroEntry(), 0, [TYPE_NAME]), 2, UnitBytes(name[15 * i..Min(15 * i + 15, |name|)]))
  }

  lemma UnitBytesAt(u: seq<nat>, k: nat)
    requires AreUnits(u) && k < |u|
    ensures UnitBytes(u)[2 * k] as int + 0x100 * UnitBytes(u)[2 * k + 1] as int == u[k]
  {
    assert UnitBytes(u)[2 * k] == Le16(u[k])[0];
    assert UnitBytes(u)[2 * k + 1] == Le16(u[k])[1];
  }

  lemma NameEntryChars(name: seq<nat>, i: nat, n: nat)
    requires AreUnits(name) && i < NameEntries(|name|) && n == Min(15, |name| - 15 * i)
    ensures Chars(NameEntry(name, i), n) == name[15 * i..15 * i + n]
  {
    hide UnitBytes;
    var part := name[15 * i..15 * i + n];
    var e := NameEntry(name, i);
    forall k | 0 <= k < n
      ensures Rd16(e, 2 + 2 * k) == part[k]
    {
      UnitBytesAt(part, k);
    }
  }

  /** The File Name entries of a set spell `name`. */
  predicate Spells(es: seq<Entry>, name: seq<nat>) {
    && |es| == 2 + NameEntries(|name|)
    && forall i :: 0 <= i < NameEntries(|name|) ==> es[2 + i] == NameEntry(name, i)
  }

  lemma {:induction false} CollectSpells(es: seq<Entry>, name: seq<nat>, i: nat)
    requires AreUnits(name) && Spells(es, name) && i <= NameEntries(|name|)
    ensures Collect(es, 2 + i, |name|, name[..Min(15 * i, |name|)]) == name
    decreases |es| - i
  {
    if i < NameEntries(|name|) {
      var n := Min(15, |name| - 15 * i);
      NameEntryChars(name, i, n);
      assert name[..15 * i] + name[15 * i..15 * i + n] == name[..Min(15 * (i + 1), |name|)];
      CollectSpells(es, name, i + 1);
    } else {
      assert name[..|name|] == name;
    }
  }

  // ---- parsing ----

  /** What `dir_next_file` makes of a complete set. */
  function Parse(es: seq<Entry>): Option<Info>
    requires |es| >= 2
  {
    if es[0][0] != TYPE_FILE || !ChecksumOk(es) || es[1][0] != TYPE_STREAM then None
    else Some(Info(ShownName(es), Rd32(es[1], 20), Rd64(es[1], 24), Rd64(es[1], 8), IsDirectory(es[0]), IsContiguous(es[1])))
  }

  predicate IsDirectory(file: Entry) {
    Rd16(file, 4) / ATTR_DIRECTORY % 2 == 1
  }

  predicate IsContiguous(stream: Entry) {
    stream[1] as nat / FLAG_NOFATCHAIN % 2 == 1
  }

  /** The name as the caller sees it, cut to the name buffer. */
  function ShownName(es: seq<Entry>): seq<byte>
    requires |es| >= 2
  {
    Fitting(Collect(es, 2, es[1][3], []), NAME_MAX + 1)
  }

  /** Parse a set, entry by entry and unit by unit. */
  method ParseSet(es: seq<Entry>) returns (r: Option<Info>)
    requires |es| >= 2
    ensures r == Parse(es)
  {
    if es[0][0] != TYPE_FILE {
      return None;
    }
    var sum := EntrySetChecksum(es);
    if sum != Rd16(es[0], 2) || es[1][0] != TYPE_STREAM {
      return None;
    }
    var stream := es[1];
    var namelen := stream[3];
    var units: seq<nat> := [];
    var idx := 2;
    while idx < |es| && |units| < namelen
      invariant 2 <= idx <= |es| && AreUnits(units)
      invariant Collect(es, idx, namelen, units) == Collect(es, 2, namelen, [])
    {
      if es[idx][0] == TYPE_NAME {
        var k := 0;
        ghost var got := units;
        while k < 15 && |units| < namelen
          invariant k <= 15 && k <= namelen as int - |got|
          invariant units == got + Chars(es[idx], k) && AreUnits(units)
        {
          units := units + [Rd16(es[idx], 2 + k * 2)];
          k := k + 1;
        }
      }
      idx := idx + 1;
    }
    var name := Utf16ToUtf8(units, NAME_MAX + 1);
    r := Some(Info(name, Rd32(stream, 20), Rd64(stream, 24), Rd64(stream, 8), IsDirectory(es[0]), IsContiguous(stream)));
  }

  // ---- building ----

  /** Up-case an ASCII unit, for the name hash. */
  function UpcaseAscii(c: nat): nat {
    if 0x61 <= c <= 0x7A then c - 0x20 else c
  }

  function HashStep(hash: nat, b: nat): nat {
    ((if hash % 2 == 1 then 0x8000 else 0) + hash / 2 + b) % 0x1_0000
  }

  function Hash(name: seq<nat>): (h: nat)
    ensures h < 0x1_0000
  {
    if name == [] then 0
    else
      HashStep(HashStep(Hash(name[..|name| - 1]), UpcaseAscii(name[|name| - 1]) % 0x100), UpcaseAscii(name[|name| - 1]) / 0x100)
  }

  method NameHash(name: seq<nat>) returns (hash: nat)
    ensures hash == Hash(name)
  {
    hash := 0;
    for i := 0 to |name|
      invariant hash == Hash(name[..i])
    {
      var u := UpcaseAscii(name[i]);
      hash := HashStep(hash, u % 0x100);
      hash := HashStep(hash, u / 0x100);
      assert name[..i + 1][..i] == name[..i];
    }
    assert name[..|name|] == name;
  }

  /** File Name entry number `i`, filled unit by unit. */
  method BuildNameEntry(name: seq<nat>, i: nat) returns (e: Entry)
    requires AreUnits(name) && i < NameEntries(|name|)
    ensures e == NameEntry(name, i)
  {
    hide NameEntry, UnitBytes;
    e := PutEntry(ZeroEntry(), 0, [TYPE_NAME]);
    ghost var n := Min(15, |name| - 15 * i);
    ghost var part := name[15 * i..15 * i + n];
    var k := 0;
    while k < 15 && 15 * i + k < |name|
      invariant k <= n
      invariant forall j :: 0 <= j < 32 ==>
                  e[j] == if j == 0 then TYPE_NAME else if 2 <= j < 2 + 2 * k then UnitBytes(part)[j - 2] else 0
    {
      UnitBytesAt(part, k);
      var ch := name[15 * i + k];
      e := PutEntry(e, 2 + k * 2, Le16(ch));
      k := k + 1;
    }
    assert e == NameEntry(name, i) by { NameEntryBytes(name, i, e, n); }
  }

  lemma NameEntryBytes(name: seq<nat>, i: nat, e: Entry, n: nat)
    requires AreUnits(name) && i < NameEntries(|name|) && n == Min(15, |name| - 15 * i)
    requires forall j :: 0 <= j < 32 ==>
               e[j] == if j == 0 then TYPE_NAME
                       else if 2 <= j < 2 + 2 * n then UnitBytes(name[15 * i..15 * i + n])[j - 2] else 0
    ensures e == NameEntry(name, i)
  {
  }

  /** The set for a File entry and Stream Extension that already carry their fields:
    * SecondaryCount, NameLength and NameHash are filled in, the File Name entries are laid
    * down and the checksum closes the set.
    */
  method BuildSet(file: Entry, stream: Entry, name: seq<nat>) returns (es: seq<Entry>)
    requires AreUnits(name) && 0 < |name| <= NAME_MAX
    ensures Spells(es, name) && ChecksumOk(es)
    ensures es[0][0] == file[0] && es[0][1] as int == |es| - 1
    ensures forall j :: 4 <= j < 32 ==> es[0][j] == file[j]
    ensures es[1][3] as int == |name|
    ensures forall j :: 0 <= j < 32 && !(3 <= j <= 5) ==> es[1][j] == stream[j]
  {
    hide NameEntry, Checksum;
    var nameEntries := NameEntries(|name|);
    var hash := NameHash(name);
    var fe := PutEntry(file, 1, [1 + nameEntries]);
    var se := PutEntry(PutEntry(stream, 3, [|name|]), 4, Le16(hash));
    es := [fe, se];
    for i := 0 to nameEntries
      invariant |es| == 2 + i && es[0] == fe && es[1] == se
      invariant forall j :: 0 <= j < i ==> es[2 + j] == NameEntry(name, j)
    {
      var ne := BuildNameEntry(name, i);
      es := es + [ne];
    }
    var sum := EntrySetChecksum(es);
    ChecksumFilled(es);
    ghost var plain := es;
    es := WithChecksum(es, sum);
    assert es[1] == es[1..][0] == plain[1..][0];
    forall x | 2 <= x < |es|
      ensures es[x] == plain[x]
    {
      assert es[x] == es[1..][x - 1] == plain[1..][x - 1];
    }
  }

  /** A built set is parsed back with the same name and the fields it was given. */
  lemma BuiltSetParses(es: seq<Entry>, name: seq<nat>)
    requires AreUnits(name) && 0 < |name| <= NAME_MAX
    requires Spells(es, name) && ChecksumOk(es) && es[0][0] == TYPE_FILE && es[1][0] == TYPE_STREAM
    requires es[1][3] as int == |name|
    ensures Parse(es) == Some(Info(Fitting(name, NAME_MAX + 1), Rd32(es[1], 20), Rd64(es[1], 24), Rd64(es[1], 8),
                                   IsDirectory(es[0]), IsContiguous(es[1])))
  {
    hide Checksum, Fitting;
    CollectSpells(es, name, 0);
    assert name[..0] == [];
  }

  /** A well-formed name of at most 255 bytes comes back byte for byte. */
  lemma NameComesBack(s: seq<byte>)
    requires WellFormed(s) && |s| <= NAME_MAX
    ensures Fitting(Units(s), NAME_MAX + 1) == s
  {
    NameRoundTrip(s);
    FittingAll(Units(s), NAME_MAX + 1);
  }

  // ---- changing the fields of a set ----

  /** The flags byte with NoFatChain set or cleared. */
  function WithFlag(b: byte, on: bool): (r: byte)
    ensures (r as nat / FLAG_NOFATCHAIN % 2 == 1) == on
  {
    if (b as nat / FLAG_NOFATCHAIN % 2 == 1) == on then b else if on then b + 2 else b - 2
  }

  function PatchedStream(stream: Entry, first: nat, size: nat, valid: nat, contiguous: bool): Entry {
    PutEntry(PutEntry(PutEntry(PutEntry(stream, 1, [WithFlag(stream[1], contiguous)]),
                               8, Le64(valid)), 20, Le32(first)), 24, Le64(size))
  }

  /** A set with new allocation fields and the checksum that goes with them. */
  function Patched(s: seq<Entry>, first: nat, size: nat, valid: nat, contiguous: bool): seq<Entry>
    requires |s| >= 2
  {
    Closed([s[0], PatchedStream(s[1], first, size, valid, contiguous)] + s[2..])
  }

  /** A set with its checksum filled in. */
  function Closed(s: seq<Entry>): seq<Entry>
    requires s != []
  {
    WithChecksum(s, Checksum(s, |s| * 32))
  }

  lemma PatchedIs(s: seq<Entry>, plain: seq<Entry>, first: nat, size: nat, valid: nat, contiguous: bool)
    requires |plain| == |s| >= 2 && plain[0] == s[0] && plain[2..] == s[2..]
    requires plain[1] == PatchedStream(s[1], first, size, valid, contiguous)
    ensures Patched(s, first, size, valid, contiguous) ==
            [PutEntry(s[0], 2, Le16(Checksum(plain, |plain| * 32))), plain[1]] + s[2..]
  {
    hide Checksum;
    assert plain == [s[0], plain[1]] + s[2..];
    assert plain[1..] == [plain[1]] + s[2..];
  }

  lemma {:induction false} CollectFromSame(s: seq<Entry>, t: seq<Entry>, idx: nat, namelen: nat, got: seq<nat>)
    requires |s| == |t| && idx >= 2 && AreUnits(got) && forall i :: 2 <= i < |s| ==> s[i] == t[i]
    ensures Collect(s, idx, namelen, got) == Collect(t, idx, namelen, got)
    decreases |s| - idx
  {
    if idx < |s| && |got| < namelen {
      if s[idx][0] != TYPE_NAME {
        CollectFromSame(s, t, idx + 1, namelen, got);
      } else {
        CollectFromSame(s, t, idx + 1, namelen, got + Chars(s[idx], Min(15, namelen - |got|)));
      }
    }
  }

  lemma PatchedStreamFields(stream: Entry, first: nat, size: nat, valid: nat, contiguous: bool)
    requires first < 0x1_0000_0000 && size < 0x1_0000_0000_0000_0000 && valid < 0x1_0000_0000_0000_0000
    ensures var t := PatchedStream(stream, first, size, valid, contiguous);
            && t[0] == stream[0] && t[3] == stream[3]
            && Rd32(t, 20) == first && Rd64(t, 24) == size && Rd64(t, 8) == valid && IsContiguous(t) == contiguous
  {
    hide Rd32, Rd64, Le32, Le64;
    var a := PutEntry(stream, 1, [WithFlag(stream[1], contiguous)]);
    var b := PutEntry(a, 8, Le64(valid));
    var c := PutEntry(b, 20, Le32(first));
    var t := PutEntry(c, 24, Le64(size));
    Rd64Put(a, 8, valid);
    Rd32Put(b, 20, first);
    Rd64Put(c, 24, size);
    SameField64(b, t, 8);
    SameField32(c, t, 20);
  }

  lemma SameField32(e: Entry, t: Entry, o: nat)
    requires o + 4 <= 32 && forall i :: o <= i < o + 4 ==> e[i] == t[i]
    ensures Rd32(e, o) == Rd32(t, o)
  {
  }

  lemma SameField64(e: Entry, t: Entry, o: nat)
    requires o + 8 <= 32 && forall i :: o <= i < o + 8 ==> e[i] == t[i]
    ensures Rd64(e, o) == Rd64(t, o)
  {
    SameField32(e, t, o);
    SameField32(e, t, o + 4);
  }

  /** A set with new allocation fields parses to the same name with those fields. */
  lemma PatchedParses(s: seq<Entry>, first: nat, size: nat, valid: nat, contiguous: bool)
    requires |s| >= 2 && Parse(s).Some?
    requires first < 0x1_0000_0000 && size < 0x1_0000_0000_0000_0000 && valid < 0x1_0000_0000_0000_0000
    ensures var t := Patched(s, first, size, valid, contiguous);
            && |t| == |s| && t[2..] == s[2..] && t[0][0] == s[0][0] && t[0][1] == s[0][1] && t[1][0] == s[1][0]
            && Parse(t) == Some(Parse(s).value.(first := first, size := size, valid := valid, contiguous := contiguous))
  {
    hide Checksum, Fitting, Collect, PatchedStream;
    var plain := [s[0], PatchedStream(s[1], first, size, valid, contiguous)] + s[2..];
    var t := Patched(s, first, size, valid, contiguous);
    ChecksumFilled(plain);
    PatchedStreamFields(s[1], first, size, valid, contiguous);
    assert t[1] == plain[1..][0] && t[2..] == plain[1..][1..];
    forall i | 2 <= i < |s|
      ensures s[i] == t[i]
    {
      assert t[i] == t[2..][i - 2] == s[2..][i - 2];
    }
    CollectFromSame(s, t, 2, s[1][3], []);
  }
}
