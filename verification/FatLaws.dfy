/** FAT32 names and entries, said of their bytes. */
module FatLaws {
  import opened Arith
  import opened Bytes
  import opened ExfatNames
  import opened ExfatEntrySet
  import opened ExfatCase
  import opened FatTable
  import opened FatClusters
  import opened FatChains
  import opened FatNames
  import opened FatSlots
  import opened FatDirectory
  import opened FatDirOps
  import opened FatDirMap

  // ---- case ----

  /** Names are the same in a directory exactly if they differ in the case of ASCII letters at most. */
  lemma SameLowerExactly(a: seq<byte>, b: seq<byte>)
    ensures SameLower(a, b) <==> Cased(a, b)
  {
    if SameLower(a, b) {
      forall i | 0 <= i < |a|
        ensures Twins(a[i], b[i])
      {
        assert LowerAll(a)[i] == LowerAll(b)[i];
      }
    }
  }

  /** Names are listed and looked up in lower case: each upper-case letter as the other, all else as it is. */
  lemma LowerIs(s: seq<byte>, i: nat)
    requires i < |s|
    ensures LowerAll(s)[i] as int == if 65 <= s[i] <= 90 then s[i] as int + 32 else s[i] as int
  {
  }

  lemma {:induction false} FoundEitherCase(l: seq<Placed>, a: seq<byte>, b: seq<byte>)
    requires Cased(a, b)
    ensures FirstPlaced(l, a) == FirstPlaced(l, b)
  {
    SameLowerExactly(a, b);
    if l != [] {
      FoundEitherCase(l[1..], a, b);
    }
  }

  /** Every command does the same whatever case its name is in: it finds, deletes, changes or moves the same entry, or
    * makes none beside it.
    */
  lemma CommandsEitherCase(s: DirState, limit: nat, a: seq<byte>, b: seq<byte>, size: nat, first: nat)
    requires InData(s.data, s.cl) && Cased(a, b)
    ensures Result(s, limit, Look(a)) == Result(s, limit, Look(b)) && Result(s, limit, Delete(a)) == Result(s, limit, Delete(b))
    ensures Result(s, limit, Change(a, size, first)) == Result(s, limit, Change(b, size, first))
    ensures forall attr :: Result(s, limit, Make(a, attr, first, size)) == Exists <==> Result(s, limit, Make(b, attr, first, size)) == Exists
    ensures forall to :: Result(s, limit, Move(a, to)) == Missing <==> Result(s, limit, Move(b, to)) == Missing
  {
    hide LowerAll, MapOf, DirList, NoRoom, NoRoomWithout, NoneFree, SlotsNeeded, FirstPlaced;
    SameLowerExactly(a, b);
    FoundEitherCase(DirList(s.data, s.cl), a, b);
  }

  /** A directory that is a map lists no two names that differ only in the case of ASCII letters. */
  lemma NoTwoCases(l: seq<Placed>, i: nat, j: nat)
    requires Unique(l) && i < |l| && j < |l| && i != j
    ensures !Cased(l[i].item.name, l[j].item.name)
  {
    SameLowerExactly(l[i].item.name, l[j].item.name);
    assert KeyOf(l[if i < j then i else j]) != KeyOf(l[if i < j then j else i]);
  }

  // ---- 8.3 entries ----

  predicate Dotless(s: seq<byte>) {
    forall i :: 0 <= i < |s| ==> s[i] != 0x2E
  }

  /** A name is stored in upper case, the part before the dot in bytes 0 to 7 and the extension in 8 to 10, each
    * filled up with blanks.
    */
  lemma ShortFormIs(base: seq<byte>, ext: seq<byte>, i: nat)
    requires 1 <= |base| <= 8 && |ext| <= 3 && Dotless(base) && Dotless(ext) && i < 11
    ensures var part, k := if i < 8 then base else ext, if i < 8 then i else i - 8;
            Encode83(base + [0x2E] + ext)[i] as int ==
            if k >= |part| then 32 else if 97 <= part[k] <= 122 then part[k] as int - 32 else part[k] as int
  {
    var name := base + [0x2E] + ext;
    LastDotIs(name, |base|);
    hide LastDot, Field;
    assert name[..|base|] == base && name[|base| + 1..] == ext;
    FieldIs(base, 8, if i < 8 then i else 0);
    FieldIs(ext, 3, if i < 8 then 0 else i - 8);
    assert Encode83(name) == Field(base, 8) + Field(ext, 3);
  }

  lemma FieldIs(s: seq<byte>, n: nat, k: nat)
    requires k < n
    ensures |Field(s, n)| == n
    ensures Field(s, n)[k] as int == if k >= |s| then 32 else if 97 <= s[k] <= 122 then s[k] as int - 32 else s[k] as int
  {
  }

  lemma {:induction false} LastDotIs(s: seq<byte>, d: nat)
    requires d < |s| && s[d] == 0x2E && forall i :: d < i < |s| ==> s[i] != 0x2E
    ensures LastDot(s) == d
  {
  }

  /** What the part before the dot and the extension of an 8.3 name are made of. */
  predicate ShortPart(s: seq<byte>) {
    forall i :: 0 <= i < |s| ==> s[i] !in {32, 43, 44, 46, 59, 61, 91, 93} && !(97 <= s[i] <= 122)
  }

  predicate IsShort(name: seq<byte>, base: seq<byte>, ext: seq<byte>) {
    1 <= |base| <= 8 && |ext| <= 3 && ShortPart(base) && ShortPart(ext) && (name == base || name == base + [0x2E] + ext)
  }

  /** A name gets no long-name slots if and only if it has 1 to 8 characters, or so many, a dot and up to 3
    * more, none of them a small letter or one of the seven that 8.3 names do not have.
    */
  lemma ShortExactly(name: seq<byte>)
    ensures !NeedsLfn(name) <==> exists base, ext :: IsShort(name, base, ext)
  {
    if !NeedsLfn(name) {
      ShortParts(name);
    }
    if exists base, ext :: IsShort(name, base, ext) {
      var base, ext :| IsShort(name, base, ext);
      PartsShort(name, base, ext);
    }
  }

  lemma ShortParts(name: seq<byte>)
    requires !NeedsLfn(name)
    ensures exists base, ext :: IsShort(name, base, ext)
  {
    hide CountDots, LastDot;
    var d := LastDot(name);
    if d == |name| {
      assert name[..d] == name && IsShort(name, name[..d], []);
    } else {
      OneDot(name, d);
      assert name == name[..d] + [0x2E] + name[d + 1..];
      assert IsShort(name, name[..d], name[d + 1..]);
    }
  }

  lemma PartsShort(name: seq<byte>, base: seq<byte>, ext: seq<byte>)
    requires IsShort(name, base, ext)
    ensures !NeedsLfn(name)
  {
    hide CountDots, LastDot;
    assert name[0] == base[0];
    FewDots(name, |base|);
    if name != base {
      LastDotIs(name, |base|);
      assert name[..|base|] == base && name[|base| + 1..] == ext;
    }
  }

  /** Each dot is counted. */
  lemma {:induction false} DotCounted(s: seq<byte>, i: nat)
    requires i < |s| && s[i] == 0x2E
    ensures CountDots(s) >= 1
  {
    if i < |s| - 1 {
      DotCounted(s[..|s| - 1], i);
    }
  }

  lemma {:induction false} OneDot(s: seq<byte>, d: nat)
    requires d < |s| && s[d] == 0x2E && CountDots(s) <= 1
    ensures forall i :: 0 <= i < |s| && i != d ==> s[i] != 0x2E
  {
    var n := |s| - 1;
    if d < n {
      DotCounted(s[..n], d);
      OneDot(s[..n], d);
    } else {
      forall i | 0 <= i < n
        ensures s[i] != 0x2E
      {
        if s[i] == 0x2E {
          DotCounted(s[..n], i);
        }
      }
    }
  }

  lemma {:induction false} FewDots(s: seq<byte>, d: nat)
    requires forall i :: 0 <= i < |s| && i != d ==> s[i] != 0x2E
    ensures CountDots(s) <= (if d < |s| then 1 else 0)
  {
    if s != [] {
      FewDots(s[..|s| - 1], d);
    }
  }

  /** The fields of an entry: attributes at byte 11, the first cluster at bytes 26, 27, 20 and 21, the lowest first,
    * and the size at bytes 28 to 31.
    */
  lemma EntryFields(n83: seq<byte>, first: nat, size: nat, attr: byte)
    requires |n83| == 11 && first < 0x1_0000_0000 && size < 0x1_0000_0000
    ensures var e := ShortEntry(n83, first, size, attr);
            && e[11] == attr && (forall i :: 0 <= i < 11 ==> e[i] == n83[i])
            && first == e[26] as int + 256 * e[27] as int + 65536 * e[20] as int + 16777216 * e[21] as int
            && size == e[28] as int + 256 * e[29] as int + 65536 * e[30] as int + 16777216 * e[31] as int
  {
    ShortEntryFields(n83, first, size, attr);
    var e := ShortEntry(n83, first, size, attr);
    FieldsRead(e);
    forall i | 0 <= i < 11
      ensures e[i] == n83[i]
    {
      assert e[i] == e[..11][i];
    }
  }

  /** They are read from the same bytes. */
  lemma FieldsRead(e: Entry)
    ensures FirstCluster(e) == e[26] as int + 256 * e[27] as int + 65536 * e[20] as int + 16777216 * e[21] as int
    ensures FileSize(e) == e[28] as int + 256 * e[29] as int + 65536 * e[30] as int + 16777216 * e[31] as int
  {
  }
}
