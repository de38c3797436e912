/** Names and paths in upper and lower case, said of their bytes. */
module ExfatCase {
  import opened Arith
  import opened Bytes
  import opened ExfatNames
  import opened ExfatEntrySet
  import opened ExfatVolume
  import opened ExfatDirectory
  import opened ExfatTree
  import opened ExfatPaths
  import opened ExfatNamespace
  import opened ExfatCreate
  import opened ExfatCommands

  /** The same byte, or the two cases of one ASCII letter. */
  predicate Twins(a: byte, b: byte) {
    a == b || (65 <= a <= 90 && b == a + 32) || (65 <= b <= 90 && a == b + 32)
  }

  /** The same bytes but for the case of ASCII letters. */
  predicate Cased(a: seq<byte>, b: seq<byte>) {
    |a| == |b| && forall i :: 0 <= i < |a| ==> Twins(a[i], b[i])
  }

  predicate NoNul(s: seq<byte>) {
    forall i :: 0 <= i < |s| ==> s[i] != 0
  }

  /** A C string ends at its first NUL. */
  lemma {:induction false} CStringIs(s: seq<byte>, rest: seq<byte>)
    requires NoNul(s)
    ensures CString(s) == s && CString(s + [0] + rest) == s
  {
    if s == [] {
      assert ([] + [0] + rest)[0] == 0;
    } else {
      CStringIs(s[1..], rest);
      assert (s + [0] + rest)[1..] == s[1..] + [0] + rest;
    }
  }

  /** Names without NUL are the same exactly if they differ in the case of ASCII letters at most. */
  lemma SameNameExactly(a: seq<byte>, b: seq<byte>)
    requires NoNul(a) && NoNul(b)
    ensures SameName(a, b) <==> Cased(a, b)
  {
    CStringIs(a, []);
    CStringIs(b, []);
  }

  /** And those that do are the same whatever bytes they have. */
  lemma {:induction false} CasedAreSame(a: seq<byte>, b: seq<byte>)
    requires Cased(a, b)
    ensures SameName(a, b) && Cased(CString(a), CString(b))
  {
    if a != [] && a[0] != 0 {
      CasedAreSame(a[1..], b[1..]);
      assert forall i :: 0 <= i < |CString(a)| ==> CString(a)[i] == (if i == 0 then a[0] else CString(a[1..])[i - 1]);
    }
  }

  // ---- names that can be given ----

  /** All bytes but control characters, quotes, bars, slashes of both kinds, colons, question marks, stars and angle
    * brackets.
    */
  predicate CanBeGiven(b: byte) {
    b >= 32 && b !in {34, 42, 47, 58, 60, 62, 63, 92, 124}
  }

  lemma {:induction false} UnitsAllowed(s: seq<byte>)
    requires WellFormed(s)
    ensures (forall i :: 0 <= i < |Units(s)| ==> !Forbidden(Units(s)[i])) <==> forall i :: 0 <= i < |s| ==> CanBeGiven(s[i])
    decreases |s|
  {
    hide Forbidden;
    if s != [] {
      var n, cp := SequenceLength(s), FrontUnit(s);
      var t := s[n..];
      UnitsAllowed(t);
      assert Units(s)[0] == cp && Units(s)[1..] == Units(t);
      FrontAllowed(s);
      AllSplit(s, n);
      assert (forall i :: 0 <= i < |Units(s)| ==> !Forbidden(Units(s)[i])) <==>
             !Forbidden(cp) && forall i :: 0 <= i < |Units(t)| ==> !Forbidden(Units(t)[i]) by {
        assert forall i :: 0 <= i < |Units(t)| ==> Units(s)[i + 1] == Units(t)[i];
        assert forall i :: 1 <= i < |Units(s)| ==> Units(s)[i] == Units(t)[i - 1];
      }
    }
  }

  lemma FrontAllowed(s: seq<byte>)
    requires SequenceLength(s) > 0
    ensures !Forbidden(FrontUnit(s)) <==> forall i :: 0 <= i < SequenceLength(s) ==> CanBeGiven(s[i])
  {
    var n := SequenceLength(s);
    assert n == 1 ==> FrontUnit(s) == s[0];
    assert n > 1 ==> FrontUnit(s) >= 0x80 && forall i :: 0 <= i < n ==> s[i] >= 0x80;
  }

  lemma AllSplit(s: seq<byte>, n: nat)
    requires n <= |s|
    ensures (forall i :: 0 <= i < |s| ==> CanBeGiven(s[i])) <==>
            (forall i :: 0 <= i < n ==> CanBeGiven(s[i])) && forall i :: 0 <= i < |s[n..]| ==> CanBeGiven(s[n..][i])
  {
    hide CanBeGiven;
    assert forall i :: n <= i < |s| ==> s[i] == s[n..][i - n];
  }

  /** A well-formed name can be given if and only if it has 1 to 255 bytes and all of them can be. */
  lemma NameOkExactly(base: seq<byte>)
    requires WellFormed(base)
    ensures NameOk(base) <==> 1 <= |base| <= 255 && forall i :: 0 <= i < |base| ==> CanBeGiven(base[i])
  {
    hide Forbidden;
    UnitsAllowed(base);
  }

  // ---- paths ----

  lemma {:induction false} PieceCased(p: seq<byte>, q: seq<byte>, i: nat)
    requires Cased(p, q) && i <= |p| && i <= NAME_MAX
    ensures PieceFrom(p, i) == PieceFrom(q, i)
    decreases |p| - i
  {
    if !(i == |p| || i == NAME_MAX || p[i] == SLASH) {
      PieceCased(p, q, i + 1);
    }
  }

  /** The components of such paths differ in that at most. */
  lemma {:induction false} SplitCased(p: seq<byte>, q: seq<byte>)
    requires Cased(p, q)
    ensures |Split(p)| == |Split(q)| && forall i :: 0 <= i < |Split(p)| ==> Cased(Split(p)[i], Split(q)[i])
    decreases |p|
  {
    if p != [] {
      if p[0] == SLASH {
        SplitCased(p[1..], q[1..]);
      } else {
        PieceCased(p, q, 0);
        var n := PieceLength(p);
        SplitCased(p[n..], q[n..]);
        assert Cased(p[..n], q[..n]);
      }
    }
  }

  /** Paths that differ only in the case of ASCII letters name the same, or nothing. */
  lemma WalkEitherCase(t: Tree, p: seq<byte>, q: seq<byte>)
    requires t.root in t.lists && Cased(p, q)
    ensures Split(p) == [] <==> Split(q) == []
    ensures Split(p) != [] ==> Walk(t, t.root, Split(p)) == Walk(t, t.root, Split(q))
  {
    hide SameName, Split;
    SplitCased(p, q);
    var a, b := Split(p), Split(q);
    forall i | 0 <= i < |a|
      ensures SameName(a[i], b[i])
    {
      CasedAreSame(a[i], b[i]);
    }
    if a != [] {
      WalkCased(t, t.root, a, b);
    }
  }

  /** So does the resolver: both are found, at the same place, or neither is. */
  method ResolveEitherCase(v: Volume, root: nat, p: seq<byte>, q: seq<byte>, ghost t: Tree, ghost fixed: set<nat>, ghost leaked: set<nat>)
    returns (r1: int, w1: Where, r2: int, w2: Where)
    requires FsOk(v, t, fixed, leaked) && root == t.root && Cased(p, q)
    modifies v`fatCache, v`fatCacheLba, v`fatCacheValid
    ensures FsOk(v, t, fixed, leaked) && r1 == r2 && (r1 == 1 ==> w1 == w2)
  {
    hide Split, Walk, Held, Accounted, TreeOk, Matches, WhereOf;
    r1, w1 := Resolve(v, root, p, t, fixed, leaked);
    WalkEitherCase(t, p, q);
    r2, w2 := Resolve(v, root, q, t, fixed, leaked);
  }

  /** Nothing can be created under a name that exists in another case. */
  lemma NoneBeside(t: Tree, p: seq<byte>, q: seq<byte>)
    requires t.root in t.lists && Cased(p, q) && WellFormed(Base(q)) && Split(p) != [] && Walk(t, t.root, Split(p)).Some?
    ensures !Creatable(t, q)
  {
    hide Split, Walk, Base;
    WalkEitherCase(t, p, q);
  }

  /** No directory of a file system holds two names that differ only in the case of ASCII letters. */
  lemma NoTwoCases(t: Tree, cb: nat, d: nat, i: nat, j: nat)
    requires cb >= 1 && TreeOk(t, cb) && d in t.dirs && i < |t.lists[d]| && j < |t.lists[d]| && i != j
    ensures !Cased(t.lists[d][i].info.name, t.lists[d][j].info.name)
  {
    hide SameName, LeadsToRoot, HomeOk, EntryOk;
    assert NamesApart(t.lists[d]);
    if Cased(t.lists[d][i].info.name, t.lists[d][j].info.name) {
      CasedAreSame(t.lists[d][i].info.name, t.lists[d][j].info.name);
    }
  }
}
