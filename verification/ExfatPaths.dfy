/** Path strings: the components the resolver sees in one, and the parent and base name that the
  * operations which add an entry take from it, with the limits of their buffers.
  */
module ExfatPaths {
  import opened Arith
  import opened Bytes
  import opened ExfatEntrySet

  const SLASH: byte := 0x2F

  /** Bytes of a buffer for the path of a parent, its terminator included. */
  const PARENT_MAX: nat := 260

  // ---- components ----

  /** The bytes up to the next slash, at most as many as a name has. */
  function PieceLength(p: seq<byte>): (n: nat)
    ensures n <= |p| && n <= NAME_MAX && (p != [] && p[0] != SLASH ==> n >= 1)
  {
    PieceFrom(p, 0)
  }

  function PieceFrom(p: seq<byte>, i: nat): (n: nat)
    requires i <= |p| && i <= NAME_MAX
    ensures i <= n <= |p| && n <= NAME_MAX && (forall j :: i <= j < n ==> p[j] != SLASH)
    ensures n == |p| || n == NAME_MAX || p[n] == SLASH
    decreases |p| - i
  {
    if i == |p| || i == NAME_MAX || p[i] == SLASH then i else PieceFrom(p, i + 1)
  }

  /** The components of a path. A longer one counts as several. */
  function Split(p: seq<byte>): seq<seq<byte>> {
    if p == [] then []
    else if p[0] == SLASH then Split(p[1..])
    else [p[..PieceLength(p)]] + Split(p[PieceLength(p)..])
  }

  /** Split a path, piece by piece. */
  method SplitPath(path: seq<byte>) returns (comps: seq<seq<byte>>)
    ensures comps == Split(path)
  {
    hide Split;
    comps := [];
    var i := 0;
    assert path[0..] == path && [] + Split(path) == Split(path);
    while i < |path|
      invariant i <= |path| && comps + Split(path[i..]) == Split(path)
    {
      if path[i] == SLASH {
        SlashSkipped(path, i);
        i := i + 1;
      } else {
        var n := 0;
        while i + n < |path| && n < NAME_MAX && path[i + n] != SLASH
          invariant i + n <= |path| && n <= NAME_MAX && PieceFrom(path[i..], n) == PieceFrom(path[i..], 0)
        {
          n := n + 1;
        }
        PieceTaken(path, i, n);
        comps := comps + [path[i..i + n]];
        i := i + n;
      }
    }
    assert path[i..] == [] && Split([]) == [] by { NothingToSplit(); }
  }

  lemma NothingToSplit()
    ensures Split([]) == []
  {
  }

  lemma SlashSkipped(p: seq<byte>, i: nat)
    requires i < |p| && p[i] == SLASH
    ensures Split(p[i..]) == Split(p[i + 1..])
  {
    assert p[i..][1..] == p[i + 1..];
  }

  lemma PieceTaken(p: seq<byte>, i: nat, n: nat)
    requires i < |p| && p[i] != SLASH && i + n <= |p| && n <= NAME_MAX && PieceFrom(p[i..], n) == PieceLength(p[i..])
    requires i + n == |p| || n == NAME_MAX || p[i + n] == SLASH
    ensures n >= 1 && Split(p[i..]) == [p[i..i + n]] + Split(p[i + n..])
  {
    assert p[i..][..n] == p[i..i + n] && p[i..][n..] == p[i + n..];
  }

  // ---- the parent and the base name ----

  /** The path without slashes at its end. */
  function Trimmed(p: seq<byte>): (r: seq<byte>)
    ensures r <= p && (r != [] ==> r[|r| - 1] != SLASH)
  {
    if p == [] || p[|p| - 1] != SLASH then p else Trimmed(p[..|p| - 1])
  }

  /** The position after the last slash. */
  function AfterSlash(p: seq<byte>): (n: nat)
    ensures n <= |p| && (n > 0 ==> p[n - 1] == SLASH) && (forall j :: n <= j < |p| ==> p[j] != SLASH)
  {
    if p == [] || p[|p| - 1] == SLASH then |p| else AfterSlash(p[..|p| - 1])
  }

  /** Where the last component starts. */
  function Cut(path: seq<byte>): (n: nat)
    ensures n <= |path|
  {
    AfterSlash(Trimmed(path))
  }

  /** The last component, however long. */
  function Base(path: seq<byte>): seq<byte> {
    Trimmed(path)[Cut(path)..]
  }

  /** The base name and the path of the parent fit their buffers. */
  predicate ParentFits(path: seq<byte>) {
    0 < |Base(path)| <= NAME_MAX && Cut(path) < PARENT_MAX
  }

  /** Cut a path into the part before its last component, and that. */
  method CutPath(path: seq<byte>) returns (cut: nat, base: seq<byte>)
    ensures cut == Cut(path) && base == Base(path)
  {
    var len := |path|;
    assert path[..len] == path;
    while len > 0 && path[len - 1] == SLASH
      invariant len <= |path| && Trimmed(path[..len]) == Trimmed(path)
    {
      assert path[..len][..len - 1] == path[..len - 1];
      len := len - 1;
    }
    cut := len;
    while cut > 0 && path[cut - 1] != SLASH
      invariant cut <= len && AfterSlash(path[..cut]) == AfterSlash(path[..len])
      invariant cut < len ==> len > 0
    {
      assert path[..cut][..cut - 1] == path[..cut - 1];
      cut := cut - 1;
    }
    base := path[cut..len];
  }

  lemma {:induction false} SlashesOnly(s: seq<byte>)
    requires forall i :: 0 <= i < |s| ==> s[i] == SLASH
    ensures Split(s) == []
  {
    if s != [] {
      SlashesOnly(s[1..]);
    }
  }

  /** A slash ends the component before it. */
  lemma {:induction false} SplitAtSlash(a: seq<byte>, b: seq<byte>)
    requires a != [] ==> a[|a| - 1] == SLASH
    ensures Split(a + b) == Split(a) + Split(b)
    decreases |a|
  {
    hide PieceFrom;
    if a == [] {
      assert a + b == b;
    } else if a[0] == SLASH {
      assert (a + b)[1..] == a[1..] + b;
      SplitAtSlash(a[1..], b);
    } else {
      var n := PieceLength(a);
      PieceAlone(a, b, 0);
      assert (a + b)[..n] == a[..n] && (a + b)[n..] == a[n..] + b;
      SplitAtSlash(a[n..], b);
      assert [a[..n]] + (Split(a[n..]) + Split(b)) == [a[..n]] + Split(a[n..]) + Split(b);
    }
  }

  /** What follows a slash does not matter for the piece before it. */
  lemma {:induction false} PieceAlone(a: seq<byte>, b: seq<byte>, i: nat)
    requires i <= NAME_MAX && i < |a| && a[|a| - 1] == SLASH
    ensures PieceFrom(a + b, i) == PieceFrom(a, i) < |a|
    decreases |a| - i
  {
    if i < NAME_MAX && a[i] != SLASH {
      PieceAlone(a, b, i + 1);
    }
  }

  /** What a component of a path can be. */
  predicate Component(c: seq<byte>) {
    0 < |c| <= NAME_MAX && forall i :: 0 <= i < |c| ==> c[i] != SLASH
  }

  /** A name that fits and ends there or before a slash is the first component. */
  lemma FrontComponent(c: seq<byte>, s: seq<byte>)
    requires Component(c) && (s == [] || s[0] == SLASH)
    ensures Split(c + s) == [c] + Split(s)
  {
    var p, n := c + s, PieceLength(c + s);
    assert forall i :: 0 <= i < |c| ==> p[i] == c[i];
    assert n < |p| ==> n == NAME_MAX || p[n] == SLASH;
    assert s != [] ==> p[|c|] == s[0];
    assert n == |c|;
    assert p[..n] == c && p[n..] == s;
  }

  /** The components with a slash before each. */
  function Slashed(comps: seq<seq<byte>>): seq<byte> {
    if comps == [] then [] else [SLASH] + comps[0] + Slashed(comps[1..])
  }

  /** Splitting gives back what was put together, and every path is split into components. */
  lemma {:induction false} SplitSlashed(comps: seq<seq<byte>>)
    requires forall i :: 0 <= i < |comps| ==> Component(comps[i])
    ensures Split(Slashed(comps)) == comps
  {
    if comps != [] {
      var rest := Slashed(comps[1..]);
      assert Slashed(comps)[1..] == comps[0] + rest;
      FrontComponent(comps[0], rest);
      SplitSlashed(comps[1..]);
    }
  }

  lemma {:induction false} SplitComponents(p: seq<byte>)
    ensures forall i :: 0 <= i < |Split(p)| ==> Component(Split(p)[i])
    decreases |p|
  {
    if p != [] {
      if p[0] == SLASH {
        SplitComponents(p[1..]);
      } else {
        SplitComponents(p[PieceLength(p)..]);
      }
    }
  }

  /** A name that fits is one component, whatever slashes follow. */
  lemma OneComponent(base: seq<byte>, s: seq<byte>)
    requires 0 < |base| <= NAME_MAX && (forall i :: 0 <= i < |base| ==> base[i] != SLASH) && (forall i :: 0 <= i < |s| ==> s[i] == SLASH)
    ensures Split(base + s) == [base]
  {
    FrontComponent(base, s);
    SlashesOnly(s);
  }

  lemma {:induction false} TrimmedRest(p: seq<byte>)
    ensures forall i :: |Trimmed(p)| <= i < |p| ==> p[i] == SLASH
  {
    if p != [] && p[|p| - 1] == SLASH {
      TrimmedRest(p[..|p| - 1]);
    }
  }

  /** The components of a path are those of its parent and its base name, if that fits. */
  lemma SplitBase(path: seq<byte>)
    requires 0 < |Base(path)| <= NAME_MAX
    ensures Split(path) == Split(path[..Cut(path)]) + [Base(path)]
  {
    hide Split, Trimmed, AfterSlash;
    var t, cut := Trimmed(path), Cut(path);
    TrimmedRest(path);
    var base, s := Base(path), path[|t|..];
    assert path == path[..cut] + (base + s);
    assert forall i :: 0 <= i < |base| ==> base[i] == t[cut + i];
    OneComponent(base, s);
    if cut > 0 {
      assert path[..cut][cut - 1] == t[cut - 1];
    }
    SplitAtSlash(path[..cut], base + s);
  }

  lemma ThreeSlashed(a: seq<byte>, b: seq<byte>, c: seq<byte>)
    ensures Slashed([a, b, c]) == [SLASH] + a + ([SLASH] + b + ([SLASH] + c))
  {
    var abc, bc := [a, b, c], [b, c];
    assert abc[1..] == bc && bc[1..] == [c] && [c][1..] == [];
    assert Slashed([c]) == [SLASH] + c + [] == [SLASH] + c;
  }

  /** A path of short components whose parent does not fit. */
  lemma DeepPath(a: seq<byte>, b: seq<byte>)
    requires |a| == 200 && |b| == 100 && (forall i :: 0 <= i < 200 ==> a[i] != SLASH) && (forall i :: 0 <= i < 100 ==> b[i] != SLASH)
    ensures var path := [SLASH] + a + [SLASH] + b + [SLASH, 0x66];
            Split(path) == [a, b, [0x66]] && Base(path) == [0x66] && Cut(path) == 303 && !ParentFits(path)
  {
    hide Split, PieceFrom;
    var f: seq<byte> := [0x66];
    var front := [SLASH] + a + [SLASH] + b + [SLASH];
    var path := [SLASH] + a + [SLASH] + b + [SLASH, 0x66];
    assert path == front + f && Trimmed(path) == path && path[..|path| - 1] == front;
    assert AfterSlash(path) == AfterSlash(front) == 303;
    assert path[303..] == f;
    ThreeSlashed(a, b, f);
    assert path == [SLASH] + a + ([SLASH] + b + ([SLASH] + f));
    SplitSlashed([a, b, f]);
  }
}
