/** The file system as a map: what every path names before and after a command, said without the
  * tree. Paths are sequences of components, and the case of ASCII letters does not count.
  */
module ExfatPathMap {
  import opened Arith
  import opened Bytes
  import opened ExfatVolume
  import opened ExfatContents
  import opened ExfatFile
  import opened ExfatNames
  import opened ExfatEntrySet
  import opened ExfatPaths
  import opened ExfatDirectory
  import opened ExfatDirVolume
  import opened ExfatTree
  import opened ExfatSteps
  import opened ExfatTreeLaws
  import opened ExfatNamespace
  import opened ExfatCreate
  import opened ExfatUnlink
  import opened ExfatRename
  import opened ExfatUpdate
  import opened ExfatCommands
  import Runs = ExfatRuns

  // ---- what a path shows ----

  /** What an entry says of a file, and of a directory all but how long it is. */
  function Face(i: Info): Info {
    if i.isDir then i.(size := 0, valid := 0) else i
  }

  /** What a path shows. The empty path is the root. */
  ghost function Seen(t: Tree, q: Path): Option<Info>
    requires t.root in t.lists
  {
    if q == [] then Some(Info([], t.root, 0, 0, true, false))
    else
      match Walk(t, t.root, q)
      case None => None
      case Some(h) => Some(Face(h.entry.info))
  }

  ghost predicate Alike(a: Option<Listed>, b: Option<Listed>) {
    a.Some? == b.Some? && (a.Some? ==> Face(a.value.info) == Face(b.value.info))
  }

  /** The last component in the directory of the path. */
  ghost predicate AtKey(t: Tree, a: Path, e: nat, n: seq<byte>)
    requires t.root in t.lists && a != []
  {
    ParentDir(t, t.root, a) == Some(e) && SameName(a[|a| - 1], n)
  }

  ghost predicate AlikeAt(t: Tree, t': Tree, e: nat, n: seq<byte>) {
    e in t.lists && e in t'.lists ==> Alike(FirstNamed(t.lists[e], n), FirstNamed(t'.lists[e], n))
  }

  /** The directories list the same but for the names at two paths. */
  ghost predicate AlikeBut(t: Tree, t': Tree, a: Path, b: Path)
    requires t.root in t.lists && a != [] && b != []
  {
    forall e, n :: AtKey(t, a, e, n) || AtKey(t, b, e, n) || AlikeAt(t, t', e, n)
  }

  // ---- listings ----

  lemma {:induction false} FirstIn(a: seq<Listed>, b: seq<Listed>, n: seq<byte>)
    ensures FirstNamed(a + b, n) == if FirstNamed(a, n).Some? then FirstNamed(a, n) else FirstNamed(b, n)
  {
    hide SameName;
    if a == [] {
      assert a + b == b;
    } else {
      assert (a + b)[1..] == a[1..] + b;
      FirstIn(a[1..], b, n);
    }
  }

  /** One more entry changes what one name finds. */
  lemma JoinedFirst(l: seq<Listed>, l': seq<Listed>, x: Listed, n: seq<byte>)
    requires Joined(l, l', x) && !SameName(n, x.info.name)
    ensures FirstNamed(l', n) == FirstNamed(l, n)
  {
    hide SameName;
    var before, after :| l == before + after && l' == before + [x] + after;
    FirstIn(before, after, n);
    FirstIn(before + [x], after, n);
    FirstIn(before, [x], n);
  }

  lemma SwappedFirst(l: seq<Listed>, l': seq<Listed>, x: Listed, y: Listed, n: seq<byte>)
    requires Swapped(l, l', x, [y])
    requires Face(x.info) == Face(y.info) || (!SameName(n, x.info.name) && !SameName(n, y.info.name))
    ensures Alike(FirstNamed(l, n), FirstNamed(l', n))
  {
    hide SameName;
    var before, after :| l == before + [x] + after && l' == before + [y] + after;
    FirstIn(before + [x], after, n);
    FirstIn(before, [x], n);
    FirstIn(before + [y], after, n);
    FirstIn(before, [y], n);
  }

  // ---- paths ----

  lemma PrefixOfInit(a: Path, q: Path)
    requires q != [] && SamePrefix(a, q[..|q| - 1])
    ensures SamePrefix(a, q)
  {
    hide SameName;
    assert forall i :: 0 <= i < |a| ==> q[..|q| - 1][i] == q[i];
  }

  /** The directory of a path is what the path before its last component shows. */
  lemma ParentSeen(t: Tree, q: Path)
    requires t.root in t.lists && q != []
    ensures ParentDir(t, t.root, q) ==
            match Seen(t, q[..|q| - 1])
            case None => None
            case Some(i) => if i.isDir then Some(i.first) else None
  {
  }

  /** Two paths with the same last component in the same directory are the same up to case. */
  lemma SamePlace(t: Tree, cb: nat, a: Path, q: Path)
    requires cb >= 1 && TreeOk(t, cb) && t.root in t.lists && a != [] && q != []
    requires ParentDir(t, t.root, a).Some? && AtKey(t, a, ParentDir(t, t.root, a).value, q[|q| - 1])
    requires ParentDir(t, t.root, q) == ParentDir(t, t.root, a)
    ensures |a| == |q| && SamePrefix(a, q)
  {
    hide Walk, TreeOk, SameName;
    var a0, q0 := a[..|a| - 1], q[..|q| - 1];
    if a0 != [] {
      LastStep(t, cb, a0);
      NotTheRoot(t, cb, Walk(t, t.root, a0).value);
    }
    if q0 != [] {
      LastStep(t, cb, q0);
      NotTheRoot(t, cb, Walk(t, t.root, q0).value);
    }
    if a0 != [] && q0 != [] {
      PathsAgree(t, cb, a0, q0);
    }
    forall i | 0 <= i < |a|
      ensures SameName(a[i], q[i])
    {
      if i < |a0| {
        assert SameName(a0[i], q0[i]);
      }
    }
  }

  /** One component further, away from the two names. */
  lemma AlikeStep(t: Tree, t': Tree, cb: nat, a: Path, b: Path, q: Path, q': Path)
    requires cb >= 1 && TreeOk(t, cb) && TreeOk(t', cb) && t.root in t.lists && t'.root in t'.lists
    requires a != [] && b != [] && q != [] && q' != [] && q[|q| - 1] == q'[|q'| - 1]
    requires AlikeBut(t, t', a, b) && ParentDir(t, t.root, q) == ParentDir(t', t'.root, q')
    requires forall e :: ParentDir(t, t.root, q) == Some(e) ==> !AtKey(t, a, e, q[|q| - 1]) && !AtKey(t, b, e, q[|q| - 1])
    ensures Seen(t, q) == Seen(t', q')
  {
    hide TreeOk, AtKey, FirstNamed, ParentDir;
    RootListed(t, cb);
    RootListed(t', cb);
    WalkLast(t, cb, t.root, q);
    WalkLast(t', cb, t'.root, q');
    if ParentDir(t, t.root, q).Some? {
      var e := ParentDir(t, t.root, q).value;
      InTree(t, cb, e);
      InTree(t', cb, e);
      assert AlikeAt(t, t', e, q[|q| - 1]);
    }
  }

  /** A path that does not lead through the two names shows the same. */
  lemma {:induction false} Elsewhere(t: Tree, t': Tree, cb: nat, a: Path, b: Path, q: Path)
    requires cb >= 1 && TreeOk(t, cb) && TreeOk(t', cb) && t.root in t.lists && t'.root in t'.lists && t'.root == t.root
    requires a != [] && b != [] && ParentDir(t, t.root, a).Some? && ParentDir(t, t.root, b).Some?
    requires AlikeBut(t, t', a, b) && !SamePrefix(a, q) && !SamePrefix(b, q)
    ensures Seen(t, q) == Seen(t', q)
    decreases |q|
  {
    hide TreeOk, SamePrefix, Walk, AlikeBut, ParentDir, SameName;
    if q != [] {
      var n := q[|q| - 1];
      if SamePrefix(a, q[..|q| - 1]) {
        PrefixOfInit(a, q);
      }
      if SamePrefix(b, q[..|q| - 1]) {
        PrefixOfInit(b, q);
      }
      Elsewhere(t, t', cb, a, b, q[..|q| - 1]);
      forall e | ParentDir(t, t.root, q) == Some(e)
        ensures !AtKey(t, a, e, n) && !AtKey(t, b, e, n)
      {
        if AtKey(t, a, e, n) {
          SamePlace(t, cb, a, q);
        }
        if AtKey(t, b, e, n) {
          SamePlace(t, cb, b, q);
        }
      }
      ParentSeen(t, q);
      ParentSeen(t', q);
      AlikeStep(t, t', cb, a, b, q, q);
    }
  }

  /** Below a path that names nothing, a file or an empty directory there is nothing. */
  lemma {:induction false} NothingBelow(t: Tree, cb: nat, a: Path, q: Path)
    requires cb >= 1 && TreeOk(t, cb) && t.root in t.lists && a != [] && SamePrefix(a, q) && |a| < |q|
    requires var h := Walk(t, t.root, a);
             h.Some? && h.value.entry.info.isDir ==> h.value.entry.info.first in t.lists && t.lists[h.value.entry.info.first] == []
    ensures Seen(t, q) == None
    decreases |q|
  {
    hide TreeOk, Walk, SamePrefix;
    var q0 := q[..|q| - 1];
    RootListed(t, cb);
    PrefixInit(a, q);
    WalkLast(t, cb, t.root, q);
    if |q0| == |a| {
      WalkCased(t, t.root, a, q0);
    } else {
      PrefixLength(a, q0);
      NothingBelow(t, cb, a, q0);
    }
  }

  // ---- each change, on every path ----

  /** The same path up to case. */
  predicate SamePath(a: Path, b: Path) {
    |a| == |b| && SamePrefix(a, b)
  }

  lemma RoomAlike(t: Tree, room: Tree, cb: nat, p: nat, cl: seq<nat>, e: nat, n: seq<byte>)
    requires cb >= 1 && TreeOk(t, cb) && p in t.dirs && RoomMade(t, room, cb, p, cl)
    ensures AlikeAt(t, room, e, n)
  {
    hide NamesApart, LeadsToRoot, SameName, FirstNamed, Swapped, CeilDiv;
    if e in t.lists && room.lists[e] != t.lists[e] {
      var x := t.home[p].entry;
      assert HomeOk(t, p);
      assert EntryOk(t, cb, t.home[p].dir, x);
      SwappedFirst(t.lists[e], room.lists[e], x, Resized(x, |cl| * cb), n);
    }
  }

  /** A new entry: its path shows it, and every other path what it showed. */
  lemma MadeSeen(t: Tree, t': Tree, cb: nat, a: Path, isDir: bool, room: Tree, cl: seq<nat>, x: Listed, q: Path)
    requires cb >= 1 && TreeOk(t, cb) && TreeOk(t', cb) && Created(t, room, t', cb, a, isDir, cl, x) && Walk(t, t.root, a) == None
    ensures Seen(t', q) == if SamePath(a, q) then Some(Face(x.info)) else Seen(t, q)
  {
    hide TreeOk, SamePrefix, Walk, ParentDir, SameName, RoomMade, Added;
    if SamePath(a, q) {
      WalkCased(t', t'.root, a, q);
    } else if SamePrefix(a, q) {
      PrefixLength(a, q);
      NothingBelow(t, cb, a, q);
      NewDirEmpty(t, t', cb, a, isDir, room, cl, x);
      NothingBelow(t', cb, a, q);
    } else {
      MadeAlike(t, t', cb, a, isDir, room, cl, x);
      Elsewhere(t, t', cb, a, a, q);
    }
  }

  lemma NewDirEmpty(t: Tree, t': Tree, cb: nat, a: Path, isDir: bool, room: Tree, cl: seq<nat>, x: Listed)
    requires cb >= 1 && TreeOk(t, cb) && Created(t, room, t', cb, a, isDir, cl, x)
    ensures x.info.isDir == isDir && (isDir ==> x.info.first in t'.lists && t'.lists[x.info.first] == [])
  {
    hide Walk, ParentDir, Joined, SameName, FirstNamed, NamesApart, HomeOk, EntryOk, LeadsToRoot, Swapped;
  }

  lemma MadeAlike(t: Tree, t': Tree, cb: nat, a: Path, isDir: bool, room: Tree, cl: seq<nat>, x: Listed)
    requires cb >= 1 && TreeOk(t, cb) && Created(t, room, t', cb, a, isDir, cl, x)
    ensures AlikeBut(t, t', a, a)
  {
    hide TreeOk, Walk, ParentDir, SameName, RoomMade, FirstNamed, Joined;
    RootListed(t, cb);
    ChainsInTree(t, cb);
    WalkLast(t, cb, t.root, a);
    var p := ParentDir(t, t.root, a).value;
    forall e, n
      ensures AtKey(t, a, e, n) || AlikeAt(t, t', e, n)
    {
      RoomAlike(t, room, cb, p, cl, e, n);
      if e == p && !AtKey(t, a, e, n) {
        SameNameSymmetric(n, x.info.name);
        JoinedFirst(room.lists[p], t'.lists[p], x, n);
      }
    }
  }

  /** A removal: its path and all below it show nothing, and every other path what it showed. */
  lemma RemovedSeen(t: Tree, t': Tree, cb: nat, a: Path, q: Path)
    requires cb >= 1 && TreeOk(t, cb) && TreeOk(t', cb) && Removed(t, t', a)
    ensures t'.root == t.root && Seen(t', q) == if SamePrefix(a, q) then None else Seen(t, q)
  {
    hide TreeOk, SamePrefix, Walk, ParentDir, SameName, Joined, FirstNamed;
    if SamePath(a, q) {
      WalkCased(t', t'.root, a, q);
    } else if SamePrefix(a, q) {
      PrefixLength(a, q);
      NothingBelow(t', cb, a, q);
    } else {
      var h := Walk(t, t.root, a).value;
      RootListed(t, cb);
      LastStep(t, cb, a);
      WalkLast(t, cb, t.root, a);
      forall e, n
        ensures AtKey(t, a, e, n) || AlikeAt(t, t', e, n)
      {
        if e == h.dir && !AtKey(t, a, e, n) {
          KeyOf(a[|a| - 1], n, h.entry.info.name);
          JoinedFirst(t'.lists[e], t.lists[e], h.entry, n);
        }
      }
      Elsewhere(t, t', cb, a, a, q);
    }
  }

  lemma KeyOf(last: seq<byte>, n: seq<byte>, name: seq<byte>)
    requires SameName(last, name) && !SameName(last, n)
    ensures !SameName(n, name)
  {
  }

  /** An entry replaced under its name: its path shows the new one, and every other path what it
    * showed.
    */
  lemma ReplacedSeen(t: Tree, t': Tree, cb: nat, a: Path, y: Listed, cl: seq<nat>, q: Path)
    requires cb >= 1 && TreeOk(t, cb) && TreeOk(t', cb) && t.root in t.lists && t'.root in t'.lists && a != [] && Walk(t, t.root, a).Some?
    requires var h := Walk(t, t.root, a).value; !h.entry.info.isDir && EntryReplaced(t, t', h.dir, h.entry, y, cl)
    ensures Seen(t', q) == if SamePath(a, q) then Some(y.info) else Seen(t, q)
  {
    hide TreeOk, SamePrefix, Walk, ParentDir, SameName, Swapped, FirstNamed;
    var h := Walk(t, t.root, a).value;
    RootListed(t, cb);
    RootListed(t', cb);
    LastStep(t, cb, a);
    WalkLast(t, cb, t.root, a);
    forall e, n
      ensures AtKey(t, a, e, n) || AlikeAt(t, t', e, n)
    {
      if e == h.dir && !AtKey(t, a, e, n) {
        KeyOf(a[|a| - 1], n, h.entry.info.name);
        SwappedFirst(t.lists[e], t'.lists[e], h.entry, y, n);
      }
    }
    if SamePrefix(a, q) {
      PrefixLength(a, q);
      ReplacedHere(t, t', cb, a, y, cl);
      if |a| == |q| {
        WalkCased(t', t'.root, a, q);
      } else {
        NothingBelow(t, cb, a, q);
        NothingBelow(t', cb, a, q);
      }
    } else {
      Elsewhere(t, t', cb, a, a, q);
    }
  }

  lemma NotOwnPrefix(a: Path, q: Path)
    requires |q| < |a|
    ensures !SamePrefix(a, q)
  {
  }

  lemma ReplacedHere(t: Tree, t': Tree, cb: nat, a: Path, y: Listed, cl: seq<nat>)
    requires cb >= 1 && TreeOk(t, cb) && TreeOk(t', cb) && t.root in t.lists && t'.root in t'.lists && a != [] && Walk(t, t.root, a).Some?
    requires var h := Walk(t, t.root, a).value; !h.entry.info.isDir && EntryReplaced(t, t', h.dir, h.entry, y, cl)
    requires AlikeBut(t, t', a, a)
    ensures Walk(t', t.root, a) == Some(Home(Walk(t, t.root, a).value.dir, y))
  {
    hide SamePrefix, Walk, ParentDir, SameName, Swapped, FirstNamed, LeadsToRoot, HomeOk, EntryOk;
    var h, a0 := Walk(t, t.root, a).value, a[..|a| - 1];
    LastStep(t, cb, a);
    WalkLast(t, cb, t.root, a);
    NotOwnPrefix(a, a0);
    Elsewhere(t, t', cb, a, a, a0);
    ParentSeen(t, a);
    ParentSeen(t', a);
    WalkLast(t', cb, t'.root, a);
    SwappedMembers(t.lists[h.dir], t'.lists[h.dir], h.entry, y);
    FoundByName(t'.lists[h.dir], y, a[|a| - 1]);
  }

  // ---- a move takes all that is below along ----

  /** What a move keeps to: the old path names something, the new one nothing, and it does not go on
    * from the old one.
    */
  ghost predicate MoveMade(t: Tree, t': Tree, cb: nat, a: Path, b: Path, room: Tree, cl: seq<nat>, y: Listed)
    requires cb >= 1
  {
    && TreeOk(t, cb) && TreeOk(t', cb) && Renamed(t, room, t', cb, a, b, cl, y)
    && Walk(t, t.root, b) == None && !SamePrefix(a, b)
  }

  lemma ReplacedFirst(l: seq<Listed>, l': seq<Listed>, x: Listed, y: Listed, n: seq<byte>)
    requires ReplacedIn(l, l', x, y) && !SameName(n, x.info.name) && !SameName(n, y.info.name)
    ensures Alike(FirstNamed(l, n), FirstNamed(l', n))
  {
    hide SameName, FirstNamed, Joined, Swapped;
    if Swapped(l, l', x, [y]) {
      SwappedFirst(l, l', x, y, n);
    } else {
      var m :| Joined(l, m, y) && Joined(l', m, x);
      JoinedFirst(l, m, y, n);
      JoinedFirst(l', m, x, n);
    }
  }

  lemma MovedAlike(t: Tree, t': Tree, cb: nat, a: Path, b: Path, room: Tree, cl: seq<nat>, y: Listed)
    requires cb >= 1 && MoveMade(t, t', cb, a, b, room, cl, y)
    ensures AlikeBut(t, t', a, b)
  {
    hide TreeOk, Walk, ParentDir, SameName, RoomMade, FirstNamed, Joined, ReplacedIn, SamePrefix;
    RootListed(t, cb);
    LastStep(t, cb, a);
    WalkLast(t, cb, t.root, a);
    WalkLast(t, cb, t.root, b);
    var h, p := Walk(t, t.root, a).value, ParentDir(t, t.root, b).value;
    var x := h.entry;
    forall e, n
      ensures AtKey(t, a, e, n) || AtKey(t, b, e, n) || AlikeAt(t, t', e, n)
    {
      RoomAlike(t, room, cb, p, cl, e, n);
      if !AtKey(t, a, e, n) && !AtKey(t, b, e, n) {
        if e == h.dir {
          KeyOf(a[|a| - 1], n, x.info.name);
        }
        if e == p {
          SameNameSymmetric(n, y.info.name);
        }
        if e == h.dir == p {
          ReplacedFirst(room.lists[e], t'.lists[e], x, y, n);
        } else if e == h.dir {
          JoinedFirst(t'.lists[e], room.lists[e], x, n);
        } else if e == p {
          JoinedFirst(room.lists[e], t'.lists[e], y, n);
        }
      }
    }
  }

  /** A path that names something goes through none that names nothing. */
  lemma NotThrough(t: Tree, cb: nat, b: Path, q: Path)
    requires cb >= 1 && TreeOk(t, cb) && t.root in t.lists && b != [] && Walk(t, t.root, b) == None && Seen(t, q).Some?
    ensures !SamePrefix(b, q)
  {
    hide TreeOk, Walk, SamePrefix;
    if SamePrefix(b, q) {
      PrefixLength(b, q);
      if |b| == |q| {
        WalkCased(t, t.root, b, q);
      } else {
        NothingBelow(t, cb, b, q);
      }
    }
  }

  /** The old path names nothing any more. */
  lemma OldPathGone(t: Tree, t': Tree, cb: nat, a: Path, b: Path, room: Tree, cl: seq<nat>, y: Listed)
    requires cb >= 1 && MoveMade(t, t', cb, a, b, room, cl, y)
    ensures Walk(t', t'.root, a) == None
  {
    hide TreeOk, Walk, ParentDir, SameName, RoomMade, MovedTo, FirstNamed, SamePrefix;
    var h, a0 := Walk(t, t.root, a).value, a[..|a| - 1];
    RootListed(t, cb);
    RootListed(t', cb);
    LastStep(t, cb, a);
    WalkLast(t, cb, t.root, a);
    ParentSeen(t, a);
    NotThrough(t, cb, b, a0);
    NotOwnPrefix(a, a0);
    MovedAlike(t, t', cb, a, b, room, cl, y);
    Elsewhere(t, t', cb, a, b, a0);
    ParentSeen(t', a);
    WalkLast(t', cb, t'.root, a);
    FirstCased(t'.lists[h.dir], a[|a| - 1], h.entry.info.name);
  }

  lemma LongerPrefix(a: Path, b: Path, rest: Path)
    requires SamePrefix(b, a + rest) && |b| == |a| + |rest|
    ensures SamePrefix(a, b)
  {
    hide SameName;
    forall i | 0 <= i < |a|
      ensures SameName(a[i], b[i])
    {
      assert SameName(b[i], (a + rest)[i]);
      SameNameSymmetric(b[i], a[i]);
    }
  }

  /** What was below the old path is below the new one. */
  lemma {:induction false} MovedBelow(t: Tree, t': Tree, cb: nat, a: Path, b: Path, room: Tree, cl: seq<nat>, y: Listed, rest: Path)
    requires cb >= 1 && MoveMade(t, t', cb, a, b, room, cl, y) && rest != []
    ensures Seen(t', b + rest) == Seen(t, a + rest)
    decreases |rest|
  {
    hide TreeOk, Walk, ParentDir, SameName, RoomMade, FirstNamed, SamePrefix, AlikeBut;
    RootListed(t, cb);
    RootListed(t', cb);
    LastStep(t, cb, a);
    WalkLast(t, cb, t.root, a);
    var q, q', n := a + rest, b + rest, rest[|rest| - 1];
    var rest0 := rest[..|rest| - 1];
    assert q[..|q| - 1] == a + rest0 && q'[..|q'| - 1] == b + rest0;
    if rest0 == [] {
      assert a + rest0 == a && b + rest0 == b;
    } else {
      MovedBelow(t, t', cb, a, b, room, cl, y, rest0);
    }
    ParentSeen(t, q);
    ParentSeen(t', q');
    forall e | ParentDir(t, t.root, q) == Some(e)
      ensures !AtKey(t, a, e, n) && !AtKey(t, b, e, n)
    {
      if AtKey(t, a, e, n) {
        SamePlace(t, cb, a, q);
      }
      if AtKey(t, b, e, n) {
        SamePlace(t, cb, b, q);
        LongerPrefix(a, b, rest);
      }
    }
    MovedAlike(t, t', cb, a, b, room, cl, y);
    AlikeStep(t, t', cb, a, b, q, q');
  }

  /** A move: the new path shows what the old one did, and so does each path below it; the old path
    * and all below it show nothing, and every other path what it showed.
    */
  lemma MovedSeen(t: Tree, t': Tree, cb: nat, a: Path, b: Path, room: Tree, cl: seq<nat>, y: Listed, q: Path)
    requires cb >= 1 && MoveMade(t, t', cb, a, b, room, cl, y)
    ensures Seen(t', q) ==
            if SamePath(b, q) then Some(Seen(t, a).value.(name := b[|b| - 1]))
            else if SamePrefix(b, q) then Seen(t, a + q[|b|..])
            else if SamePrefix(a, q) then None
            else Seen(t, q)
  {
    hide TreeOk, Walk, ParentDir, SameName, RoomMade, FirstNamed, SamePrefix;
    RootListed(t, cb);
    RootListed(t', cb);
    if SamePath(b, q) {
      WalkCased(t', t'.root, b, q);
    } else if SamePrefix(b, q) {
      PrefixLength(b, q);
      var rest := q[|b|..];
      CasedFront(b, q);
      WalkCased(t', t'.root, b + rest, q);
      MovedBelow(t, t', cb, a, b, room, cl, y, rest);
    } else if SamePrefix(a, q) {
      OldPathGone(t, t', cb, a, b, room, cl, y);
      PrefixLength(a, q);
      if |a| == |q| {
        WalkCased(t', t'.root, a, q);
      } else {
        NothingBelow(t', cb, a, q);
      }
    } else {
      LastStep(t, cb, a);
      WalkLast(t, cb, t.root, a);
      MovedAlike(t, t', cb, a, b, room, cl, y);
      Elsewhere(t, t', cb, a, b, q);
    }
  }

  lemma CasedFront(b: Path, q: Path)
    requires SamePrefix(b, q)
    ensures SamePrefix(b + q[|b|..], q) && |b + q[|b|..]| == |q|
  {
    hide SameName;
    forall i | 0 <= i < |q|
      ensures SameName((b + q[|b|..])[i], q[i])
    {
      SameNameReflexive(q[i]);
    }
  }
}
