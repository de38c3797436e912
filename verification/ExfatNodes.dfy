/** Runs of commands on the map from paths to folders and documents: each command changes what its
  * own paths name, with all that is below them, and nothing else.
  */
module ExfatNodes {
  import opened Arith
  import opened Bytes
  import opened ExfatScan
  import opened ExfatVolume
  import opened ExfatContents
  import opened ExfatFile
  import opened ExfatNames
  import opened ExfatEntrySet
  import opened ExfatPaths
  import opened ExfatDirectory
  import opened ExfatDirVolume
  import opened ExfatTree
  import opened ExfatSteps
  import opened ExfatTreeLaws
  import opened ExfatNamespace
  import opened ExfatCreate
  import opened ExfatUnlink
  import opened ExfatRename
  import opened ExfatUpdate
  import opened ExfatCommands
  import opened ExfatPathMap
  import opened ExfatLayout
  import opened ExfatFormat
  import ExfatMount
  import Runs = ExfatRuns

  /** What a path can name. */
  datatype Node = Folder | Document(bytes: seq<byte>)

  /** The entry a path leads to is listed. */
  lemma WalkListed(t: Tree, d: nat, q: Path)
    requires d in t.lists && q != [] && Walk(t, d, q).Some?
    ensures var h := Walk(t, d, q).value; h.dir in t.lists && h.entry in t.lists[h.dir]
    decreases |q|
  {
    hide SameName;
    var x := FirstNamed(t.lists[d], q[0]).value;
    if |q| > 1 {
      WalkListed(t, x.info.first, q[1..]);
    }
  }

  /** What a path names, with the bytes that are on the disk for it. */
  ghost function NodeAt(s: State, z: Shape, q: Path): Option<Node>
    requires Legible(s, z)
  {
    if q == [] then Some(Folder)
    else
      match Walk(s.t, s.t.root, q)
      case None => None
      case Some(h) =>
        WalkListed(s.t, s.t.root, q);
        if h.entry.info.isDir then Some(Folder) else Some(Document(FileBytes(s.heap, z.spc, s.t, h.entry)))
  }

  // ---- bytes that stay ----

  /** The chain at `k` is the same and on the same sectors. */
  ghost predicate Stays(s: State, s': State, k: nat) {
    && |s'.heap| == |s.heap| && (k in s'.t.chains <==> k in s.t.chains)
    && (k in s.t.chains ==> s'.t.chains[k] == s.t.chains[k] && SameSectors(s.heap, s'.heap, s.t.chains[k]))
  }

  lemma BytesStay(s: State, s': State, spc: nat, x: Listed, y: Listed)
    requires Readable(s.heap, spc, s.t, x) && Stays(s, s', x.info.first)
    requires y.info.first == x.info.first && y.info.size == x.info.size && y.info.valid == x.info.valid
    ensures Readable(s'.heap, spc, s'.t, y) && FileBytes(s'.heap, spc, s'.t, y) == FileBytes(s.heap, spc, s.t, x)
  {
    hide ChainBytes, Visible;
    var cl := ClustersOf(s.t, x);
    assert forall i :: 0 <= i < |cl| ==> cl[i] in cl;
    ChainUntouched(s.heap, s'.heap, cl, spc);
  }

  /** The same entry but for its name. */
  predicate SameBut(a: Option<Info>, b: Option<Info>) {
    a.Some? == b.Some? && (a.Some? ==> a.value.(name := []) == b.value.(name := []))
  }

  lemma SameNode(s: State, s': State, z: Shape, q: Path, q': Path)
    requires Legible(s, z) && Legible(s', z) && SameBut(Seen(s.t, q), Seen(s'.t, q'))
    requires Seen(s.t, q).Some? && !Seen(s.t, q).value.isDir ==> Stays(s, s', Seen(s.t, q).value.first)
    ensures NodeAt(s', z, q') == NodeAt(s, z, q)
  {
    hide Walk, FileBytes, Stays, Readable;
    if q != [] && q' != [] && Walk(s.t, s.t.root, q).Some? {
      WalkListed(s.t, s.t.root, q);
      WalkListed(s'.t, s'.t.root, q');
      var x, y := Walk(s.t, s.t.root, q).value.entry, Walk(s'.t, s'.t.root, q').value.entry;
      if !x.info.isDir {
        BytesStay(s, s', z.spc, x, y);
      }
    }
  }

  /** The chain of a file that a path leads to. */
  lemma FileChain(t: Tree, cb: nat, q: Path)
    requires cb >= 1 && TreeOk(t, cb) && t.root in t.lists && Seen(t, q).Some? && !Seen(t, q).value.isDir
    ensures var k := Seen(t, q).value.first; if k < 2 then k !in t.chains else k in t.chains && k !in t.dirs && k in t.home
    ensures q != [] && Seen(t, q) == Some(Walk(t, t.root, q).value.entry.info)
    ensures Seen(t, q).value.first >= 2 ==> t.home[Seen(t, q).value.first] == Walk(t, t.root, q).value
  {
    hide NamesApart, LeadsToRoot, HomeOk, CeilDiv, Walk;
    SmallChains(t, cb);
    WalkHome(t, cb, t.root, q);
  }

  /** A file that `u`, a part of the tree, and the next tree have keeps its bytes. */
  lemma KeptStays(s: State, s': State, cb: nat, u: Tree, k: nat)
    requires cb >= 1 && TreeOk(s'.t, cb) && FilesKept(u, s.heap, s'.heap)
    requires if k < 2 then k !in s.t.chains else k in s.t.chains && k !in s.t.dirs
    requires k in s.t.chains ==> k in u.chains && u.chains[k] == s.t.chains[k] && (k in u.dirs ==> k in s.t.dirs)
    requires k in s.t.chains ==> k in s'.t.chains && s'.t.chains[k] == s.t.chains[k]
    ensures Stays(s, s', k)
  {
    hide TreeOk;
    SmallChains(s'.t, cb);
  }

  /** Two paths to one file are the same path up to case. */
  lemma OneFile(t: Tree, cb: nat, a: Path, q: Path)
    requires cb >= 1 && TreeOk(t, cb) && t.root in t.lists && a != [] && Walk(t, t.root, a).Some?
    requires Seen(t, q).Some? && !Seen(t, q).value.isDir && Seen(t, q).value.first == Walk(t, t.root, a).value.entry.info.first >= 2
    ensures SamePath(a, q)
  {
    hide NamesApart, LeadsToRoot, HomeOk, CeilDiv, Walk, SamePrefix;
    FileChain(t, cb, q);
    WalkHome(t, cb, t.root, a);
    PathsAgree(t, cb, a, q);
  }

  // ---- the commands ----

  lemma MadeNodes(s: State, s': State, z: Shape, a: Path, isDir: bool, room: Tree, cl: seq<nat>, x: Listed, q: Path)
    requires Sane(s, z) && Sane(s', z) && Created(s.t, room, s'.t, z.spc * 512, a, isDir, cl, x) && Walk(s.t, s.t.root, a) == None
    requires FilesKept(s.t, s.heap, s'.heap)
    ensures NodeAt(s', z, q) == if SamePath(a, q) then Some(if isDir then Folder else Document([])) else NodeAt(s, z, q)
  {
    hide TreeOk, Walk, FilesKept, Stays, SamePrefix, ParentDir, RoomMade, Added, Legible;
    var cb := z.spc * 512;
    MadeSeen(s.t, s'.t, cb, a, isDir, room, cl, x, q);
    if SamePath(a, q) {
      EmptyNode(s', z, q);
    } else {
      if Seen(s.t, q).Some? && !Seen(s.t, q).value.isDir {
        FileChain(s.t, cb, q);
        MadeChains(s.t, s'.t, cb, a, isDir, room, cl, x, Seen(s.t, q).value.first);
        KeptStays(s, s', cb, s.t, Seen(s.t, q).value.first);
      }
      SameNode(s, s', z, q, q);
    }
  }

  /** A document of no bytes, or a folder. */
  lemma EmptyNode(s: State, z: Shape, q: Path)
    requires Legible(s, z) && Seen(s.t, q).Some? && (!Seen(s.t, q).value.isDir ==> Seen(s.t, q).value.size == 0)
    ensures NodeAt(s, z, q) == Some(if Seen(s.t, q).value.isDir then Folder else Document([]))
  {
    hide Walk, ChainBytes;
    if q != [] {
      WalkListed(s.t, s.t.root, q);
    }
  }

  lemma MadeChains(t: Tree, t': Tree, cb: nat, a: Path, isDir: bool, room: Tree, cl: seq<nat>, x: Listed, k: nat)
    requires cb >= 1 && TreeOk(t, cb) && Created(t, room, t', cb, a, isDir, cl, x)
    ensures k in t.chains && k !in t.dirs ==> k in t'.chains && t'.chains[k] == t.chains[k]
  {
    hide TreeOk, Walk, ParentDir, Joined, Swapped, FirstNamed, SameName;
    RootListed(t, cb);
    WalkLast(t, cb, t.root, a);
  }

  lemma RemovedNodes(s: State, s': State, z: Shape, a: Path, q: Path)
    requires Sane(s, z) && Sane(s', z) && Removed(s.t, s'.t, a)
    requires FilesKept(Released(s.t, Walk(s.t, s.t.root, a).value.entry.info.first), s.heap, s'.heap)
    ensures NodeAt(s', z, q) == if SamePrefix(a, q) then None else NodeAt(s, z, q)
  {
    hide TreeOk, Walk, FilesKept, Stays, SamePrefix, Legible, Joined, FirstNamed;
    var cb := z.spc * 512;
    RemovedSeen(s.t, s'.t, cb, a, q);
    if !SamePrefix(a, q) {
      if Seen(s.t, q).Some? && !Seen(s.t, q).value.isDir {
        var k, m := Seen(s.t, q).value.first, Walk(s.t, s.t.root, a).value.entry.info.first;
        FileChain(s.t, cb, q);
        if k == m >= 2 {
          OneFile(s.t, cb, a, q);
        }
        KeptStays(s, s', cb, Released(s.t, m), k);
      }
      SameNode(s, s', z, q, q);
    }
  }

  lemma MovedNodes(s: State, s': State, z: Shape, a: Path, b: Path, room: Tree, cl: seq<nat>, y: Listed, q: Path)
    requires Sane(s, z) && Sane(s', z) && MoveMade(s.t, s'.t, z.spc * 512, a, b, room, cl, y) && FilesKept(s.t, s.heap, s'.heap)
    ensures NodeAt(s', z, q) ==
            if SamePrefix(b, q) then NodeAt(s, z, a + q[|b|..])
            else if SamePrefix(a, q) then None
            else NodeAt(s, z, q)
  {
    hide TreeOk, Walk, FilesKept, Stays, SamePrefix, Legible, FirstNamed, RoomMade, MovedTo, ParentDir;
    var cb := z.spc * 512;
    MovedSeen(s.t, s'.t, cb, a, b, room, cl, y, q);
    if SamePrefix(b, q) || !SamePrefix(a, q) {
      if SamePrefix(b, q) {
        PrefixLength(b, q);
        assert |q| == |b| ==> a + q[|b|..] == a;
      }
      var q0 := if SamePrefix(b, q) then a + q[|b|..] else q;
      if Seen(s.t, q0).Some? && !Seen(s.t, q0).value.isDir {
        FileChain(s.t, cb, q0);
        MovedChains(s.t, s'.t, cb, a, b, room, cl, y, Seen(s.t, q0).value.first);
        KeptStays(s, s', cb, s.t, Seen(s.t, q0).value.first);
      }
      SameNode(s, s', z, q0, q);
    }
  }

  lemma MovedChains(t: Tree, t': Tree, cb: nat, a: Path, b: Path, room: Tree, cl: seq<nat>, y: Listed, k: nat)
    requires cb >= 1 && MoveMade(t, t', cb, a, b, room, cl, y)
    ensures k in t.chains && k !in t.dirs ==> k in t'.chains && t'.chains[k] == t.chains[k]
  {
    hide TreeOk, Walk, ParentDir, Joined, Swapped, FirstNamed, SameName, SamePrefix, ReplacedIn;
    RootListed(t, cb);
    WalkLast(t, cb, t.root, b);
  }

  lemma ReplacedNodes(s: State, s': State, z: Shape, a: Path, y: Listed, q: Path)
    requires Sane(s, z) && Sane(s', z) && a != [] && Walk(s.t, s.t.root, a).Some? && !Walk(s.t, s.t.root, a).value.entry.info.isDir
    requires var h := Walk(s.t, s.t.root, a).value; EntryReplaced(s.t, s'.t, h.dir, h.entry, y, ClustersOf(s'.t, y))
    requires FilesKept(Released(s.t, Walk(s.t, s.t.root, a).value.entry.info.first), s.heap, s'.heap)
    requires Readable(s'.heap, z.spc, s'.t, y)
    ensures NodeAt(s', z, q) == if SamePath(a, q) then Some(Document(FileBytes(s'.heap, z.spc, s'.t, y))) else NodeAt(s, z, q)
  {
    hide TreeOk, Walk, FilesKept, Stays, SamePrefix, Legible, Swapped, Readable, FileBytes;
    var cb, cl := z.spc * 512, ClustersOf(s'.t, y);
    RootListed(s.t, cb);
    RootListed(s'.t, cb);
    ReplacedSeen(s.t, s'.t, cb, a, y, cl, q);
    if SamePath(a, q) {
      BytesOf(s', z, q, y);
    } else {
      if Seen(s.t, q).Some? && !Seen(s.t, q).value.isDir {
        var k, m := Seen(s.t, q).value.first, Walk(s.t, s.t.root, a).value.entry.info.first;
        FileChain(s.t, cb, q);
        if k == m >= 2 {
          OneFile(s.t, cb, a, q);
        }
        if k == y.info.first >= 2 {
          SamePathSelf(a);
          ReplacedSeen(s.t, s'.t, cb, a, y, cl, a);
          OneFile(s'.t, cb, a, q);
        }
        KeptStays(s, s', cb, Released(s.t, m), k);
      }
      SameNode(s, s', z, q, q);
    }
  }

  lemma SamePathSelf(a: Path)
    ensures SamePath(a, a)
  {
  }

  lemma BytesOf(s: State, z: Shape, q: Path, y: Listed)
    requires Legible(s, z) && q != [] && Seen(s.t, q) == Some(y.info) && !y.info.isDir && Readable(s.heap, z.spc, s.t, y)
    ensures NodeAt(s, z, q) == Some(Document(FileBytes(s.heap, z.spc, s.t, y)))
  {
    hide Walk, Visible, ChainBytes;
    WalkListed(s.t, s.t.root, q);
  }

  /** Directories that list the same lead to the same. */
  lemma {:induction false} SameListsWalk(t: Tree, t': Tree, d: nat, q: Path)
    requires t'.lists == t.lists && d in t.lists && q != []
    ensures Walk(t', d, q) == Walk(t, d, q)
    decreases |q|
  {
    hide FirstNamed;
    var x := FirstNamed(t.lists[d], q[0]);
    if |q| > 1 && x.Some? && x.value.info.isDir && x.value.info.first in t.lists {
      SameListsWalk(t, t', x.value.info.first, q[1..]);
    }
  }

  /** A directory that grew in vain is not seen on any path. */
  lemma VainNodes(s: State, s': State, z: Shape, path: PathString, free: nat)
    requires Sane(s, z) && VainGrowth(s.t, s'.t, path, free) && FilesKept(s.t, s.heap, s'.heap)
    ensures Legible(s', z) && forall q :: NodeAt(s', z, q) == NodeAt(s, z, q)
  {
    hide Walk, FilesKept, Stays, Readable, NamesApart, LeadsToRoot, HomeOk, Cut, Base, Split;
    var cb, t, t' := z.spc * 512, s.t, s'.t;
    RootListed(t, cb);
    SmallChains(t, cb);
    VainDir(t, t', cb, path, free);
    forall d, x | d in t'.lists && x in t'.lists[d] && !x.info.isDir
      ensures Stays(s, s', x.info.first) && Readable(s'.heap, z.spc, t', x)
    {
      assert EntryOk(t, cb, d, x);
      VainStays(s, s', cb, path, free, x.info.first);
      BytesStay(s, s', z.spc, x, x);
    }
    forall q
      ensures NodeAt(s', z, q) == NodeAt(s, z, q)
    {
      if q != [] {
        SameListsWalk(t, t', t.root, q);
        if Walk(t, t.root, q).Some? {
          WalkListed(t, t.root, q);
        }
      }
      SameNode(s, s', z, q, q);
    }
  }

  lemma VainDir(t: Tree, t': Tree, cb: nat, path: PathString, free: nat)
    requires cb >= 1 && TreeOk(t, cb) && VainGrowth(t, t', path, free)
    ensures t'.lists == t.lists && t'.root == t.root
    ensures forall k :: k in t.chains && k !in t.dirs ==> k in t'.chains && t'.chains[k] == t.chains[k]
    ensures t'.chains.Keys == t.chains.Keys
  {
    hide Walk, NamesApart, LeadsToRoot, HomeOk, EntryOk, Base, Split;
    if Split(path) != [] {
      WalkLast(t, cb, t.root, Split(path));
    }
  }

  lemma VainStays(s: State, s': State, cb: nat, path: PathString, free: nat, k: nat)
    requires cb >= 1 && TreeOk(s.t, cb) && VainGrowth(s.t, s'.t, path, free) && FilesKept(s.t, s.heap, s'.heap)
    requires k !in s.t.dirs
    ensures Stays(s, s', k)
  {
    hide TreeOk, VainGrowth;
    VainDir(s.t, s'.t, cb, path, free);
  }

  // ---- the map after a command ----

  /** What path `q` names after a command that succeeded, from what all paths named before. Of a
    * modified document only the new bytes are not fixed by that.
    */
  ghost function NodeAfter(s: State, z: Shape, c: Command, bytes: seq<byte>, q: Path): Option<Node>
    requires Legible(s, z)
  {
    match c
    case Make(path, isDir) =>
      if SamePath(Split(path), q) then Some(if isDir then Folder else Document([])) else NodeAt(s, z, q)
    case Remove(path) =>
      if SamePrefix(Split(path), q) then None else NodeAt(s, z, q)
    case Move(from, to) =>
      if SamePrefix(Split(to), q) then NodeAt(s, z, Split(from) + q[|Split(to)|..])
      else if SamePrefix(Split(from), q) then None
      else NodeAt(s, z, q)
    case Modify(path, _) =>
      if SamePath(Split(path), q) then Some(Document(bytes)) else NodeAt(s, z, q)
  }

  /** The new bytes of a modified document are what the operations make of the old ones. */
  ghost predicate Rewritten(s: State, z: Shape, c: Command, bytes: seq<byte>)
    requires Legible(s, z) && z.spc >= 1
  {
    c.Modify? ==>
      && NodeAt(s, z, Split(c.path)).Some? && NodeAt(s, z, Split(c.path)).value.Document?
      && exists pos, done ::
           FlatSession(Runs.Flat(NodeAt(s, z, Split(c.path)).value.bytes, 0), Runs.Flat(bytes, pos), c.ops, done, z.spc * 512)
  }

  ghost predicate Follows(s: State, s': State, z: Shape, c: Command, r: int)
    requires Legible(s, z) && Legible(s', z) && z.spc >= 1
  {
    if r != 0 then forall q :: NodeAt(s', z, q) == NodeAt(s, z, q)
    else exists bytes :: Rewritten(s, z, c, bytes) && forall q :: NodeAt(s', z, q) == NodeAfter(s, z, c, bytes, q)
  }

  /** A command that succeeds makes of the map what it says; one that does not changes nothing on any
    * path, the one that tears included.
    */
  lemma CommandOnMap(s: State, s': State, z: Shape, c: Command, r: int)
    requires Sane(s, z) && Acceptable(c) && Effect(s, s', z, c, r) && (Sane(s', z) || r == ERR_NO_SPACE)
    ensures Legible(s', z) && Follows(s, s', z, c, r)
  {
    hide TreeOk, Walk, FilesKept, Split, Base, Cut, WellFormed, SamePrefix, Legible, Deliverable, CreateFails, RenameFails, Readable;
    hide FlatSession, VainGrowth, Created, Renamed, Removed, EntryReplaced, FileBytes;
    if r == ERR_NO_SPACE {
      NoRoomOnMap(s, s', z, c, r);
    } else if r != 0 {
      NothingOnMap(s, s', z, c, r);
    } else {
      match c
      case Make(path, isDir) => MakeOnMap(s, s', z, path, isDir);
      case Remove(path) => RemoveOnMap(s, s', z, path);
      case Move(from, to) => MoveOnMap(s, s', z, from, to);
      case Modify(path, ops) => ModifyOnMap(s, s', z, path, ops);
    }
  }

  lemma NoRoomOnMap(s: State, s': State, z: Shape, c: Command, r: int)
    requires Sane(s, z) && Acceptable(c) && Effect(s, s', z, c, r) && r == ERR_NO_SPACE
    ensures Legible(s', z) && forall q :: NodeAt(s', z, q) == NodeAt(s, z, q)
  {
    hide TreeOk, Walk, FilesKept, Split, Base, Cut, WellFormed, SamePrefix, Legible, Deliverable, CreateFails, RenameFails, VainGrowth;
    var free := Deliverable(z.count, s.used, s.next);
    match c
    case Make(path, isDir) => VainNodes(s, s', z, path, Spare(free, isDir));
    case Move(from, to) => VainNodes(s, s', z, to, free);
    case _ =>
      assert false;
  }

  lemma NothingOnMap(s: State, s': State, z: Shape, c: Command, r: int)
    requires Sane(s, z) && Sane(s', z) && Acceptable(c) && Effect(s, s', z, c, r) && r != 0 && r != ERR_NO_SPACE
    ensures forall q :: NodeAt(s', z, q) == NodeAt(s, z, q)
  {
    hide TreeOk, Walk, FilesKept, Split, Base, Cut, WellFormed, SamePrefix, Legible, Deliverable, CreateFails, RenameFails, ModifiedBy, Stays;
    var cb := z.spc * 512;
    assert s'.t == s.t;
    RootListed(s.t, cb);
    SmallChains(s.t, cb);
    forall q
      ensures NodeAt(s', z, q) == NodeAt(s, z, q)
    {
      if Seen(s.t, q).Some? && !Seen(s.t, q).value.isDir {
        FileChain(s.t, cb, q);
        SparedFiles(s.t, cb, c, Seen(s.t, q).value.first);
        KeptStays(s, s', cb, Spared(s.t, c), Seen(s.t, q).value.first);
      }
      SameNode(s, s', z, q, q);
    }
  }

  /** A file is spared by a command that does not succeed. */
  lemma SparedFiles(t: Tree, cb: nat, c: Command, k: nat)
    requires cb >= 1 && TreeOk(t, cb) && t.root in t.lists && k !in t.dirs
    requires c.Remove? ==> UnlinkResult(t, Split(c.path)) != 0
    requires c.Modify? ==> Names(t, c.path) ==> Walk(t, t.root, Split(c.path)).value.entry.info.isDir
    ensures k in t.chains ==> k in Spared(t, c).chains && Spared(t, c).chains[k] == t.chains[k] && k !in Spared(t, c).dirs
  {
    hide NamesApart, LeadsToRoot, HomeOk, EntryOk, Split, Walk;
    if (c.Remove? || c.Modify?) && Names(t, c.path) {
      NamedDir(t, cb, Split(c.path));
    }
  }

  lemma NamedDir(t: Tree, cb: nat, a: Path)
    requires cb >= 1 && TreeOk(t, cb) && t.root in t.lists && a != [] && Walk(t, t.root, a).Some?
    ensures Walk(t, t.root, a).value.entry.info.isDir ==> Walk(t, t.root, a).value.entry.info.first in t.dirs
  {
    hide NamesApart, LeadsToRoot, HomeOk, CeilDiv, Walk;
    WalkHome(t, cb, t.root, a);
  }

  lemma MakeOnMap(s: State, s': State, z: Shape, path: PathString, isDir: bool)
    requires Sane(s, z) && Sane(s', z) && WellFormed(Base(path)) && MadeBy(s.t, s'.t, z.spc * 512, path, isDir)
    requires Creatable(s.t, path) && FilesKept(s.t, s.heap, s'.heap)
    ensures Follows(s, s', z, Make(path, isDir), 0)
  {
    hide TreeOk, Walk, FilesKept, Split, Base, Cut, WellFormed, SamePrefix, Legible, Created, ParentOf;
    var room, cl, x :| Created(s.t, room, s'.t, z.spc * 512, Split(path), isDir, cl, x);
    forall q
      ensures NodeAt(s', z, q) == NodeAfter(s, z, Make(path, isDir), [], q)
    {
      MadeNodes(s, s', z, Split(path), isDir, room, cl, x, q);
    }
    assert Rewritten(s, z, Make(path, isDir), []);
  }

  lemma RemoveOnMap(s: State, s': State, z: Shape, path: PathString)
    requires Sane(s, z) && Sane(s', z) && Removed(s.t, s'.t, Split(path)) && FilesKept(Spared(s.t, Remove(path)), s.heap, s'.heap)
    ensures Follows(s, s', z, Remove(path), 0)
  {
    hide TreeOk, Walk, FilesKept, Split, SamePrefix, Legible, Joined, Unlisted;
    forall q
      ensures NodeAt(s', z, q) == NodeAfter(s, z, Remove(path), [], q)
    {
      RemovedNodes(s, s', z, Split(path), q);
    }
    assert Rewritten(s, z, Remove(path), []);
  }

  lemma MoveOnMap(s: State, s': State, z: Shape, from: PathString, to: PathString)
    requires Sane(s, z) && Sane(s', z) && Acceptable(Move(from, to)) && MovedBy(s.t, s'.t, z.spc * 512, from, to)
    requires RenameResult(s.t, from, to) == 0 && FilesKept(s.t, s.heap, s'.heap)
    ensures Follows(s, s', z, Move(from, to), 0)
  {
    hide TreeOk, Walk, FilesKept, Split, Base, Cut, WellFormed, SamePrefix, Legible, Renamed, ParentOf;
    var cb := z.spc * 512;
    var room, cl, y :| Renamed(s.t, room, s'.t, cb, Split(from), Split(to), cl, y);
    forall q
      ensures NodeAt(s', z, q) == NodeAfter(s, z, Move(from, to), [], q)
    {
      MovedNodes(s, s', z, Split(from), Split(to), room, cl, y, q);
    }
    assert Rewritten(s, z, Move(from, to), []);
  }

  lemma ModifyOnMap(s: State, s': State, z: Shape, path: PathString, ops: seq<Runs.Op>)
    requires Sane(s, z) && Sane(s', z) && ModifiedBy(s, s', z.spc, path, ops)
    requires !Walk(s.t, s.t.root, Split(path)).value.entry.info.isDir
    requires FilesKept(Spared(s.t, Modify(path, ops)), s.heap, s'.heap)
    ensures Follows(s, s', z, Modify(path, ops), 0)
  {
    hide TreeOk, Walk, FilesKept, Split, SamePrefix, Legible, EntryReplaced, FileBytes, FlatSession;
    var c, a := Modify(path, ops), Split(path);
    var h := Walk(s.t, s.t.root, a).value;
    var y, pos, done :| ModifiedAs(s, s', z.spc, h, y, pos, ops, done);
    var bytes := FileBytes(s'.heap, z.spc, s'.t, y);
    forall q
      ensures NodeAt(s', z, q) == NodeAfter(s, z, c, bytes, q)
    {
      ReplacedNodes(s, s', z, a, y, q);
    }
    assert Rewritten(s, z, c, bytes);
  }

  // ---- whole runs ----

  /** Every command of a run makes of the map what it says. */
  lemma RunOnMap(states: seq<State>, cmds: seq<Command>, results: seq<int>, z: Shape, i: nat)
    requires History(states, cmds, results, z) && i < |results| && (Sane(states[|results|], z) || Torn(states, cmds, results, z))
    ensures Sane(states[i], z) && Legible(states[i + 1], z) && Follows(states[i], states[i + 1], z, cmds[i], results[i])
  {
    hide Effect, Acceptable, Tears, Sane, Follows;
    assert HistoryAt(states, cmds, results, z, i);
    if i + 1 < |results| {
      assert HistoryAt(states, cmds, results, z, i + 1);
    } else if !Sane(states[i + 1], z) {
      TearsWithoutRoom(states[i], states[i + 1], z, cmds[i], results[i]);
    }
    CommandOnMap(states[i], states[i + 1], z, cmds[i], results[i]);
  }

  /** The command is about this path or one above it. */
  ghost predicate Concerns(c: Command, q: Path) {
    match c
    case Make(path, _) => SamePath(Split(path), q)
    case Remove(path) => SamePrefix(Split(path), q)
    case Move(from, to) => SamePrefix(Split(from), q) || SamePrefix(Split(to), q)
    case Modify(path, _) => SamePath(Split(path), q)
  }

  /** Whatever else a run does, a path names the same folder or the same bytes until a command that
    * succeeds is about it or about a path above it.
    */
  lemma {:induction false} Undisturbed(states: seq<State>, cmds: seq<Command>, results: seq<int>, z: Shape, i: nat, j: nat, q: Path)
    requires History(states, cmds, results, z) && (Sane(states[|results|], z) || Torn(states, cmds, results, z))
    requires i <= j <= |results| && Legible(states[i], z)
    requires forall k :: i <= k < j && results[k] == 0 ==> !Concerns(cmds[k], q)
    ensures Legible(states[j], z) && NodeAt(states[j], z, q) == NodeAt(states[i], z, q)
    decreases j
  {
    hide History, Sane, Legible, NodeAt, Split, SamePrefix, Torn;
    if i < j {
      Undisturbed(states, cmds, results, z, i, j - 1, q);
      RunOnMap(states, cmds, results, z, j - 1);
    }
  }

  lemma NewIsEmpty(s: State, z: Shape, root: nat)
    requires s.t == ExfatMount.NewTree(root)
    ensures Legible(s, z) && forall q :: NodeAt(s, z, q) == if q == [] then Some(Folder) else None
  {
  }

  method RunFromNew(v: Volume, root: nat, cmds: seq<Command>, ghost fixed: set<nat>) returns (results: seq<int>, ghost states: seq<State>)
    requires FsOk(v, ExfatMount.NewTree(root), fixed, {}) && forall i :: 0 <= i < |cmds| ==> Acceptable(cmds[i])
    modifies v
    ensures History(states, cmds, results, Shape(v.g.spc, v.g.count)) && Legible(states[0], Shape(v.g.spc, v.g.count))
    ensures forall q :: NodeAt(states[0], Shape(v.g.spc, v.g.count), q) == if q == [] then Some(Folder) else None
    ensures forall i :: 0 <= i < |results| ==> FollowsAt(states, cmds, results, Shape(v.g.spc, v.g.count), i)
  {
    hide History, Torn, NodeAt, Follows, Sane, Legible, Acceptable, FsOk, Stored;
    ghost var z := Shape(v.g.spc, v.g.count);
    results, states := RunCommands(v, root, cmds, ExfatMount.NewTree(root), fixed, {});
    HistoryLengths(states, cmds, results, z);
    NewIsEmpty(states[0], z, root);
    forall i | 0 <= i < |results|
      ensures FollowsAt(states, cmds, results, z, i)
    {
      RunOnMap(states, cmds, results, z, i);
    }
  }

  lemma HistoryLengths(states: seq<State>, cmds: seq<Command>, results: seq<int>, z: Shape)
    requires History(states, cmds, results, z)
    ensures |states| == |results| + 1 && |results| <= |cmds|
  {
  }

  /** From the format on: a new volume names nothing but its root, and every command of a run makes of
    * the map what it says.
    */
  method FormatAndRun(dev: Device, sectors: nat, bps: nat, lab: seq<nat>, cmds: seq<Command>)
    returns (r: int, results: seq<int>, ghost states: seq<State>, ghost z: Shape)
    requires |dev.disk| == sectors < 0x1_0000_0000 && |lab| <= LABEL_MAX
    requires forall i :: 0 <= i < |cmds| ==> Acceptable(cmds[i])
    modifies dev
    ensures r == if Plan(sectors, bps).Accepted? then 0 else Plan(sectors, bps).code
    ensures r == 0 ==>
              && History(states, cmds, results, z) && Legible(states[0], z)
              && (forall q :: NodeAt(states[0], z, q) == if q == [] then Some(Folder) else None)
              && forall i :: 0 <= i < |results| ==> FollowsAt(states, cmds, results, z, i)
  {
    hide *;
    results, states, z := [], [], Shape(0, 0);
    var v, root;
    r, v, root := ExfatMount.FormatAndMount(dev, sectors, bps, lab);
    if r != 0 {
      return;
    }
    ExfatMount.RefusedCode2(sectors, bps, r);
    z := Shape(v.g.spc, v.g.count);
    results, states := RunFromNew(v, root, cmds, Clusters(Plan(sectors, bps).layout.UsedClusters()) - {root});
  }

  ghost predicate FollowsAt(states: seq<State>, cmds: seq<Command>, results: seq<int>, z: Shape, i: nat) {
    && i < |results| <= |cmds| && i + 1 < |states| && Sane(states[i], z) && Legible(states[i + 1], z)
    && Follows(states[i], states[i + 1], z, cmds[i], results[i])
  }

  // ---- results, said of the map ----

  /** A path can be made if and only if it fits the buffers, its folder is there, nothing is at the path
    * and its last name is acceptable.
    */
  lemma CreatableOnMap(s: State, z: Shape, path: PathString)
    requires Sane(s, z) && WellFormed(Base(path))
    ensures var a := Split(path);
            Creatable(s.t, path) <==>
            a != [] && ParentFits(path) && NameOk(Base(path)) && NodeAt(s, z, a[..|a| - 1]) == Some(Folder) && NodeAt(s, z, a) == None
  {
    hide TreeOk, Walk, Split, Base, Cut, WellFormed, FileBytes, Readable;
    if Split(path) != [] {
      ParentSeen(s.t, Split(path));
      FolderSeen(s, z, Split(path)[..|Split(path)| - 1]);
    }
  }

  lemma FolderSeen(s: State, z: Shape, q: Path)
    requires Sane(s, z)
    ensures NodeAt(s, z, q).Some? <==> Seen(s.t, q).Some?
    ensures NodeAt(s, z, q) == Some(Folder) <==> Seen(s.t, q).Some? && Seen(s.t, q).value.isDir
  {
    hide TreeOk, Walk, FileBytes, Readable;
    if q != [] && Walk(s.t, s.t.root, q).Some? {
      WalkListed(s.t, s.t.root, q);
    }
  }

  /** A removal is refused exactly if nothing is at the path, or a folder with something in it. */
  lemma RemovableOnMap(s: State, z: Shape, a: Path)
    requires Sane(s, z)
    ensures UnlinkResult(s.t, a) ==
            if a == [] || NodeAt(s, z, a) == None then ERR_INVALID
            else if exists n :: NodeAt(s, z, a + [n]).Some? then ERR_NOT_EMPTY
            else 0
  {
    hide TreeOk, Walk, FileBytes, Readable, SameName;
    var t, cb := s.t, z.spc * 512;
    RootListed(t, cb);
    if a != [] && Walk(t, t.root, a).Some? {
      WalkListed(t, t.root, a);
      NamedDir(t, cb, a);
      ChainsInTree(t, cb);
      var x := Walk(t, t.root, a).value.entry;
      forall n
        ensures NodeAt(s, z, a + [n]).Some? <==> x.info.isDir && FirstNamed(t.lists[x.info.first], n).Some?
      {
        var q := a + [n];
        assert q[..|q| - 1] == a;
        FolderSeen(s, z, q);
        WalkLast(t, cb, t.root, q);
      }
      if x.info.isDir && t.lists[x.info.first] != [] {
        var y := t.lists[x.info.first][0];
        SameNameReflexive(y.info.name);
        assert NodeAt(s, z, a + [y.info.name]).Some?;
      }
    }
  }

  /** What a rename comes to, but for room. */
  lemma RenameOnMap(s: State, z: Shape, from: PathString, to: PathString)
    requires Sane(s, z) && WellFormed(Base(to))
    ensures var a, b := Split(from), Split(to);
            RenameResult(s.t, from, to) ==
            if a == [] || NodeAt(s, z, a) == None then ERR_INVALID
            else if NodeAt(s, z, b).Some? then ERR_EXISTS
            else if !ParentFits(to) || !NameOk(Base(to)) || NodeAt(s, z, b[..|b| - 1]) != Some(Folder) then ERR_INVALID
            else 0
  {
    hide TreeOk, Walk, Split, Base, Cut, WellFormed, FileBytes, Readable;
    if Split(from) != [] {
      FolderSeen(s, z, Split(from));
    }
    FolderSeen(s, z, Split(to));
    if Split(to) != [] {
      ParentSeen(s.t, Split(to));
      FolderSeen(s, z, Split(to)[..|Split(to)| - 1]);
    }
  }
}
