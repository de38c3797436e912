/** Runs of namespace commands: whatever is created, removed, renamed, written and truncated,
  * in any order, each command has its exact effect on the tree and on the files' bytes, and the
  * volume stays a file system with single ownership unless a command tears it.
  */
module ExfatCommands {
  import opened Arith
  import opened Bytes
  import opened ExfatScan
  import opened ExfatVolume
  import opened ExfatContents
  import opened ExfatFile
  import opened ExfatNames
  import opened ExfatEntrySet
  import opened ExfatPaths
  import opened ExfatDirectory
  import opened ExfatDirVolume
  import opened ExfatTree
  import opened ExfatSteps
  import opened ExfatTreeLaws
  import opened ExfatNamespace
  import opened ExfatCreate
  import opened ExfatUnlink
  import opened ExfatRename
  import opened ExfatUpdate
  import Runs = ExfatRuns

  type Path = seq<seq<byte>>
  type PathString = seq<byte>

  datatype Command =
    | Make(path: PathString, isDir: bool)
    | Remove(path: PathString)
    | Move(from: PathString, to: PathString)
    | Modify(path: PathString, ops: seq<Runs.Op>)

  /** Component by component the same name, as far as `a` goes. */
  predicate SamePrefix(a: Path, b: Path) {
    |a| <= |b| && forall i :: 0 <= i < |a| ==> SameName(a[i], b[i])
  }

  /** What a caller must see to: well-formed new names, and no move of a directory below itself. */
  predicate Acceptable(c: Command) {
    match c
    case Make(path, _) => WellFormed(Base(path))
    case Move(from, to) => WellFormed(Base(to)) && !SamePrefix(Split(from), Split(to))
    case _ => true
  }

  // ---- the path check for moves ----

  /** The last step of a path that names something. */
  lemma LastStep(t: Tree, cb: nat, a: Path)
    requires cb >= 1 && TreeOk(t, cb) && t.root in t.lists && a != [] && Walk(t, t.root, a).Some?
    ensures var h := Walk(t, t.root, a).value;
            h.dir in t.dirs && h.entry in t.lists[h.dir] && SameName(a[|a| - 1], h.entry.info.name)
    ensures |a| == 1 ==> Walk(t, t.root, a).value.dir == t.root
    ensures |a| > 1 ==>
              var init := Walk(t, t.root, a[..|a| - 1]);
              && init.Some? && init.value.entry.info.isDir && init.value.entry.info.first == Walk(t, t.root, a).value.dir
              && Walk(t, t.root, a).value.dir != t.root && t.home[Walk(t, t.root, a).value.dir] == init.value
  {
    hide NamesApart, SameName, LeadsToRoot, HomeOk, CeilDiv;
    WalkLast(t, cb, t.root, a);
    if |a| > 1 {
      var init := a[..|a| - 1];
      WalkHome(t, cb, t.root, init);
      var h := Walk(t, t.root, init).value;
      assert EntryOk(t, cb, h.dir, h.entry);
    }
  }

  /** Two paths to the same entry are the same path up to case. */
  lemma {:induction false} PathsAgree(t: Tree, cb: nat, a: Path, b: Path)
    requires cb >= 1 && TreeOk(t, cb) && t.root in t.lists && a != [] && b != []
    requires Walk(t, t.root, a).Some? && Walk(t, t.root, b) == Walk(t, t.root, a)
    ensures |a| == |b| && SamePrefix(a, b)
    decreases |a|
  {
    hide NamesApart, LeadsToRoot, HomeOk, EntryOk, SameName, Walk, TreeOk;
    LastStep(t, cb, a);
    LastStep(t, cb, b);
    var h := Walk(t, t.root, a).value;
    if |a| > 1 && |b| > 1 {
      PathsAgree(t, cb, a[..|a| - 1], b[..|b| - 1]);
    }
    SameNameBoth(a[|a| - 1], b[|b| - 1], h.entry.info.name);
  }

  lemma SameNameBoth(a: seq<byte>, b: seq<byte>, c: seq<byte>)
    requires SameName(a, c) && SameName(b, c)
    ensures SameName(a, b)
  {
  }

  /** A directory on a path that does not start with the path of `x` is outside `x`. */
  lemma {:induction false} OutsideByPath(t: Tree, cb: nat, from: Path, path: Path)
    requires cb >= 1 && TreeOk(t, cb) && t.root in t.lists && from != [] && path != []
    requires Walk(t, t.root, from).Some? && Walk(t, t.root, path).Some? && Walk(t, t.root, path).value.entry.info.isDir
    requires Walk(t, t.root, from).value.entry.info.isDir && !SamePrefix(from, path)
    ensures LeadsToRoot(t, Walk(t, t.root, path).value.entry.info.first, Walk(t, t.root, from).value.entry.info.first)
    decreases |path|
  {
    hide NamesApart, HomeOk, SameName, Walk, CeilDiv;
    var x, h := Walk(t, t.root, from).value, Walk(t, t.root, path).value;
    LastStep(t, cb, path);
    LastStep(t, cb, from);
    assert EntryOk(t, cb, h.dir, h.entry) && EntryOk(t, cb, x.dir, x.entry);
    if h == x {
      PathsAgree(t, cb, from, path);
    }
    if |path| > 1 {
      OutsideByPath(t, cb, from, path[..|path| - 1]);
    } else {
      assert Rooted(t, t.root, 0, x.entry.info.first);
    }
    OneMore(t, h.entry.info.first, h.dir, x.entry.info.first);
  }

  /** The path check of `Acceptable` keeps a move out of the moved directory. */
  lemma MoveOutside(t: Tree, cb: nat, from: Path, to: Path)
    requires cb >= 1 && TreeOk(t, cb) && t.root in t.lists && from != [] && to != []
    requires Walk(t, t.root, from).Some? && ParentDir(t, t.root, to).Some? && !SamePrefix(from, to)
    ensures Outside(t, Walk(t, t.root, from).value.entry, ParentDir(t, t.root, to).value)
  {
    hide NamesApart, HomeOk, SameName, CeilDiv;
    var x := Walk(t, t.root, from).value;
    if x.entry.info.isDir {
      if |to| > 1 {
        OutsideByPath(t, cb, from, to[..|to| - 1]);
      } else {
        WalkHome(t, cb, t.root, from);
        assert EntryOk(t, cb, x.dir, x.entry);
        assert Rooted(t, t.root, 0, x.entry.info.first);
      }
    }
  }

  /** A directory on a path that goes on from the path of directory `x` is inside `x`. */
  lemma {:induction false} InsideByPath(t: Tree, cb: nat, from: Path, path: Path)
    requires cb >= 1 && TreeOk(t, cb) && t.root in t.lists && from != [] && path != [] && SamePrefix(from, path)
    requires Walk(t, t.root, from).Some? && Walk(t, t.root, path).Some? && Walk(t, t.root, path).value.entry.info.isDir
    requires Walk(t, t.root, from).value.entry.info.isDir
    ensures !LeadsToRoot(t, Walk(t, t.root, path).value.entry.info.first, Walk(t, t.root, from).value.entry.info.first)
    decreases |path|
  {
    hide NamesApart, HomeOk, SameName, Walk, CeilDiv, SamePrefix;
    var x, h := Walk(t, t.root, from).value, Walk(t, t.root, path).value;
    var k, e := x.entry.info.first, h.entry.info.first;
    PrefixLength(from, path);
    LastStep(t, cb, path);
    LastStep(t, cb, from);
    assert EntryOk(t, cb, h.dir, h.entry) && EntryOk(t, cb, x.dir, x.entry);
    if |from| == |path| {
      WalkCased(t, t.root, from, path);
    } else {
      PrefixInit(from, path);
      InsideByPath(t, cb, from, path[..|path| - 1]);
      forall n: nat
        ensures !Rooted(t, e, n, k)
      {
        if Rooted(t, e, n, k) {
          NotTheRoot(t, cb, h);
          assert Rooted(t, h.dir, n - 1, k);
        }
      }
    }
  }

  lemma PrefixLength(a: Path, b: Path)
    requires SamePrefix(a, b)
    ensures |a| <= |b|
  {
  }

  lemma PrefixInit(a: Path, b: Path)
    requires SamePrefix(a, b) && |a| < |b|
    ensures SamePrefix(a, b[..|b| - 1])
  {
  }

  /** The root has no entry. */
  lemma NotTheRoot(t: Tree, cb: nat, h: Home)
    requires cb >= 1 && TreeOk(t, cb) && h.dir in t.dirs && h.entry in t.lists[h.dir] && h.entry.info.isDir
    ensures h.entry.info.first != t.root && h.entry.info.first in t.home && t.home[h.entry.info.first] == h
  {
    hide NamesApart, LeadsToRoot, CeilDiv, HomeOk;
    assert EntryOk(t, cb, h.dir, h.entry);
  }

  /** However its letters are cased, a path names the same. */
  lemma {:induction false} WalkCased(t: Tree, d: nat, a: Path, b: Path)
    requires d in t.lists && a != [] && |a| == |b| && SamePrefix(a, b)
    ensures Walk(t, d, a) == Walk(t, d, b)
    decreases |a|
  {
    hide SameName;
    FirstCased(t.lists[d], a[0], b[0]);
    var x := FirstNamed(t.lists[d], a[0]);
    if |a| > 1 && x.Some? && x.value.info.isDir && x.value.info.first in t.lists {
      assert forall i :: 0 <= i < |a| - 1 ==> a[1..][i] == a[i + 1] && b[1..][i] == b[i + 1];
      WalkCased(t, x.value.info.first, a[1..], b[1..]);
    }
  }

  lemma {:induction false} FirstCased(l: seq<Listed>, a: seq<byte>, b: seq<byte>)
    requires SameName(a, b)
    ensures FirstNamed(l, a) == FirstNamed(l, b)
  {
    if l != [] {
      SameNameThrough(a, b, l[0].info.name);
      FirstCased(l[1..], a, b);
    }
  }

  lemma SameNameThrough(a: seq<byte>, b: seq<byte>, c: seq<byte>)
    requires SameName(a, b)
    ensures SameName(a, c) <==> SameName(b, c)
  {
  }

  /** A rename that is not refused moves a directory below itself exactly when the new path goes on from
    * the old one. By `ExfatTreeLaws.MovedExactly` that cuts it off the root, and nothing refuses it.
    */
  lemma DetachesExactly(t: Tree, cb: nat, from: PathString, to: PathString)
    requires cb >= 1 && TreeOk(t, cb) && t.root in t.lists && WellFormed(Base(to)) && RenameResult(t, from, to) == 0
    requires Walk(t, t.root, Split(from)).value.entry.info.isDir
    ensures Outside(t, Walk(t, t.root, Split(from)).value.entry, ParentOf(t, t.root, to).value) <==> !SamePrefix(Split(from), Split(to))
  {
    hide NamesApart, HomeOk, SameName, CeilDiv, WellFormed, Base, Cut, Split, Walk, SamePrefix;
    var a, b := Split(from), Split(to);
    if SamePrefix(a, b) {
      PrefixLength(a, b);
      if |a| == |b| {
        WalkCased(t, t.root, a, b);
      } else {
        PrefixInit(a, b);
        InsideByPath(t, cb, a, b[..|b| - 1]);
      }
    } else {
      MoveOutside(t, cb, a, b);
    }
  }

  // ---- commands ----

  /** What a command can change of a volume: the tree it holds, the sectors of its clusters, the
    * clusters in use, where the allocator goes on, and which clusters in use belong to nobody.
    */
  datatype State = State(t: Tree, heap: seq<seq<Sector>>, used: set<nat>, next: nat, leaked: set<nat>)

  ghost function StateOf(v: Volume, t: Tree, leaked: set<nat>): State
    reads v
  {
    State(t, v.heap, v.used, v.nextFree, leaked)
  }

  /** What the volume is laid out as: sectors in a cluster, and clusters. */
  datatype Shape = Shape(spc: nat, count: nat)

  ghost predicate MadeBy(t: Tree, t': Tree, cb: nat, path: PathString, isDir: bool) {
    exists room, cl, x :: Created(t, room, t', cb, Split(path), isDir, cl, x)
  }

  ghost predicate MovedBy(t: Tree, t': Tree, cb: nat, from: PathString, to: PathString) {
    exists room, cl, y :: Renamed(t, room, t', cb, Split(from), Split(to), cl, y)
  }

  /** The directory a path's last component would be in took every free cluster, unrecorded. */
  ghost predicate VainGrowth(t: Tree, t': Tree, to: PathString, free: nat) {
    exists cl :: TargetUnrecorded(t, t', to, cl, free)
  }

  /** The path names a file or directory other than the root. */
  ghost predicate Names(t: Tree, path: PathString) {
    t.root in t.lists && Split(path) != [] && Walk(t, t.root, Split(path)).Some?
  }

  /** The entry the path names was replaced, and its bytes are those the operations make of what they
    * were. Clusters are lost only if one of them was issued and failed.
    */
  ghost predicate ModifiedBy(s: State, s': State, spc: nat, path: PathString, ops: seq<Runs.Op>) {
    && spc >= 1 && Names(s.t, path)
    && var h := Walk(s.t, s.t.root, Split(path)).value; exists y, pos, done :: ModifiedAs(s, s', spc, h, y, pos, ops, done)
  }

  ghost predicate ModifiedAs(s: State, s': State, spc: nat, h: Home, y: Listed, pos: nat, ops: seq<Runs.Op>, done: seq<Done>)
    requires spc >= 1
  {
    && EntryReplaced(s.t, s'.t, h.dir, h.entry, y, ClustersOf(s'.t, y))
    && Readable(s.heap, spc, s.t, h.entry) && Readable(s'.heap, spc, s'.t, y)
    && FlatSession(Runs.Flat(FileBytes(s.heap, spc, s.t, h.entry), 0), Runs.Flat(FileBytes(s'.heap, spc, s'.t, y), pos), ops, done, spc * 512)
    && s.leaked <= s'.leaked && (!SomeFailed(done) ==> s'.leaked == s.leaked)
  }

  /** The command would grow a directory in vain. */
  ghost predicate Tears(s: State, z: Shape, c: Command)
    requires s.t.root in s.t.lists && Acceptable(c)
  {
    match c
    case Make(path, isDir) => CreateTears(s.heap, z.spc, Deliverable(z.count, s.used, s.next), s.t, path, isDir)
    case Move(from, to) => RenameTears(s.heap, z.spc, Deliverable(z.count, s.used, s.next), s.t, from, to)
    case _ => false
  }

  /** What a command did, by its result. */
  ghost predicate Effect(s: State, s': State, z: Shape, c: Command, r: int)
    requires s.t.root in s.t.lists && Acceptable(c)
  {
    var free := Deliverable(z.count, s.used, s.next);
    && FilesKept(Spared(s.t, c), s.heap, s'.heap) && (!c.Modify? ==> s'.leaked == s.leaked)
    && match c
       case Make(path, isDir) =>
         && (r == ERR_INVALID <==> !Creatable(s.t, path))
         && (r == ERR_NO_SPACE <==> CreateFails(s.heap, z.spc, free, s.t, path, isDir))
         && (if r == 0 then MadeBy(s.t, s'.t, z.spc * 512, path, isDir)
             else if r == ERR_NO_SPACE then VainGrowth(s.t, s'.t, path, Spare(free, isDir))
             else s'.t == s.t)
       case Remove(path) => r == UnlinkResult(s.t, Split(path)) && (if r == 0 then Removed(s.t, s'.t, Split(path)) else s'.t == s.t)
       case Move(from, to) =>
         && r == (if RenameFails(s.heap, z.spc, free, s.t, from, to) then ERR_NO_SPACE else RenameResult(s.t, from, to))
         && (if r == 0 then MovedBy(s.t, s'.t, z.spc * 512, from, to)
             else if r == ERR_NO_SPACE then VainGrowth(s.t, s'.t, to, free)
             else s'.t == s.t)
       case Modify(path, ops) =>
         && r == (if Names(s.t, path) && !Walk(s.t, s.t.root, Split(path)).value.entry.info.isDir then 0 else ERR_INVALID)
         && (if r == 0 then ModifiedBy(s, s', z.spc, path, ops) else s'.t == s.t && s'.leaked == s.leaked)
  }

  /** The files a command leaves alone: all but the one removed or modified. */
  ghost function Spared(t: Tree, c: Command): Tree
    requires t.root in t.lists
  {
    match c
    case Remove(path) =>
      if Names(t, path) then Released(t, Walk(t, t.root, Split(path)).value.entry.info.first) else t
    case Modify(path, _) =>
      if Names(t, path) then Released(t, Walk(t, t.root, Split(path)).value.entry.info.first) else t
    case _ => t
  }

  lemma SparedKept(t: Tree, c: Command, heap: seq<seq<Sector>>)
    requires t.root in t.lists
    ensures FilesKept(Spared(t, c), heap, heap)
  {
    FilesKeptSelf(Spared(t, c), heap);
  }

  method DoModify(v: Volume, root: nat, path: PathString, ops: seq<Runs.Op>, ghost t: Tree, ghost fixed: set<nat>, ghost leaked: set<nat>)
    returns (r: int, ghost t': Tree, ghost leaked': set<nat>)
    requires FsOk(v, t, fixed, leaked) && root == t.root && root in t.lists
    modifies v
    ensures FsOk(v, t', fixed, leaked')
    ensures r == if Names(t, path) && !Walk(t, root, Split(path)).value.entry.info.isDir then 0 else ERR_INVALID
    ensures if r == 0 then ModifiedBy(old(StateOf(v, t, leaked)), StateOf(v, t', leaked'), v.g.spc, path, ops) else t' == t && leaked' == leaked
    ensures FilesKept(Spared(t, Modify(path, ops)), old(v.heap), v.heap)
  {
    hide Split, Matches, Held, Accounted, TreeOk, FilesKept, EntryReplaced, Walk, Session, FlatSession, FileBytes, SomeFailed, Runs.NoneFailed;
    ghost var cb, s := v.g.spc * 512, StateOf(v, t, leaked);
    RootListed(t, cb);
    SparedKept(t, Modify(path, ops), v.heap);
    t', leaked' := t, leaked;
    var er, w := Resolve(v, root, path, t, fixed, leaked);
    if er == 0 || w.isDir {
      return ERR_INVALID, t', leaked';
    }
    WalkHome(t, cb, root, Split(path));
    InTree(t, cb, w.dirCluster);
    ghost var x := Walk(t, root, Split(path)).value.entry;
    ghost var y;
    var f, log;
    f, log, t', y, leaked' := UpdateFile(v, w, ops, t, fixed, leaked, x);
    SessionIsFlat(Runs.Flat(FileBytes(s.heap, v.g.spc, t, x), 0), Runs.Flat(FileBytes(v.heap, v.g.spc, t', y), f.pos), f, ops, log, cb);
    assert ModifiedAs(s, StateOf(v, t', leaked'), v.g.spc, Walk(t, root, Split(path)).value, y, f.pos, ops, Plain(log));
    r := 0;
  }

  method Do(v: Volume, root: nat, c: Command, ghost t: Tree, ghost fixed: set<nat>, ghost leaked: set<nat>)
    returns (r: int, ghost t': Tree, ghost leaked': set<nat>)
    requires FsOk(v, t, fixed, leaked) && root == t.root && root in t.lists && Acceptable(c)
    modifies v
    ensures Stored(v, t', fixed, leaked') && Effect(old(StateOf(v, t, leaked)), StateOf(v, t', leaked'), Shape(v.g.spc, v.g.count), c, r)
    ensures FsOk(v, t', fixed, leaked') <==> !Tears(old(StateOf(v, t, leaked)), Shape(v.g.spc, v.g.count), c)
  {
    hide Matches, Held, Accounted, TreeOk, FilesKept, Walk, Created, Renamed, Removed, WellFormed, SamePrefix, Outside;
    hide Split, Base, Cut, Deliverable, CreateFails, CreateTears, RenameFails, RenameTears, ModifiedBy, Unrecorded, VolumeFull;
    ghost var cb := v.g.spc * 512;
    leaked' := leaked;
    SparedKept(t, c, v.heap);
    match c
    case Make(path, isDir) =>
      ghost var room, cl, x;
      ghost var free := v.Supply();
      r, room, t', cl, x := Create(v, root, path, isDir, t, fixed, leaked);
      assert r == ERR_NO_SPACE ==> TargetUnrecorded(t, t', path, cl, Spare(free, isDir));
    case Remove(path) =>
      r, t' := Unlink(v, root, path, t, fixed, leaked);
    case Move(from, to) =>
      if Split(from) != [] && Walk(t, root, Split(from)).Some? && ParentOf(t, root, to).Some? {
        MoveOutside(t, cb, Split(from), Split(to));
      }
      ghost var room, cl, y;
      r, room, t', cl, y := Rename(v, root, from, to, t, fixed, leaked);
    case Modify(path, ops) =>
      r, t', leaked' := DoModify(v, root, path, ops, t, fixed, leaked);
  }

  /** A file system: the tree is one, and the clusters of every file hold its bytes. */
  ghost predicate Sane(s: State, z: Shape) {
    z.spc >= 1 && TreeOk(s.t, z.spc * 512) && Legible(s, z)
  }

  ghost predicate Legible(s: State, z: Shape) {
    && s.t.root in s.t.lists
    && forall d, x :: d in s.t.lists && x in s.t.lists[d] && !x.info.isDir ==> Readable(s.heap, z.spc, s.t, x)
  }

  lemma SaneWhenOk(v: Volume, t: Tree, fixed: set<nat>, leaked: set<nat>)
    requires FsOk(v, t, fixed, leaked)
    ensures Sane(StateOf(v, t, leaked), Shape(v.g.spc, v.g.count))
  {
    hide Matches, Held, Accounted, NamesApart, LeadsToRoot, HomeOk, EntryOk, Readable;
    RootListed(t, v.g.spc * 512);
    forall d, x | d in t.lists && x in t.lists[d] && !x.info.isDir
      ensures Readable(v.heap, v.g.spc, t, x)
    {
      ReadableInTree(v, t, fixed, leaked, d, x);
    }
  }

  /** The states a run of commands goes through. Every command but the last leaves a file system; the
    * last does so unless it tears.
    */
  ghost predicate History(states: seq<State>, cmds: seq<Command>, results: seq<int>, z: Shape) {
    && |states| == |results| + 1 && |results| <= |cmds|
    && forall i :: 0 <= i < |results| ==> HistoryAt(states, cmds, results, z, i)
  }

  ghost predicate HistoryAt(states: seq<State>, cmds: seq<Command>, results: seq<int>, z: Shape, i: nat)
    requires i < |results| < |states| && |results| <= |cmds|
  {
    && Sane(states[i], z) && states[i].t.root in states[i].t.lists && Acceptable(cmds[i])
    && Effect(states[i], states[i + 1], z, cmds[i], results[i])
    && (i + 1 < |results| ==> !Tears(states[i], z, cmds[i]))
  }

  lemma HistoryMore(states: seq<State>, cmds: seq<Command>, results: seq<int>, z: Shape, s: State, r: int)
    requires History(states, cmds, results, z) && |results| < |cmds| && Sane(states[|results|], z)
    requires results != [] ==>
               var j := |results| - 1; states[j].t.root in states[j].t.lists && Acceptable(cmds[j]) && !Tears(states[j], z, cmds[j])
    requires var i := |results|; states[i].t.root in states[i].t.lists && Acceptable(cmds[i]) && Effect(states[i], s, z, cmds[i], r)
    ensures History(states + [s], cmds, results + [r], z)
  {
    hide Effect, Acceptable, Tears, Sane;
    var states', results' := states + [s], results + [r];
    forall i | 0 <= i < |results'|
      ensures HistoryAt(states', cmds, results', z, i)
    {
      assert states'[i] == states[i];
      if i < |results| {
        assert HistoryAt(states, cmds, results, z, i);
        assert states'[i + 1] == states[i + 1] && results'[i] == results[i];
      }
    }
  }

  /** The last command of the run would grow a directory in vain. */
  ghost predicate Torn(states: seq<State>, cmds: seq<Command>, results: seq<int>, z: Shape) {
    && results != [] && |results| <= |cmds| && |results| < |states|
    && var i := |results| - 1; states[i].t.root in states[i].t.lists && Acceptable(cmds[i]) && Tears(states[i], z, cmds[i])
  }

  lemma TearsSmall(s: State, z: Shape, c: Command)
    requires s.t.root in s.t.lists && Acceptable(c) && z.spc >= 1 && Tears(s, z, c)
    ensures z.spc == 1
  {
    hide CreateTears, RenameTears, WellFormed;
    match c
    case Make(path, isDir) => TearsOnlySmall(s.heap, z.spc, Deliverable(z.count, s.used, s.next), s.t, path, isDir);
    case Move(from, to) => RenameTearsOnlySmall(s.heap, z.spc, Deliverable(z.count, s.used, s.next), s.t, from, to);
    case _ =>
  }

  lemma TearsWithoutRoom(s: State, s': State, z: Shape, c: Command, r: int)
    requires s.t.root in s.t.lists && Acceptable(c) && Effect(s, s', z, c, r) && Tears(s, z, c)
    ensures r == ERR_NO_SPACE
  {
    hide CrampedDir, WellFormed, Creatable, Walk, MadeBy, MovedBy, VainGrowth, FilesKept, InPlace;
  }

  lemma NothingDone(s: State, cmds: seq<Command>, z: Shape)
    ensures History([s], cmds, [], z) && !Torn([s], cmds, [], z)
  {
  }

  /** Any run of acceptable commands: each has its effect on the tree and on the bytes of the files,
    * and no other, and until the last one the volume holds a file system after each, every cluster in
    * use having one owner or being lost. After the last it does exactly if that one did not tear. With
    * 512-byte clusters the run ends early when a command finds no room.
    */
  method RunCommands(v: Volume, root: nat, cmds: seq<Command>, ghost t0: Tree, ghost fixed: set<nat>, ghost leaked0: set<nat>)
    returns (results: seq<int>, ghost states: seq<State>)
    requires FsOk(v, t0, fixed, leaked0) && root == t0.root
    requires forall i :: 0 <= i < |cmds| ==> Acceptable(cmds[i])
    modifies v
    ensures History(states, cmds, results, Shape(v.g.spc, v.g.count)) && states[0] == old(StateOf(v, t0, leaked0))
    ensures var s := states[|results|]; s == StateOf(v, s.t, s.leaked) && Stored(v, s.t, fixed, s.leaked)
    ensures var s := states[|results|]; FsOk(v, s.t, fixed, s.leaked) <==> !Torn(states, cmds, results, Shape(v.g.spc, v.g.count))
    ensures !Torn(states, cmds, results, Shape(v.g.spc, v.g.count)) ==> Sane(states[|results|], Shape(v.g.spc, v.g.count))
    ensures |results| < |cmds| ==> v.g.spc == 1 && results != [] && results[|results| - 1] == ERR_NO_SPACE
    ensures v.g.spc >= 2 ==> !Torn(states, cmds, results, Shape(v.g.spc, v.g.count))
  {
    hide Matches, Stored, TreeOk, Effect, Acceptable, History, Tears, Torn, Sane;
    ghost var z := Shape(v.g.spc, v.g.count);
    ghost var t, leaked := t0, leaked0;
    results, states := [], [StateOf(v, t, leaked)];
    NothingDone(states[0], cmds, z);
    for i := 0 to |cmds|
      invariant |results| == i && |states| == i + 1 && states[0] == old(StateOf(v, t0, leaked0))
      invariant History(states, cmds, results, z) && states[i] == StateOf(v, t, leaked) && t.root == root
      invariant FsOk(v, t, fixed, leaked) && !Torn(states, cmds, results, z)
    {
      RootListed(t, v.g.spc * 512);
      SaneWhenOk(v, t, fixed, leaked);
      ghost var s := states[i];
      var r;
      ghost var t', leaked';
      r, t', leaked' := Do(v, root, cmds[i], t, fixed, leaked);
      ghost var s' := StateOf(v, t', leaked');
      EffectRoot(s, s', z, cmds[i], r);
      RunGoesOn(states, cmds, results, z, s', r);
      results, states := results + [r], states + [s'];
      t, leaked := t', leaked';
      if Tears(s, z, cmds[i]) {
        TearsSmall(s, z, cmds[i]);
        TearsWithoutRoom(s, s', z, cmds[i], r);
      }
      if v.g.spc == 1 && r == ERR_NO_SPACE {
        if FsOk(v, t, fixed, leaked) {
          SaneWhenOk(v, t, fixed, leaked);
        }
        return;
      }
    }
    SaneWhenOk(v, t, fixed, leaked);
  }

  /** One more command after a run that did not tear. */
  lemma RunGoesOn(states: seq<State>, cmds: seq<Command>, results: seq<int>, z: Shape, s: State, r: int)
    requires History(states, cmds, results, z) && |results| < |cmds| && !Torn(states, cmds, results, z) && Sane(states[|results|], z)
    requires var i := |results|; states[i].t.root in states[i].t.lists && Acceptable(cmds[i]) && Effect(states[i], s, z, cmds[i], r)
    ensures History(states + [s], cmds, results + [r], z)
    ensures var i := |results|; Torn(states + [s], cmds, results + [r], z) <==> Tears(states[i], z, cmds[i])
  {
    hide Effect, Acceptable, Tears, Sane;
    if results != [] {
      assert HistoryAt(states, cmds, results, z, |results| - 1);
    }
    HistoryMore(states, cmds, results, z, s, r);
    assert (states + [s])[|results|] == states[|results|];
  }

  lemma EffectRoot(s: State, s': State, z: Shape, c: Command, r: int)
    requires s.t.root in s.t.lists && Acceptable(c) && Effect(s, s', z, c, r)
    ensures s'.t.root == s.t.root
  {
    hide Walk, RoomMade, Added, MovedTo, Joined, Swapped, Creatable, UnlinkResult, RenameResult, FlatSession, CreateFails, RenameFails, FilesKept, WellFormed, Readable, FileBytes;
  }
}
