/** How the tree changes: adding, dropping, moving and updating one entry keep it a file
  * system.
  */
module ExfatTreeLaws {
  import opened Arith
  import opened Bytes
  import opened ExfatContents
  import opened ExfatNames
  import opened ExfatEntrySet
  import opened ExfatDirectory
  import opened ExfatDirVolume
  import opened ExfatTree
  import opened ExfatSteps

  // ---- paths ----

  /** Directories of `t` keep their parents in `t'`. */
  ghost predicate SameParents(t: Tree, t': Tree) {
    && t'.root == t.root
    && forall k :: k in t.dirs ==> k in t'.dirs && (k in t.home ==> k in t'.home && t'.home[k].dir == t.home[k].dir)
  }

  lemma {:induction false} RootedKept(t: Tree, t': Tree, d: nat, n: nat, avoid: nat)
    requires SameParents(t, t') && Rooted(t, d, n, avoid)
    ensures Rooted(t', d, n, avoid)
    decreases n
  {
    if d != t.root {
      RootedKept(t, t', t.home[d].dir, n - 1, avoid);
    }
  }

  lemma LeadsKept(t: Tree, t': Tree, d: nat, avoid: nat)
    requires SameParents(t, t') && LeadsToRoot(t, d, avoid)
    ensures LeadsToRoot(t', d, avoid)
  {
    var n: nat :| Rooted(t, d, n, avoid);
    RootedKept(t, t', d, n, avoid);
  }

  // ---- listings ----

  lemma JoinedMembers(l: seq<Listed>, l': seq<Listed>, x: Listed)
    requires Joined(l, l', x)
    ensures x in l' && forall y :: y in l' <==> y in l || y == x
    ensures |l'| == |l| + 1
  {
    var before, after :| l == before + after && l' == before + [x] + after;
  }

  /** A new name keeps the names of a directory apart. */
  lemma JoinedNames(l: seq<Listed>, l': seq<Listed>, x: Listed)
    requires Joined(l, l', x) && NamesApart(l)
    requires forall y :: y in l ==> !SameName(x.info.name, y.info.name) && !SameName(y.info.name, x.info.name)
    ensures NamesApart(l')
  {
    hide SameName;
    var before, after :| l == before + after && l' == before + [x] + after;
    var n := |before|;
    assert forall i :: 0 <= i < |l'| && i != n ==> l'[i] == l[if i < n then i else i - 1] && l'[i] in l;
  }

  /** What is left of a directory's names stays apart, and the dropped entry is gone. */
  lemma DroppedNames(l: seq<Listed>, l': seq<Listed>, x: Listed)
    requires Joined(l', l, x) && NamesApart(l)
    ensures NamesApart(l') && x !in l'
    ensures forall y :: y in l' ==> y.info.name != x.info.name
  {
    hide SameName;
    var before, after :| l' == before + after && l == before + [x] + after;
    var n := |before|;
    forall i | 0 <= i < |l'|
      ensures l'[i] == l[if i < n then i else i + 1] && l'[i].info.name != x.info.name
    {
      var j := if i < n then i else i + 1;
      assert l[n] == x && l'[i] == l[j];
      SameNameReflexive(x.info.name);
    }
  }

  lemma SameNameReflexive(a: seq<byte>)
    ensures SameName(a, a)
  {
  }

  lemma SameNameSymmetric(a: seq<byte>, b: seq<byte>)
    ensures SameName(a, b) <==> SameName(b, a)
  {
  }

  lemma SwappedMembers(l: seq<Listed>, l': seq<Listed>, x: Listed, y: Listed)
    requires Swapped(l, l', x, [y]) && NamesApart(l)
    ensures x in l && y in l' && forall z :: z in l' <==> (z in l && z != x) || z == y
  {
    hide SameName;
    var before, after :| l == before + [x] + after && l' == before + [y] + after;
    var n := |before|;
    assert l[n] == x;
    SameNameReflexive(x.info.name);
    assert forall i :: 0 <= i < |l| && i != n ==> l'[i] == l[i] && l[i] != x;
    assert l'[n] == y;
    forall z | z in l && z != x
      ensures z in l'
    {
      var i :| 0 <= i < |l| && l[i] == z;
      assert l'[i] == z;
    }
  }

  lemma SwappedNames(l: seq<Listed>, l': seq<Listed>, x: Listed, y: Listed)
    requires Swapped(l, l', x, [y]) && NamesApart(l)
    requires x.info.name == y.info.name ||
             forall z :: z in l && z != x ==> !SameName(y.info.name, z.info.name) && !SameName(z.info.name, y.info.name)
    ensures NamesApart(l')
  {
    hide SameName;
    var before, after :| l == before + [x] + after && l' == before + [y] + after;
    var n := |before|;
    SameNameReflexive(x.info.name);
    assert l[n] == x && l'[n] == y;
    assert forall i :: 0 <= i < |l| && i != n ==> l'[i] == l[i] && l[i] in l && l[i] != x;
  }

  // ---- adding ----

  /** No entry of the listing has the name. */
  ghost predicate FreshName(l: seq<Listed>, name: seq<byte>) {
    forall y :: y in l ==> !SameName(name, y.info.name) && !SameName(y.info.name, name)
  }

  /** An empty file added to directory `d`. */
  lemma FileAdded(t: Tree, cb: nat, d: nat, l: seq<Listed>, x: Listed)
    requires cb >= 1 && TreeOk(t, cb) && d in t.dirs
    requires Joined(t.lists[d], l, x) && FreshName(t.lists[d], x.info.name)
    requires x.info.first < 2 && !x.info.isDir && x.info.size == x.info.valid == 0
    ensures TreeOk(Relisted(t, d, l), cb)
  {
    hide NamesApart, SameName, Joined, Rooted, CeilDiv;
    var t' := Relisted(t, d, l);
    JoinedMembers(t.lists[d], l, x);
    JoinedNames(t.lists[d], l, x);
    forall e, y | e in t'.dirs && y in t'.lists[e]
      ensures EntryOk(t', cb, e, y)
    {
      if !(e == d && y == x) {
        assert EntryOk(t, cb, e, y);
      }
    }
    forall k | k in t'.home
      ensures HomeOk(t', k)
    {
      assert HomeOk(t, k);
    }
    forall e | e in t'.dirs
      ensures LeadsToRoot(t', e, 0)
    {
      LeadsKept(t, t', e, 0);
    }
  }

  /** The tree with the directory at cluster `nc` added to directory `d` as entry `x`. */
  function DirAdded(t: Tree, d: nat, l: seq<Listed>, nc: nat, x: Listed): Tree {
    Relisted(WithDir(t, nc), d, l).(home := t.home[nc := Home(d, x)])
  }

  /** A new empty directory added to directory `d`. */
  lemma DirAddedOk(t: Tree, cb: nat, d: nat, l: seq<Listed>, nc: nat, x: Listed)
    requires cb >= 1 && TreeOk(t, cb) && d in t.dirs && nc !in t.chains && 2 <= nc < 0x1_0000_0000
    requires Joined(t.lists[d], l, x) && FreshName(t.lists[d], x.info.name)
    requires x.info.first == nc && x.info.isDir && !x.info.contiguous && x.info.size == x.info.valid == cb < 0x1_0000_0000
    ensures TreeOk(DirAdded(t, d, l, nc, x), cb)
  {
    hide NamesApart, SameName, Joined, Rooted, CeilDiv;
    var t' := DirAdded(t, d, l, nc, x);
    JoinedMembers(t.lists[d], l, x);
    JoinedNames(t.lists[d], l, x);
    forall e, y | e in t'.dirs && y in t'.lists[e]
      ensures EntryOk(t', cb, e, y)
    {
      if !(e == d && y == x) {
        assert EntryOk(t, cb, e, y);
      }
    }
    forall k | k in t'.home
      ensures HomeOk(t', k)
    {
      if k != nc {
        assert HomeOk(t, k);
      }
    }
    assert NamesApart([]) by { NoNames(); }
    forall e | e in t'.dirs
      ensures LeadsToRoot(t', e, 0)
    {
      LeadsKept(t, t', if e == nc then d else e, 0);
      if e == nc {
        OneMore(t', nc, d, 0);
      }
    }
  }

  lemma NoNames()
    ensures NamesApart([])
  {
  }

  lemma OneMore(t: Tree, e: nat, d: nat, avoid: nat)
    requires e in t.dirs && e != avoid && e in t.home && t.home[e].dir == d && LeadsToRoot(t, d, avoid)
    ensures LeadsToRoot(t, e, avoid)
  {
    var n: nat :| Rooted(t, d, n, avoid);
    assert Rooted(t, e, n + 1, avoid);
  }

  // ---- dropping ----

  /** The tree without the chain `k`. */
  function Released(t: Tree, k: nat): Tree {
    t.(chains := t.chains - {k}, dirs := t.dirs - {k}, lists := t.lists - {k}, home := t.home - {k})
  }

  /** An entry dropped from directory `d` together with its chain. A directory must be empty. */
  lemma EntryDropped(t: Tree, cb: nat, d: nat, l: seq<Listed>, x: Listed)
    requires cb >= 1 && TreeOk(t, cb) && d in t.dirs && x in t.lists[d] && Joined(l, t.lists[d], x)
    requires x.info.isDir ==> x.info.first in t.lists && t.lists[x.info.first] == []
    ensures x.info.first != t.root && x.info.first != d
    ensures TreeOk(Relisted(Released(t, x.info.first), d, l), cb)
  {
    hide NamesApart, SameName, Joined, Rooted, CeilDiv;
    var k := x.info.first;
    var t' := Relisted(Released(t, k), d, l);
    assert EntryOk(t, cb, d, x);
    JoinedMembers(l, t.lists[d], x);
    DroppedNames(t.lists[d], l, x);
    forall e | e in t.dirs
      ensures e >= 2
    {
      DirsAreClusters(t, cb, e);
    }
    NoChildren(t, cb, k, d, x);
    forall e, y | e in t'.dirs && y in t'.lists[e]
      ensures EntryOk(t', cb, e, y)
    {
      assert y in t.lists[e];
      assert EntryOk(t, cb, e, y);
      assert y.info.first == k && k >= 2 ==> e == d && y == x;
    }
    forall m | m in t'.home
      ensures HomeOk(t', m)
    {
      assert HomeOk(t, m);
    }
    forall e | e in t'.dirs
      ensures NamesApart(t'.lists[e])
    {
    }
    forall e | e in t'.dirs
      ensures LeadsToRoot(t', e, 0)
    {
      var n: nat :| Rooted(t, e, n, 0);
      RootedAround(t, t', e, n, k);
    }
  }

  lemma DirsAreClusters(t: Tree, cb: nat, e: nat)
    requires cb >= 1 && TreeOk(t, cb) && e in t.dirs
    ensures e >= 2
  {
    if e != t.root {
      assert e in t.home;
      assert HomeOk(t, e);
    }
  }

  /** Nothing is homed in a file or in an empty directory. */
  lemma NoChildren(t: Tree, cb: nat, k: nat, d: nat, x: Listed)
    requires cb >= 1 && TreeOk(t, cb) && d in t.dirs && x in t.lists[d] && x.info.first == k
    requires x.info.isDir ==> k in t.lists && t.lists[k] == []
    ensures forall m :: m in t.home ==> t.home[m].dir != k
  {
    hide CeilDiv;
    assert EntryOk(t, cb, d, x);
    forall m | m in t.home
      ensures t.home[m].dir != k
    {
      assert HomeOk(t, m);
      DirsAreClusters(t, cb, t.home[m].dir);
    }
  }

  /** Paths that do not end at `k` do not go through it either. */
  lemma {:induction false} RootedAround(t: Tree, t': Tree, e: nat, n: nat, k: nat)
    requires Rooted(t, e, n, 0) && e != k && t'.root == t.root && t'.dirs == t.dirs - {k}
    requires t'.home == t.home - {k} && forall m :: m in t.home ==> t.home[m].dir != k
    ensures LeadsToRoot(t', e, 0)
    decreases n
  {
    if e == t.root {
      assert Rooted(t', e, 0, 0);
    } else {
      RootedAround(t, t', t.home[e].dir, n - 1, k);
      OneMore(t', e, t.home[e].dir, 0);
    }
  }

  // ---- updating ----

  /** The tree after entry `x` of directory `d` became `y`, whose chain is `cl`. */
  function Rehomed(t: Tree, d: nat, l: seq<Listed>, x: Listed, y: Listed, cl: seq<nat>): Tree {
    var k, m := x.info.first, y.info.first;
    t.(chains := if m >= 2 then (t.chains - {k})[m := cl] else t.chains - {k},
       lists := t.lists[d := l],
       home := if m >= 2 then (t.home - {k})[m := Home(d, y)] else t.home - {k})
  }

  /** `y` is `x` with allocation fields that describe the chain `cl`. */
  ghost predicate Describes(t: Tree, cb: nat, x: Listed, y: Listed, cl: seq<nat>)
    requires cb >= 1
  {
    var i := y.info;
    && i.name == x.info.name && i.isDir == x.info.isDir && i.valid <= i.size
    && i.first < 0x1_0000_0000 && i.size < 0x1_0000_0000_0000_0000
    && (i.first >= 2 ==> i.first == x.info.first || i.first !in t.chains)
    && (i.first < 2 ==> !i.isDir && i.size == 0)
    && (i.isDir ==> i.first == x.info.first && !i.contiguous && i.size == |cl| * cb)
    && (!i.isDir && i.first >= 2 ==> |cl| == Max(1, CeilDiv(i.size, cb)))
  }

  lemma UpdatedEntry(t: Tree, cb: nat, d: nat, l: seq<Listed>, x: Listed, y: Listed, cl: seq<nat>, e: nat, z: Listed)
    requires cb >= 1 && TreeOk(t, cb) && d in t.dirs && x in t.lists[d] && Describes(t, cb, x, y, cl)
    requires e in t.dirs && ((e == d && z == y) || (z in t.lists[e] && !(e == d && z == x)))
    ensures EntryOk(Rehomed(t, d, l, x, y, cl), cb, e, z)
  {
    hide NamesApart, Rooted, CeilDiv;
    assert EntryOk(t, cb, d, x);
    if !(e == d && z == y) {
      assert EntryOk(t, cb, e, z);
      assert z.info.first >= 2 && z.info.first == x.info.first ==> e == d && z == x;
    }
  }

  lemma UpdatedHome(t: Tree, cb: nat, d: nat, l: seq<Listed>, x: Listed, y: Listed, cl: seq<nat>, m: nat)
    requires cb >= 1 && TreeOk(t, cb) && d in t.dirs && x in t.lists[d] && Swapped(t.lists[d], l, x, [y])
    requires Describes(t, cb, x, y, cl) && m in Rehomed(t, d, l, x, y, cl).home
    ensures HomeOk(Rehomed(t, d, l, x, y, cl), m)
  {
    hide NamesApart, SameName, Swapped, LeadsToRoot, CeilDiv;
    SwappedMembers(t.lists[d], l, x, y);
    assert EntryOk(t, cb, d, x);
    if m != y.info.first {
      assert HomeOk(t, m);
    }
  }

  /** An entry's allocation fields changed along with its chain. */
  lemma EntryUpdated(t: Tree, cb: nat, d: nat, l: seq<Listed>, x: Listed, y: Listed, cl: seq<nat>)
    requires cb >= 1 && TreeOk(t, cb) && d in t.dirs && x in t.lists[d] && Swapped(t.lists[d], l, x, [y])
    requires Describes(t, cb, x, y, cl)
    ensures TreeOk(Rehomed(t, d, l, x, y, cl), cb)
  {
    hide NamesApart, SameName, Swapped, Rooted, CeilDiv, HomeOk;
    var t' := Rehomed(t, d, l, x, y, cl);
    assert EntryOk(t, cb, d, x);
    SwappedMembers(t.lists[d], l, x, y);
    SwappedNames(t.lists[d], l, x, y);
    forall e | e in t.dirs
      ensures e >= 2
    {
      DirsAreClusters(t, cb, e);
    }
    forall e, z | e in t'.dirs && z in t'.lists[e]
      ensures EntryOk(t', cb, e, z)
    {
      UpdatedEntry(t, cb, d, l, x, y, cl, e, z);
    }
    forall m | m in t'.home
      ensures HomeOk(t', m)
    {
      UpdatedHome(t, cb, d, l, x, y, cl, m);
    }
    forall e | e in t'.dirs
      ensures LeadsToRoot(t', e, 0)
    {
      LeadsKept(t, t', e, 0);
    }
  }

  // ---- moving ----

  /** Entry `x` of directory `d` became `y` in directory `d2`; the listings are given. */
  function Moved(t: Tree, d: nat, l: seq<Listed>, x: Listed, d2: nat, l2: seq<Listed>, y: Listed): Tree {
    t.(lists := if d == d2 then t.lists[d := l] else t.lists[d := l][d2 := l2],
       home := if y.info.first >= 2 then t.home[y.info.first := Home(d2, y)] else t.home)
  }

  lemma MovedEntry(t: Tree, cb: nat, d: nat, l: seq<Listed>, x: Listed, d2: nat, l2: seq<Listed>, y: Listed, e: nat, z: Listed)
    requires cb >= 1 && TreeOk(t, cb) && d in t.dirs && x in t.lists[d] && y.info == x.info.(name := y.info.name)
    requires e in t.dirs && ((e == d2 && z == y) || (z in t.lists[e] && !(e == d && z == x)))
    ensures EntryOk(Moved(t, d, l, x, d2, l2, y), cb, e, z)
  {
    hide NamesApart, Rooted, CeilDiv;
    assert EntryOk(t, cb, d, x);
    if !(e == d2 && z == y) {
      assert EntryOk(t, cb, e, z);
      assert z.info.first >= 2 && z.info.first == x.info.first ==> e == d && z == x;
    }
  }

  /** An entry moved, keeping all but its name. A directory does not move under itself. */
  lemma EntryMoved(t: Tree, cb: nat, d: nat, l: seq<Listed>, x: Listed, d2: nat, l2: seq<Listed>, y: Listed)
    requires cb >= 1 && TreeOk(t, cb) && d in t.dirs && d2 in t.dirs && x in t.lists[d]
    requires y.info == x.info.(name := y.info.name) && FreshName(t.lists[d2], y.info.name)
    requires d != d2 ==> Joined(l, t.lists[d], x) && Joined(t.lists[d2], l2, y)
    requires d == d2 ==> Swapped(t.lists[d], l, x, [y]) || (Joined(t.lists[d], l2, y) && Joined(l, l2, x))
    requires x.info.isDir ==> LeadsToRoot(t, d2, x.info.first)
    ensures TreeOk(Moved(t, d, l, x, d2, l2, y), cb)
  {
    hide NamesApart, SameName, Joined, Swapped, Rooted, CeilDiv, FreshName;
    var t' := Moved(t, d, l, x, d2, l2, y);
    assert EntryOk(t, cb, d, x);
    MovedLists(t, cb, d, l, x, d2, l2, y);
    forall e | e in t.dirs
      ensures e >= 2
    {
      DirsAreClusters(t, cb, e);
    }
    forall e, z | e in t'.dirs && z in t'.lists[e]
      ensures EntryOk(t', cb, e, z)
    {
      MovedEntry(t, cb, d, l, x, d2, l2, y, e, z);
    }
    forall m | m in t'.home
      ensures HomeOk(t', m)
    {
      assert HomeOk(t, m);
    }
    forall e | e in t'.dirs
      ensures LeadsToRoot(t', e, 0)
    {
      MovedLeads(t, cb, d, l, x, d2, l2, y, e);
    }
  }

  /** Every directory still leads to the root after a move. */
  lemma MovedLeads(t: Tree, cb: nat, d: nat, l: seq<Listed>, x: Listed, d2: nat, l2: seq<Listed>, y: Listed, e: nat)
    requires cb >= 1 && TreeOk(t, cb) && d in t.dirs && d2 in t.dirs && x in t.lists[d] && e in t.dirs
    requires y.info == x.info.(name := y.info.name)
    requires x.info.isDir ==> LeadsToRoot(t, d2, x.info.first)
    ensures LeadsToRoot(Moved(t, d, l, x, d2, l2, y), e, 0)
  {
    hide NamesApart, Rooted, CeilDiv;
    var k, t' := x.info.first, Moved(t, d, l, x, d2, l2, y);
    assert EntryOk(t, cb, d, x);
    if x.info.isDir {
      forall e | e in t.dirs
        ensures e >= 2
      {
        DirsAreClusters(t, cb, e);
      }
      LeadsAround(t, t', d2, k);
      var n: nat :| Rooted(t, e, n, 0);
      RootedThroughMove(t, t', e, n, k, d2);
    } else {
      LeadsKept(t, t', e, 0);
    }
  }

  /** A directory moved below itself leads to the root no more. */
  lemma MovedUnder(t: Tree, cb: nat, d: nat, l: seq<Listed>, x: Listed, d2: nat, l2: seq<Listed>, y: Listed)
    requires cb >= 1 && TreeOk(t, cb) && d in t.dirs && d2 in t.dirs && x in t.lists[d] && y.info == x.info.(name := y.info.name)
    requires x.info.isDir && !LeadsToRoot(t, d2, x.info.first)
    ensures !LeadsToRoot(Moved(t, d, l, x, d2, l2, y), x.info.first, 0)
    ensures !TreeOk(Moved(t, d, l, x, d2, l2, y), cb)
  {
    hide NamesApart, CeilDiv;
    var k, t' := x.info.first, Moved(t, d, l, x, d2, l2, y);
    assert EntryOk(t, cb, d, x);
    forall n: nat
      ensures !Rooted(t', k, n, 0)
    {
      NotRooted(t, t', k, n, k, d2);
    }
  }

  /** A move keeps the tree a file system exactly if no directory moves below itself. */
  lemma MovedExactly(t: Tree, cb: nat, d: nat, l: seq<Listed>, x: Listed, d2: nat, l2: seq<Listed>, y: Listed)
    requires cb >= 1 && TreeOk(t, cb) && d in t.dirs && d2 in t.dirs && x in t.lists[d]
    requires y.info == x.info.(name := y.info.name) && FreshName(t.lists[d2], y.info.name)
    requires d != d2 ==> Joined(l, t.lists[d], x) && Joined(t.lists[d2], l2, y)
    requires d == d2 ==> Swapped(t.lists[d], l, x, [y]) || (Joined(t.lists[d], l2, y) && Joined(l, l2, x))
    ensures TreeOk(Moved(t, d, l, x, d2, l2, y), cb) <==> (x.info.isDir ==> LeadsToRoot(t, d2, x.info.first))
  {
    hide TreeOk, LeadsToRoot, Joined, Swapped, FreshName;
    if x.info.isDir && !LeadsToRoot(t, d2, x.info.first) {
      MovedUnder(t, cb, d, l, x, d2, l2, y);
    } else {
      EntryMoved(t, cb, d, l, x, d2, l2, y);
    }
  }

  lemma {:induction false} NotRooted(t: Tree, t': Tree, e: nat, n: nat, k: nat, d2: nat)
    requires !LeadsToRoot(t, e, k) && !LeadsToRoot(t, d2, k) && k != t.root && t.root in t.dirs
    requires t'.root == t.root && t'.dirs == t.dirs && t'.home.Keys == t.home.Keys && k in t.home && t'.home[k].dir == d2
    requires forall m :: m in t.home && m != k ==> t'.home[m].dir == t.home[m].dir
    ensures !Rooted(t', e, n, 0)
    decreases n
  {
    if Rooted(t', e, n, 0) {
      if e == t.root {
        assert Rooted(t, e, 0, k);
      } else if e == k {
        NotRooted(t, t', d2, n - 1, k, d2);
      } else {
        var p := t.home[e].dir;
        if LeadsToRoot(t, p, k) {
          OneMore(t, e, p, k);
        } else {
          NotRooted(t, t', p, n - 1, k, d2);
        }
      }
    }
  }

  /** The listings after a move: the old entry gone, the new one there, all else in place. */
  lemma MovedLists(t: Tree, cb: nat, d: nat, l: seq<Listed>, x: Listed, d2: nat, l2: seq<Listed>, y: Listed)
    requires cb >= 1 && TreeOk(t, cb) && d in t.dirs && d2 in t.dirs && x in t.lists[d]
    requires FreshName(t.lists[d2], y.info.name)
    requires d != d2 ==> Joined(l, t.lists[d], x) && Joined(t.lists[d2], l2, y)
    requires d == d2 ==> Swapped(t.lists[d], l, x, [y]) || (Joined(t.lists[d], l2, y) && Joined(l, l2, x))
    ensures var t' := Moved(t, d, l, x, d2, l2, y);
            && (forall e :: e in t'.dirs ==> NamesApart(t'.lists[e]))
            && (forall e, z :: e in t'.dirs ==> (z in t'.lists[e] <==>
                  (e == d2 && z == y) || (z in t.lists[e] && !(e == d && z == x))))
  {
    hide NamesApart, SameName, Joined, Swapped, EntryOk;
    var t' := Moved(t, d, l, x, d2, l2, y);
    FreshFor(t.lists[d2], y);
    if d != d2 {
      JoinedMembers(l, t.lists[d], x);
      DroppedNames(t.lists[d], l, x);
      JoinedMembers(t.lists[d2], l2, y);
      JoinedNames(t.lists[d2], l2, y);
    } else if Swapped(t.lists[d], l, x, [y]) {
      SwappedMembers(t.lists[d], l, x, y);
      SwappedNames(t.lists[d], l, x, y);
    } else {
      JoinedMembers(t.lists[d], l2, y);
      JoinedNames(t.lists[d], l2, y);
      JoinedMembers(l, l2, x);
      DroppedNames(l2, l, x);
    }
  }

  lemma FreshFor(l: seq<Listed>, y: Listed)
    requires FreshName(l, y.info.name)
    ensures y !in l
    ensures forall z :: z in l ==> !SameName(y.info.name, z.info.name) && !SameName(z.info.name, y.info.name)
  {
    SameNameReflexive(y.info.name);
  }

  /** A path that avoids the moved directory is still there. */
  lemma LeadsAround(t: Tree, t': Tree, e: nat, k: nat)
    requires LeadsToRoot(t, e, k) && t'.root == t.root && t'.dirs == t.dirs && t'.home.Keys == t.home.Keys
    requires forall m :: m in t.home && m != k ==> t'.home[m].dir == t.home[m].dir
    requires 0 !in t.dirs
    ensures LeadsToRoot(t', e, 0)
  {
    var n: nat :| Rooted(t, e, n, k);
    RootedAvoiding(t, t', e, n, k);
  }

  lemma {:induction false} RootedAvoiding(t: Tree, t': Tree, e: nat, n: nat, k: nat)
    requires Rooted(t, e, n, k) && t'.root == t.root && t'.dirs == t.dirs && t'.home.Keys == t.home.Keys
    requires forall m :: m in t.home && m != k ==> t'.home[m].dir == t.home[m].dir
    requires 0 !in t.dirs
    ensures Rooted(t', e, n, 0)
    decreases n
  {
    if e != t.root {
      RootedAvoiding(t, t', t.home[e].dir, n - 1, k);
    }
  }

  lemma {:induction false} RootedThroughMove(t: Tree, t': Tree, e: nat, n: nat, k: nat, d2: nat)
    requires Rooted(t, e, n, 0) && t'.root == t.root && t'.dirs == t.dirs && t'.home.Keys == t.home.Keys
    requires forall m :: m in t.home && m != k ==> t'.home[m].dir == t.home[m].dir
    requires k in t.home && t'.home[k].dir == d2 && LeadsToRoot(t', d2, 0)
    ensures LeadsToRoot(t', e, 0)
    decreases n
  {
    if e == k {
      OneMore(t', e, d2, 0);
    } else if e == t.root {
      assert Rooted(t', e, 0, 0);
    } else {
      RootedThroughMove(t, t', t.home[e].dir, n - 1, k, d2);
      OneMore(t', e, t.home[e].dir, 0);
    }
  }
}
