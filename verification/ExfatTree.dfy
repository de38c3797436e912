/** The tree of directories and files on a volume: which chain each of them owns, what each
  * directory lists, and which entry each chain is referenced by.
  */
module ExfatTree {
  import opened Arith
  import opened Bytes
  import opened ExfatVolume
  import opened ExfatContents
  import opened ExfatFile
  import opened ExfatNames
  import opened ExfatEntrySet
  import opened ExfatDirectory
  import opened ExfatDirVolume

  /** The one entry that references a chain. */
  datatype Home = Home(dir: nat, entry: Listed)

  /** Chains by first cluster, the directories among them with their listings, and the home
    * of every chain but the root's.
    */
  datatype Tree = Tree(
    root: nat, chains: map<nat, seq<nat>>, dirs: set<nat>, lists: map<nat, seq<Listed>>, home: map<nat, Home>)

  // ---- what the disk holds ----

  /** Clusters owned by some chain. */
  ghost function Owned(chains: map<nat, seq<nat>>): set<nat> {
    set k, c | k in chains && c in chains[k] :: c
  }

  ghost predicate Separate(chains: map<nat, seq<nat>>) {
    forall k, m :: k in chains && m in chains && k != m ==> Elems(chains[k]) !! Elems(chains[m])
  }

  /** Every cluster in use is owned by exactly one chain, belongs to the fixed structures of
    * the volume, or was lost by an extension that found the volume full.
    */
  ghost predicate Accounted(used: set<nat>, chains: map<nat, seq<nat>>, fixed: set<nat>, leaked: set<nat>) {
    && Separate(chains)
    && Owned(chains) !! fixed && Owned(chains) !! leaked && fixed !! leaked
    && used == Owned(chains) + fixed + leaked
  }

  /** A directory's clusters hold a tidy directory with the listing of the tree. */
  ghost predicate DirHeld(g: Geometry, fat: seq<nat>, used: set<nat>, heap: seq<seq<Sector>>, d: nat, cl: seq<nat>, l: seq<Listed>) {
    && DirChain(g, fat, used, heap, d, cl)
    && Tidy(Entries(heap, cl, g.spc), 0)
    && List(Entries(heap, cl, g.spc), 0) == l
  }

  ghost predicate ChainHeld(g: Geometry, fat: seq<nat>, used: set<nat>, heap: seq<seq<Sector>>, t: Tree, k: nat)
    requires k in t.chains
  {
    if k in t.dirs then
      k in t.lists && DirHeld(g, fat, used, heap, k, t.chains[k], t.lists[k])
    else
      && k in t.home && t.chains[k] != []
      && Chain(g, fat, used, k, t.home[k].entry.info.contiguous, t.chains[k])
  }

  ghost predicate Held(g: Geometry, fat: seq<nat>, used: set<nat>, heap: seq<seq<Sector>>, t: Tree) {
    && t.dirs <= t.chains.Keys && t.lists.Keys == t.dirs
    && forall k :: k in t.chains ==> ChainHeld(g, fat, used, heap, t, k)
  }

  ghost predicate Stored(v: Volume, t: Tree, fixed: set<nat>, leaked: set<nat>)
    reads v
  {
    && v.Valid()
    && Held(v.g, v.fat, v.used, v.heap, t)
    && Accounted(v.used, t.chains, fixed, leaked)
  }

  // ---- what makes it a file system ----

  /** An entry of directory `d` describes a chain of the tree, or an empty file. */
  ghost predicate EntryOk(t: Tree, cb: nat, d: nat, x: Listed)
    requires cb >= 1
  {
    var i := x.info;
    && i.first < 0x1_0000_0000 && i.size < 0x1_0000_0000_0000_0000 && i.valid <= i.size
    && (i.first >= 2 ==> i.first in t.home && t.home[i.first] == Home(d, x))
    && (i.first < 2 ==> !i.isDir && i.size == 0)
    && (i.isDir ==> i.first in t.dirs && !i.contiguous && i.first in t.chains && i.size == |t.chains[i.first]| * cb)
    && (!i.isDir && i.first >= 2 ==>
          i.first !in t.dirs && i.first in t.chains && |t.chains[i.first]| == Max(1, CeilDiv(i.size, cb)))
  }

  ghost predicate NamesApart(l: seq<Listed>) {
    forall i, j :: 0 <= i < |l| && 0 <= j < |l| && i != j ==> !SameName(l[i].info.name, l[j].info.name)
  }

  /** Directory `d` leads up to the root in at most `n` steps, not through `avoid`. */
  ghost predicate Rooted(t: Tree, d: nat, n: nat, avoid: nat)
    decreases n
  {
    d in t.dirs && d != avoid &&
    (d == t.root || (n > 0 && d in t.home && Rooted(t, t.home[d].dir, n - 1, avoid)))
  }

  ghost predicate LeadsToRoot(t: Tree, d: nat, avoid: nat) {
    exists n: nat :: Rooted(t, d, n, avoid)
  }

  /** Every entry describes its own chain, every chain has one entry, names are unique in a
    * directory and every directory leads up to the root.
    */
  ghost predicate TreeOk(t: Tree, cb: nat)
    requires cb >= 1
  {
    && t.root >= 2 && t.root in t.dirs && t.dirs <= t.chains.Keys && t.lists.Keys == t.dirs
    && t.home.Keys == t.chains.Keys - {t.root}
    && (forall d, x :: d in t.dirs && x in t.lists[d] ==> EntryOk(t, cb, d, x))
    && (forall k :: k in t.home ==> HomeOk(t, k))
    && (forall d :: d in t.dirs ==> NamesApart(t.lists[d]))
    && forall d :: d in t.dirs ==> LeadsToRoot(t, d, 0)
  }

  ghost predicate HomeOk(t: Tree, k: nat)
    requires k in t.home
  {
    var h := t.home[k];
    h.dir in t.dirs && h.dir in t.lists && h.entry in t.lists[h.dir] && h.entry.info.first == k && k >= 2
  }

  // ---- ownership ----

  lemma OwnedSplit(chains: map<nat, seq<nat>>, k: nat)
    requires k in chains
    ensures Owned(chains) == Owned(chains - {k}) + Elems(chains[k])
  {
    forall c | c in Owned(chains)
      ensures c in Owned(chains - {k}) + Elems(chains[k])
    {
      var m :| m in chains && c in chains[m];
      if m != k {
        assert m in chains - {k} && c in (chains - {k})[m];
      }
    }
  }

  lemma OwnedAdd(chains: map<nat, seq<nat>>, k: nat, cl: seq<nat>)
    ensures Owned(chains[k := cl]) == Owned(chains - {k}) + Elems(cl)
  {
    OwnedSplit(chains[k := cl], k);
    assert chains[k := cl] - {k} == chains - {k};
  }

  lemma OwnedApart(chains: map<nat, seq<nat>>, k: nat)
    requires k in chains && Separate(chains)
    ensures Elems(chains[k]) !! Owned(chains - {k})
  {
    forall c | c in Owned(chains - {k})
      ensures c !in Elems(chains[k])
    {
      var m :| m in chains - {k} && c in chains[m];
      assert c in Elems(chains[m]);
    }
  }

  lemma OwnedHas(chains: map<nat, seq<nat>>, k: nat)
    requires k in chains
    ensures Elems(chains[k]) <= Owned(chains)
  {
  }

  /** A chain that takes only free clusters keeps the accounts, whatever it held before. */
  lemma AccountsAfterChange(used: set<nat>, chains: map<nat, seq<nat>>, fixed: set<nat>, leaked: set<nat>,
                            k: nat, cl0: seq<nat>, cl: seq<nat>, lost: set<nat>, used': set<nat>)
    requires Accounted(used, chains, fixed, leaked)
    requires cl0 == if k in chains then chains[k] else []
    requires Elems(cl) * used <= Elems(cl0) && lost !! used - Elems(cl0) && lost !! Elems(cl)
    requires used' == used - Elems(cl0) + Elems(cl) + lost
    ensures Accounted(used', chains[k := cl], fixed, leaked + lost)
  {
    var rest := chains - {k};
    var chains' := chains[k := cl];
    OwnedAdd(chains, k, cl);
    if k in chains {
      OwnedSplit(chains, k);
      OwnedApart(chains, k);
    } else {
      assert rest == chains;
      assert Elems(cl0) == {};
    }
    forall m, n | m in chains' && n in chains' && m != n
      ensures Elems(chains'[m]) !! Elems(chains'[n])
    {
      if m == k {
        assert n in rest;
        OwnedHas(rest, n);
      } else if n == k {
        assert m in rest;
        OwnedHas(rest, m);
      }
    }
  }

  /** Releasing a chain keeps the accounts. */
  lemma AccountsAfterRelease(used: set<nat>, chains: map<nat, seq<nat>>, fixed: set<nat>, leaked: set<nat>, k: nat)
    requires Accounted(used, chains, fixed, leaked) && k in chains
    ensures Accounted(used - Elems(chains[k]), chains - {k}, fixed, leaked)
  {
    OwnedSplit(chains, k);
    OwnedApart(chains, k);
  }

  // ---- framing ----

  /** A chain whose clusters are kept is held as before. */
  lemma ChainStillHeld(g: Geometry, fat: seq<nat>, used: set<nat>, heap: seq<seq<Sector>>, t: Tree,
                       fat': seq<nat>, used': set<nat>, heap': seq<seq<Sector>>, t': Tree, k: nat, kept: set<nat>)
    requires k in t.chains && ChainHeld(g, fat, used, heap, t, k)
    requires k in t'.chains && t'.chains[k] == t.chains[k] && (k in t'.dirs <==> k in t.dirs)
    requires k in t.dirs ==> k in t'.lists && t'.lists[k] == t.lists[k]
    requires k !in t.dirs ==> k in t'.home && t'.home[k].entry.info.contiguous == t.home[k].entry.info.contiguous
    requires Elems(t.chains[k]) <= kept <= used' && Kept(fat, heap, fat', heap', kept)
    ensures ChainHeld(g, fat', used', heap', t', k)
  {
    hide Tidy, List;
    var cl := t.chains[k];
    if k in t.dirs {
      DirStillHeld(g, fat, used, heap, fat', used', heap', k, cl, t.lists[k], kept);
    } else {
      ChainUnderKept(g, fat, used, heap, fat', used', heap', k, t.home[k].entry.info.contiguous, cl, kept);
    }
  }

  lemma ChainUnderKept(g: Geometry, fat: seq<nat>, used: set<nat>, heap: seq<seq<Sector>>,
                       fat': seq<nat>, used': set<nat>, heap': seq<seq<Sector>>,
                       first: nat, contiguous: bool, cl: seq<nat>, kept: set<nat>)
    requires Chain(g, fat, used, first, contiguous, cl)
    requires Elems(cl) <= kept <= used' && Kept(fat, heap, fat', heap', kept)
    ensures Chain(g, fat', used', first, contiguous, cl)
    ensures forall i :: 0 <= i < |cl| ==> cl[i] in kept
  {
    forall i | 0 <= i < |cl|
      ensures cl[i] in kept
    {
      assert cl[i] in Elems(cl);
    }
    assert forall c :: c in cl ==> c in Elems(cl);
    forall i | 0 <= i < |cl| - 1
      ensures cl[i] < |fat'| && cl[i + 1] == if contiguous then cl[i] + 1 else fat'[cl[i]]
    {
      assert cl[i] in kept;
    }
  }

  lemma DirStillHeld(g: Geometry, fat: seq<nat>, used: set<nat>, heap: seq<seq<Sector>>,
                     fat': seq<nat>, used': set<nat>, heap': seq<seq<Sector>>,
                     d: nat, cl: seq<nat>, l: seq<Listed>, kept: set<nat>)
    requires DirHeld(g, fat, used, heap, d, cl, l)
    requires Elems(cl) <= kept <= used' && Kept(fat, heap, fat', heap', kept)
    ensures DirHeld(g, fat', used', heap', d, cl, l)
  {
    hide Tidy, List;
    ChainUnderKept(g, fat, used, heap, fat', used', heap', d, false, cl, kept);
    ChainUntouched(heap, heap', cl, g.spc);
    assert cl[|cl| - 1] in kept;
  }

  /** Everything but the chain `k` is held as before. */
  lemma OthersStillHeld(g: Geometry, fat: seq<nat>, used: set<nat>, heap: seq<seq<Sector>>, t: Tree,
                        fat': seq<nat>, used': set<nat>, heap': seq<seq<Sector>>, t': Tree, k: nat,
                        fixed: set<nat>, leaked: set<nat>)
    requires Held(g, fat, used, heap, t) && Accounted(used, t.chains, fixed, leaked)
    requires t'.chains - {k} == t.chains - {k} && t'.dirs - {k} == t.dirs - {k} && t'.lists - {k} == t.lists - {k}
    requires forall m :: m in t.chains && m !in t.dirs && m != k ==>
               m in t'.home && t'.home[m].entry.info.contiguous == t.home[m].entry.info.contiguous
    requires var kept := used - (if k in t.chains then Elems(t.chains[k]) else {});
             kept <= used' && Kept(fat, heap, fat', heap', kept)
    ensures forall m :: m in t'.chains && m != k ==> ChainHeld(g, fat', used', heap', t', m)
  {
    hide ChainHeld, Kept;
    var kept := used - (if k in t.chains then Elems(t.chains[k]) else {});
    forall m | m in t'.chains && m != k
      ensures ChainHeld(g, fat', used', heap', t', m)
    {
      assert m in t'.chains - {k};
      assert m in t.chains - {k};
      assert t'.chains[m] == (t'.chains - {k})[m] == t.chains[m];
      assert m in t'.dirs <==> m in t'.dirs - {k};
      assert m in t.dirs <==> m in t.dirs - {k};
      if m in t.dirs {
        assert m in t.lists - {k} && (t.lists - {k})[m] == t.lists[m] && (t'.lists - {k})[m] == t'.lists[m];
      }
      OwnedHas(t.chains, m);
      ChainStillHeld(g, fat, used, heap, t, fat', used', heap', t', m, kept);
    }
  }

  // ---- single steps ----

  lemma RewriteKeeps(fat: seq<nat>, heap: seq<seq<Sector>>, heap': seq<seq<Sector>>, used: set<nat>, cl: seq<nat>)
    requires Kept(fat, heap, fat, heap, used - Elems(cl)) && OnlyChanged(heap, heap', cl)
    ensures Kept(fat, heap, fat, heap', used - Elems(cl))
  {
    assert forall c :: c in cl ==> c in Elems(cl);
  }

  /** A directory rewritten in place. */
  lemma AfterRewrite(v: Volume, heap0: seq<seq<Sector>>, t: Tree, d: nat, l: seq<Listed>, fixed: set<nat>, leaked: set<nat>)
    requires v.Valid() && Held(v.g, v.fat, v.used, heap0, t) && Accounted(v.used, t.chains, fixed, leaked)
    requires d in t.dirs && OnlyChanged(heap0, v.heap, t.chains[d])
    requires DirHeld(v.g, v.fat, v.used, v.heap, d, t.chains[d], l)
    ensures Stored(v, t.(lists := t.lists[d := l]), fixed, leaked)
  {
    hide DirHeld, Matches, Accounted, Kept;
    var t' := t.(lists := t.lists[d := l]);
    KeptSelf(v);
    KeptFewer(v.fat, v.heap, v.fat, v.used, v.used - Elems(t.chains[d]));
    KeptHeaps(v.fat, v.heap, heap0, v.used - Elems(t.chains[d]));
    RewriteKeeps(v.fat, heap0, v.heap, v.used, t.chains[d]);
    assert t'.lists - {d} == t.lists - {d};
    OthersStillHeld(v.g, v.fat, v.used, heap0, t, v.fat, v.used, v.heap, t', d, fixed, leaked);
  }

  lemma KeptHeaps(fat: seq<nat>, heap: seq<seq<Sector>>, heap': seq<seq<Sector>>, kept: set<nat>)
    requires Kept(fat, heap, fat, heap, kept) && |heap'| == |heap|
    ensures Kept(fat, heap', fat, heap', kept)
  {
  }

  /** A directory grown by zeroed clusters. */
  lemma AfterGrowth(v: Volume, fat0: seq<nat>, used0: set<nat>, heap0: seq<seq<Sector>>, t: Tree, d: nat, cl: seq<nat>,
                    fixed: set<nat>, leaked: set<nat>)
    requires v.Valid() && Held(v.g, fat0, used0, heap0, t) && Accounted(used0, t.chains, fixed, leaked)
    requires d in t.dirs && d in t.lists && DirHeld(v.g, v.fat, v.used, v.heap, d, cl, t.lists[d])
    requires t.chains[d] <= cl && DirFrame(fat0, heap0, used0, t.chains[d], v.fat, v.heap, v.used, cl)
    ensures Stored(v, t.(chains := t.chains[d := cl]), fixed, leaked)
  {
    hide DirHeld, Matches, Kept;
    var t' := t.(chains := t.chains[d := cl]);
    var cl0 := t.chains[d];
    ElemsOfPrefix(cl0, cl);
    OwnedHas(t.chains, d);
    assert v.used == used0 - Elems(cl0) + Elems(cl) + {};
    AccountsAfterChange(used0, t.chains, fixed, leaked, d, cl0, cl, {}, v.used);
    assert leaked + {} == leaked;
    assert t'.chains - {d} == t.chains - {d};
    OthersStillHeld(v.g, fat0, used0, heap0, t, v.fat, v.used, v.heap, t', d, fixed, leaked);
  }
}
