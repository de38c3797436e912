/** FAT32 entries leaving their directory: unlinking a file, which frees its clusters, and moving an
  * entry from one directory to another.
  */
module FatMoves {
  import opened Arith
  import opened Bytes
  import opened ExfatNames
  import opened FatTable
  import opened FatClusters
  import opened FatChains
  import opened FatNames
  import opened FatSlots
  import opened FatDirectory
  import opened FatDirOps
  import opened FatDirMap
  import opened FatClose

  // ---- unlinking ----

  /** Free the clusters of a file; a directory apart from them lists what it did. */
  method FreeContent(v: Fat32, first: nat, ghost fileCl: seq<nat>, dir: nat, ghost cl: seq<nat>, ghost m: map<seq<byte>, Record>)
    requires MapDir(v, dir, cl, m) && v.Valid() && InRange(v.Links())
    requires Chain(v.Links(), v.total + 2, first, fileCl) && Elems(fileCl) !! Elems(cl)
    modifies v.fat
    ensures MapDir(v, dir, cl, m) && v.Valid() && InRange(v.Links())
    ensures SameBut(old(v.Links()), v.Links(), Elems(fileCl)) && forall c :: c in fileCl ==> c < |v.Links()| && v.Links()[c] == FREE
    ensures InData(v.store.data, cl) && DirList(v.store.data, cl) == old(DirList(v.store.data, cl))
  {
    hide LinksOf, Chain, InRange, Freed, OnlyFreed, MapDir, DirList, DirHolds;
    ghost var links, data := v.Links(), v.store.data;
    MapDirHolds(v, dir, cl, m);
    ChainShape(links, v.total + 2, first, fileCl);
    DirHoldsChain(links, v.total + 2, data, v.store.bpc, dir, cl, m);
    if first >= 2 {
      v.FreeChain(first, fileCl);
      FreedSame(links, fileCl);
      FreedAll(links, fileCl);
    }
    ChainKept(links, v.Links(), v.total + 2, dir, cl, Elems(fileCl));
    StillHolds(v, links, data, dir, cl, m);
  }

  /** Unlink a file: its clusters are free and its name is gone, and nothing else changes: neither another
    * name of the directory nor a link or a cluster outside the file and the directory.
    */
  method UnlinkName(v: Fat32, dir: nat, name: seq<byte>, ghost cl: seq<nat>, ghost m: map<seq<byte>, Record>, ghost fileCl: seq<nat>)
    returns (out: Outcome)
    requires MapDir(v, dir, cl, m) && v.Valid() && InRange(v.Links())
    requires LowerAll(name) in m ==> Chain(v.Links(), v.total + 2, m[LowerAll(name)].first, fileCl) && Elems(fileCl) !! Elems(cl)
    modifies v.fat, v.store
    ensures out == if LowerAll(name) in m then Done else Missing
    ensures MapDir(v, dir, cl, if out.Done? then m - {LowerAll(name)} else m) && v.Valid() && InRange(v.Links())
    ensures |v.store.data| == |old(v.store.data)| && forall c :: 0 <= c < |v.store.data| && c !in cl ==> v.store.data[c] == old(v.store.data)[c]
    ensures if out.Done? then
              SameBut(old(v.Links()), v.Links(), Elems(fileCl)) && forall c :: c in fileCl ==> c < |v.Links()| && v.Links()[c] == FREE
            else v.Links() == old(v.Links()) && v.store.data == old(v.store.data)
  {
    hide LinksOf, Chain, InRange, MapDir, DirList, LowerAll, KeyOf, InfoOf, FirstCluster;
    var found := Lookup(v, dir, name, cl, m);
    if found.None? {
      return Missing;
    }
    FirstOfRecord(found.value);
    FreeContent(v, FirstCluster(found.value.item.entry), fileCl, dir, cl, m);
    RemoveListed(v, dir, found.value, cl, m);
    out := Done;
  }

  lemma FirstOfRecord(x: Placed)
    ensures InfoOf(x.item).first == FirstCluster(x.item.entry)
  {
  }

  /** Take an entry out of the map; only the directory's clusters change. */
  method RemoveListed(v: Fat32, dir: nat, found: Placed, ghost cl: seq<nat>, ghost m: map<seq<byte>, Record>)
    requires MapDir(v, dir, cl, m) && v.Valid() && InData(v.store.data, cl) && found in DirList(v.store.data, cl)
    modifies v.store
    ensures MapDir(v, dir, cl, m - {KeyOf(found)}) && v.Valid() && v.Links() == old(v.Links())
    ensures DataKept(old(v.store.data), v.store.data, cl)
  {
    hide LinksOf, DirOk, DirList, Unique, MapOf, KeyOf, ReplacedBy;
    ghost var l := DirList(v.store.data, cl);
    RemoveEntry(v, dir, found.cluster, found.item.at, cl, found);
    DirValid(v, dir, cl);
    RemovedMap(l, DirList(v.store.data, cl), found);
  }

  // ---- from one directory to another ----

  /** A directory apart from the one that changed lists what it did. */
  lemma StaysApart(v: Fat32, links: seq<nat>, data: seq<seq<byte>>, cl: seq<nat>, cl': seq<nat>, dir: nat, other: seq<nat>, m: map<seq<byte>, Record>)
    requires v.Valid() && OthersKept(v.total + 2, links, data, cl, v.Links(), v.store.data, cl')
    requires DirHolds(links, v.total + 2, data, v.store.bpc, dir, other, m) && Elems(other) !! Elems(cl)
    ensures MapDir(v, dir, other, m) && Elems(other) !! Elems(cl') && InData(data, other)
    ensures forall n: nat :: NoRoom(v.store.data, other, n) <==> NoRoom(data, other, n)
  {
    hide LinksOf, Chain, DirTidy, Unique, MapOf, MapDir, NoWindow;
    DirHoldsChain(links, v.total + 2, data, v.store.bpc, dir, other, m);
    forall c | c in other && c < |data|
      ensures v.store.data[c] == data[c]
    {
      var i :| 0 <= i < |other| && other[i] == c;
    }
    StillHolds(v, links, data, dir, other, m);
    assert forall i :: 0 <= i < |other| ==> other[i] in other;
  }

  /** Chains apart from both directories are kept by a change of one. */
  lemma KeptByBoth(limit: nat, links: seq<nat>, data: seq<seq<byte>>, links': seq<nat>, data': seq<seq<byte>>, a: seq<nat>, a': seq<nat>, b: seq<nat>)
    requires OthersKept(limit, links, data, a, links', data', a')
    ensures OthersKept(limit, links, data, a + b, links', data', a' + b) && OthersKept(limit, links, data, b + a, links', data', b + a')
  {
    hide Chain;
    forall first, other | Chain(links, limit, first, other) && Elems(other) !! Elems(a + b)
      ensures Chain(links', limit, first, other) && Elems(other) !! Elems(a' + b) && Elems(other) !! Elems(b + a')
      ensures forall i :: 0 <= i < |other| && other[i] < |data| ==> data'[other[i]] == data[other[i]]
    {
      BothElems(a, b);
      BothElems(a', b);
    }
    BothElems(a, b);
  }

  lemma BothElems(a: seq<nat>, b: seq<nat>)
    ensures Elems(a + b) == Elems(a) + Elems(b) == Elems(b + a)
  {
  }

  /** What a move leaves of the directory `a` it takes `name` from and the directory `b` it puts `to` in. */
  ghost predicate Moved(v: Fat32, out: Outcome, a: nat, clA: seq<nat>, mA: map<seq<byte>, Record>, b: nat, clB: seq<nat>, mB: map<seq<byte>, Record>,
                        name: seq<byte>, to: seq<byte>)
    requires LowerAll(name) in mA
    reads v, v.fat, v.store
  {
    var r, rest := mA[LowerAll(name)], mA - {LowerAll(name)};
    match out
    case Done => MapDir(v, a, clA, rest) && Named(v, b, clB, mB, to, r.attr, r.first, r.size)
    case Full => Named(v, a, clA, rest, name, r.attr, r.first, r.size) && MapDir(v, b, clB, mB)
    case Lost => MapDir(v, a, clA, rest) && MapDir(v, b, clB, mB)
    case _ => MapDir(v, a, clA, mA) && MapDir(v, b, clB, mB)
  }

  /** A lookup leaves every directory as it is. */
  lemma LookedUp(v: Fat32, links: seq<nat>, data: seq<seq<byte>>, dir: nat, cl: seq<nat>, m: map<seq<byte>, Record>)
    requires v.Valid() && DirHolds(links, v.total + 2, data, v.store.bpc, dir, cl, m) && v.Links() == links && v.store.data == data
    ensures MapDir(v, dir, cl, m)
  {
    hide Chain, LinksOf;
    DirHoldsChain(links, v.total + 2, data, v.store.bpc, dir, cl, m);
    StillHolds(v, links, data, dir, cl, m);
  }

  /** Take a found entry out of the one directory and put it in the other, or else back. */
  method Carry(v: Fat32, a: nat, name: seq<byte>, b: nat, to: seq<byte>, found: Placed, ghost clA: seq<nat>, ghost mA: map<seq<byte>, Record>,
               ghost clB: seq<nat>, ghost mB: map<seq<byte>, Record>)
    returns (out: Outcome, ghost clA': seq<nat>, ghost clB': seq<nat>)
    requires MapDir(v, a, clA, mA) && MapDir(v, b, clB, mB) && Elems(clA) !! Elems(clB) && v.Valid()
    requires InData(v.store.data, clA) && found in DirList(v.store.data, clA) && Storable(name) && Storable(to)
    requires KeyOf(found) == LowerAll(name) && LowerAll(name) in mA && mA[LowerAll(name)] == InfoOf(found.item)
    modifies v`hint, v.fat, v.store
    ensures v.Valid() && (out.Done? || out.Full? || out.Lost?) && Moved(v, out, a, clA', mA, b, clB', mB, name, to)
    ensures !out.Done? <==> NoRoom(old(v.store.data), clB, SlotsNeeded(to)) && NoneFree(old(v.Links()), v.total + 2)
    ensures out.Lost? <==> !out.Done? && NoRoomWithout(old(v.store.data), clA, found.cluster, found.item.at, SlotsNeeded(name))
    ensures OthersKept(v.total + 2, old(v.Links()), old(v.store.data), clA + clB, v.Links(), v.store.data, clA' + clB')
  {
    hide Storable, NoneFree, NoRoom, LowerAll, OthersKept, ListedAs, SlotsNeeded, FirstCluster, FileSize, DirList, LinksOf, NoRoomWithout, EntryGone, Chain, Named;
    hide MapDir, DirHolds, KeyOf, SlotsOk, StampsOk, CacheOk, RoomKept, Elems;
    ghost var limit, links, data, rest := v.total + 2, v.Links(), v.store.data, mA - {LowerAll(name)};
    var e := found.item.entry;
    EntryAttr(v, a, clA, mA, found);
    clA', clB' := clA, clB;
    MapDirHolds(v, b, clB, mB);
    Unbind(v, a, found, clA, mA);
    ghost var links1, data1 := v.Links(), v.store.data;
    StaysApart(v, links, data, clA, clA, b, clB, mB);
    KeptByBoth(limit, links, data, links1, data1, clA, clA, clB);
    RoomWithout(data, data1, clA, found.cluster, found.item.at, SlotsNeeded(name));
    MapDirHolds(v, a, clA, rest);
    var ok;
    ok, clB' := Bind(v, b, to, e[ATTR_AT], FirstCluster(e), FileSize(e), clB, mB);
    ghost var links2, data2 := v.Links(), v.store.data;
    StaysApart(v, links1, data1, clB, clB', a, clA, rest);
    KeptByBoth(limit, links1, data1, links2, data2, clB, clB', clA);
    KeptTwice(limit, links, data, clA + clB, links1, data1, clA + clB, links2, data2, clA + clB');
    if ok {
      out := Done;
      return;
    }
    MapDirHolds(v, b, clB, mB);
    ok, clA' := Bind(v, a, name, e[ATTR_AT], FirstCluster(e), FileSize(e), clA, rest);
    StaysApart(v, links2, data2, clA, clA', b, clB, mB);
    KeptByBoth(limit, links2, data2, v.Links(), v.store.data, clA, clA', clB);
    KeptTwice(limit, links, data, clA + clB, links2, data2, clA + clB, v.Links(), v.store.data, clA' + clB);
    out := if ok then Full else Lost;
  }

  lemma EntryAttr(v: Fat32, dir: nat, cl: seq<nat>, m: map<seq<byte>, Record>, x: Placed)
    requires MapDir(v, dir, cl, m) && v.Valid() && InData(v.store.data, cl) && x in DirList(v.store.data, cl)
    ensures x.item.entry[ATTR_AT] as nat / ATTR_VOLUME % 2 == 0
    ensures FirstCluster(x.item.entry) < 0x1_0000_0000 && FileSize(x.item.entry) < 0x1_0000_0000
    ensures InfoOf(x.item).attr == x.item.entry[ATTR_AT] && InfoOf(x.item).first == FirstCluster(x.item.entry) && InfoOf(x.item).size == FileSize(x.item.entry)
  {
    hide DirOk, DirList, Unique, MapOf, FirstCluster, FileSize;
    ListedAttr(v, dir, cl, x);
  }

  /** Move an entry to another directory. The record leaves the one map and is bound in the other with its
    * attributes, first cluster and size; if the new directory has no room it is put back, and it is lost
    * exactly when its own old slots and no other run of the old directory suffice either. Chains apart
    * from both directories keep their links and data.
    */
  method MoveAcross(v: Fat32, a: nat, name: seq<byte>, b: nat, to: seq<byte>, ghost clA: seq<nat>, ghost mA: map<seq<byte>, Record>,
                    ghost clB: seq<nat>, ghost mB: map<seq<byte>, Record>)
    returns (out: Outcome, ghost clA': seq<nat>, ghost clB': seq<nat>)
    requires MapDir(v, a, clA, mA) && MapDir(v, b, clB, mB) && Elems(clA) !! Elems(clB) && v.Valid()
    requires InData(v.store.data, clA) && Storable(name) && Storable(to)
    modifies v`hint, v.fat, v.store
    ensures v.Valid() && (out == Missing <==> LowerAll(name) !in mA) && (out == Exists <==> LowerAll(name) in mA && LowerAll(to) in mB)
    ensures !out.Is? && if LowerAll(name) in mA then Moved(v, out, a, clA', mA, b, clB', mB, name, to)
                        else MapDir(v, a, clA', mA) && MapDir(v, b, clB', mB)
    ensures LowerAll(name) in mA && LowerAll(to) !in mB ==>
              && FirstPlaced(old(DirList(v.store.data, clA)), name).Some?
              && var x := FirstPlaced(old(DirList(v.store.data, clA)), name).value;
                 && (!out.Done? <==> NoRoom(old(v.store.data), clB, SlotsNeeded(to)) && NoneFree(old(v.Links()), v.total + 2))
                 && (out.Lost? <==> !out.Done? && NoRoomWithout(old(v.store.data), clA, x.cluster, x.item.at, SlotsNeeded(name)))
    ensures OthersKept(v.total + 2, old(v.Links()), old(v.store.data), clA + clB, v.Links(), v.store.data, clA' + clB')
  {
    hide Storable, NoneFree, NoRoom, LowerAll, OthersKept, ListedAs, SlotsNeeded, FirstCluster, FileSize, DirList, LinksOf, NoRoomWithout, EntryGone, Chain, Spoils, Unfit, WithName, Named;
    hide DirOk, Unique, MapOf, MapDir, DirHolds, FirstPlaced, InfoOf, KeyOf, SlotsOk, StampsOk, CacheOk;
    ghost var limit, links, data, key := v.total + 2, v.Links(), v.store.data, LowerAll(name);
    clA', clB' := clA, clB;
    KeptUntouched(limit, links, data, clA + clB);
    MapDirHolds(v, b, clB, mB);
    var found := Lookup(v, a, name, clA, mA);
    LookedUp(v, links, data, b, clB, mB);
    if found.None? {
      out := Missing;
      return;
    }
    MapDirHolds(v, a, clA, mA);
    var dup := Lookup(v, b, to, clB, mB);
    LookedUp(v, links, data, a, clA, mA);
    if dup.Some? {
      out := Exists;
      return;
    }
    out, clA', clB' := Carry(v, a, name, b, to, found.value, clA, mA, clB, mB);
  }
}
