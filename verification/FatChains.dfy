/** Allocating, linking and freeing FAT32 cluster chains. */
module FatChains {
  import opened Arith
  import opened Bytes
  import opened FatTable
  import opened FatClusters

  const FREE: nat := 0
  const BAD: nat := 0x0FFF_FFF7
  const EOC_MIN: nat := 0x0FFF_FFF8

  predicate IsEoc(value: nat) {
    value >= EOC_MIN
  }

  /** The 28-bit links of a table. */
  function LinksOf(t: seq<Word>): (l: seq<nat>)
    ensures |l| == |t| && forall c :: 0 <= c < |t| ==> l[c] == Low28(t[c])
  {
    seq(|t|, c requires 0 <= c < |t| => Low28(t[c]))
  }

  lemma LinkWritten(t: seq<Word>, c: nat, value: Word)
    requires c < |t| && value < 0x1000_0000
    ensures var t': seq<Word> := t[c := Merged(t[c], value)]; LinksOf(t') == LinksOf(t)[c := value]
  {
  }

  // ---- chains ----

  predicate Distinct(cl: seq<nat>) {
    forall i, j :: 0 <= i < j < |cl| ==> cl[i] != cl[j]
  }

  /** `cl` is the chain from `first`: distinct clusters, each linked to the next, the last ended. */
  ghost predicate Chain(links: seq<nat>, limit: nat, first: nat, cl: seq<nat>) {
    && limit <= |links|
    && (first < 2 <==> cl == []) && (cl != [] ==> cl[0] == first)
    && (forall i :: 0 <= i < |cl| ==> 2 <= cl[i] < limit)
    && Distinct(cl)
    && (forall i :: 0 <= i < |cl| - 1 ==> links[cl[i]] == cl[i + 1])
    && (cl != [] ==> IsEoc(links[cl[|cl| - 1]]))
  }

  function Elems(cl: seq<nat>): set<nat> {
    set c | c in cl
  }

  /** Links outside `touched` are the same. */
  ghost predicate SameBut(links: seq<nat>, links': seq<nat>, touched: set<nat>) {
    |links'| == |links| && forall c :: 0 <= c < |links| && c !in touched ==> links'[c] == links[c]
  }

  lemma ChainKept(links: seq<nat>, links': seq<nat>, limit: nat, first: nat, cl: seq<nat>, touched: set<nat>)
    requires Chain(links, limit, first, cl) && SameBut(links, links', touched) && Elems(cl) !! touched
    ensures Chain(links', limit, first, cl)
  {
    forall i | 0 <= i < |cl|
      ensures links'[cl[i]] == links[cl[i]]
    {
      assert cl[i] in Elems(cl);
    }
  }

  /** The links after `extra` is linked after `prev`, cluster by cluster. */
  function LinkAll(links: seq<nat>, prev: nat, extra: seq<nat>): (r: seq<nat>)
    requires prev < |links| && forall i :: 0 <= i < |extra| ==> extra[i] < |links|
    ensures |r| == |links|
  {
    if extra == [] then links
    else LinkOne(LinkAll(links, prev, extra[..|extra| - 1]), LastOf(prev, extra[..|extra| - 1]), extra[|extra| - 1])
  }

  function LinkOne(links: seq<nat>, last: nat, c: nat): (r: seq<nat>)
    requires last < |links| && c < |links|
    ensures |r| == |links|
  {
    if last >= 2 then links[c := FAT32_EOC][last := c] else links[c := FAT32_EOC]
  }

  function LastOf(prev: nat, extra: seq<nat>): nat {
    if extra == [] then prev else extra[|extra| - 1]
  }

  /** Only the new clusters and the one they are linked to change. */
  lemma {:induction false} LinkAllSame(links: seq<nat>, prev: nat, extra: seq<nat>)
    requires prev < |links| && forall i :: 0 <= i < |extra| ==> extra[i] < |links|
    ensures SameBut(links, LinkAll(links, prev, extra), Elems(extra) + if prev >= 2 then {prev} else {})
  {
    if extra != [] {
      LinkAllSame(links, prev, extra[..|extra| - 1]);
    }
  }

  /** Fresh clusters linked after the last of a chain, or after nothing, extend the chain. */
  lemma {:induction false} ChainExtended(links: seq<nat>, limit: nat, first: nat, cl: seq<nat>, extra: seq<nat>)
    requires Chain(links, limit, first, cl) && Distinct(extra) && 1 <= limit
    requires forall i :: 0 <= i < |extra| ==> 2 <= extra[i] < limit && extra[i] !in cl
    ensures Chain(LinkAll(links, LastOf(0, cl), extra), limit, if cl + extra == [] then first else (cl + extra)[0], cl + extra)
  {
    if extra == [] {
      assert cl + extra == cl;
    } else {
      var front, c := extra[..|extra| - 1], extra[|extra| - 1];
      ChainExtended(links, limit, first, cl, front);
      assert cl + extra == cl + front + [c];
      assert LastOf(LastOf(0, cl), front) == LastOf(0, cl + front);
      OneMoreLinked(LinkAll(links, LastOf(0, cl), front), limit, if cl + front == [] then first else (cl + front)[0], cl + front, c);
    }
  }

  lemma OneMoreLinked(links: seq<nat>, limit: nat, first: nat, cl: seq<nat>, c: nat)
    requires Chain(links, limit, first, cl) && 2 <= c < limit && c !in cl
    ensures Chain(LinkOne(links, LastOf(0, cl), c), limit, (cl + [c])[0], cl + [c])
  {
    var links', cl' := LinkOne(links, LastOf(0, cl), c), cl + [c];
    forall i | 0 <= i < |cl'| - 1
      ensures links'[cl'[i]] == cl'[i + 1]
    {
      assert cl[i] in cl;
      if i < |cl| - 1 {
        assert cl[i] != cl[|cl| - 1];
      }
    }
  }

  /** Linked clusters are not free. */
  lemma {:induction false} LinkedNotFree(links: seq<nat>, prev: nat, extra: seq<nat>)
    requires prev < |links| && forall i :: 0 <= i < |extra| ==> 2 <= extra[i] < |links|
    requires prev >= 2 ==> links[prev] != FREE
    ensures forall c :: c in extra ==> LinkAll(links, prev, extra)[c] != FREE
    ensures prev >= 2 ==> LinkAll(links, prev, extra)[prev] != FREE
  {
    if extra != [] {
      LinkedNotFree(links, prev, extra[..|extra| - 1]);
    }
  }

  /** What a batch took: distinct clusters that were free. */
  ghost predicate Fresh(links: seq<nat>, limit: nat, extra: seq<nat>) {
    && Distinct(extra)
    && forall i :: 0 <= i < |extra| ==> 2 <= extra[i] < limit && extra[i] < |links| && links[extra[i]] == FREE
  }

  /** A cluster that is free now was free before and is none of those taken. */
  lemma StillFree(links: seq<nat>, limit: nat, prev: nat, extra: seq<nat>, c: nat)
    requires prev < |links| && Fresh(links, limit, extra) && (prev >= 2 ==> links[prev] != FREE)
    requires c < |links| && LinkAll(links, prev, extra)[c] == FREE
    ensures links[c] == FREE && c !in extra && (prev >= 2 ==> c != prev)
  {
    LinkedNotFree(links, prev, extra);
    LinkAllSame(links, prev, extra);
  }

  /** The data of some clusters zeroed. */
  ghost predicate ZeroedIn(data: seq<seq<byte>>, data': seq<seq<byte>>, bpc: nat, cl: seq<nat>) {
    |data'| == |data| && forall c :: 0 <= c < |data| ==> data'[c] == if c in cl then ZeroBytes(bpc) else data[c]
  }

  // ---- freeing ----

  /** Entries that are not free. */
  function Nonzero(links: seq<nat>): nat {
    if links == [] then 0 else Nonzero(links[..|links| - 1]) + if links[|links| - 1] != 0 then 1 else 0
  }

  lemma {:induction false} NonzeroFreed(links: seq<nat>, c: nat)
    requires c < |links|
    ensures Nonzero(links[c := 0]) == Nonzero(links) - if links[c] != 0 then 1 else 0
  {
    var n := |links| - 1;
    if c < n {
      NonzeroFreed(links[..n], c);
      assert links[c := 0][..n] == links[..n][c := 0];
    } else {
      assert links[c := 0][..n] == links[..n];
    }
  }

  /** Every link leads into the table or ends a walk. */
  ghost predicate InRange(links: seq<nat>) {
    forall c :: 0 <= c < |links| ==> links[c] < |links| || links[c] >= BAD
  }

  /** `links` with the clusters of `cl` freed. */
  function Freed(links: seq<nat>, cl: seq<nat>): (r: seq<nat>)
    requires forall i :: 0 <= i < |cl| ==> cl[i] < |links|
    ensures |r| == |links|
    ensures forall c :: 0 <= c < |links| ==> r[c] == if c in cl then 0 else links[c]
  {
    if cl == [] then links else Freed(links, cl[..|cl| - 1])[cl[|cl| - 1] := 0]
  }

  lemma ChainShape(links: seq<nat>, limit: nat, first: nat, cl: seq<nat>)
    requires Chain(links, limit, first, cl)
    ensures limit <= |links| && (first < 2 <==> cl == []) && (cl != [] ==> cl[0] == first)
    ensures forall i :: 0 <= i < |cl| ==> 2 <= cl[i] < limit
  {
  }

  /** Entries are as before or free. */
  ghost predicate OnlyFreed(links0: seq<nat>, links: seq<nat>) {
    |links| == |links0| && forall c :: 0 <= c < |links| ==> links[c] == links0[c] || links[c] == FREE
  }

  lemma NoneFreed(links: seq<nat>)
    ensures OnlyFreed(links, links)
  {
  }

  lemma OneFreed(links0: seq<nat>, links: seq<nat>, c: nat)
    requires OnlyFreed(links0, links) && InRange(links) && c < |links|
    ensures OnlyFreed(links0, links[c := FREE]) && InRange(links[c := FREE])
    ensures links[c] < |links| || links[c] >= BAD
  {
  }

  lemma NothingWalked(links: seq<nat>, limit: nat, first: nat, cl: seq<nat>)
    requires Chain(links, limit, first, cl)
    ensures Walked(links, links, cl, 0, first)
  {
    assert cl[..0] == [];
  }

  /** The walk has freed the first `i` clusters of the chain and stands at `c`. */
  ghost predicate Walked(links0: seq<nat>, links: seq<nat>, cl: seq<nat>, i: nat, c: nat) {
    && i <= |cl| && (forall j :: 0 <= j < |cl| ==> cl[j] < |links0|)
    && links == Freed(links0, cl[..i])
    && if i < |cl| then c == cl[i] else c < 2 || IsEoc(c)
  }

  lemma WalkedMore(links0: seq<nat>, links: seq<nat>, limit: nat, first: nat, cl: seq<nat>, i: nat, c: nat)
    requires Chain(links0, limit, first, cl) && Walked(links0, links, cl, i, c) && c >= 2 && !IsEoc(c) && limit < BAD
    ensures i < |cl| && c < |links| && Walked(links0, links[c := FREE], cl, i + 1, links[c])
  {
    assert cl[..i + 1][..i] == cl[..i];
    assert cl[i] !in cl[..i];
  }

  lemma WalkedAll(links0: seq<nat>, links: seq<nat>, limit: nat, first: nat, cl: seq<nat>, i: nat, c: nat)
    requires Chain(links0, limit, first, cl) && Walked(links0, links, cl, i, c) && (c < 2 || IsEoc(c) || c == BAD) && limit < BAD
    ensures links == Freed(links0, cl)
  {
    assert cl[..|cl|] == cl;
  }

  // ---- all the chains of a volume ----

  ghost function OwnedBy(chains: map<nat, seq<nat>>): set<nat> {
    set k, c | k in chains && c in chains[k] :: c
  }

  /** The chains are disjoint, and the clusters in use are theirs or belong to nobody. */
  ghost predicate Forest(links: seq<nat>, limit: nat, chains: map<nat, seq<nat>>, orphans: set<nat>) {
    && 2 <= limit <= |links|
    && (forall k :: k in chains ==> chains[k] != [] && Chain(links, limit, k, chains[k]))
    && (forall k, m :: k in chains && m in chains && k != m ==> Elems(chains[k]) !! Elems(chains[m]))
    && (forall c :: c in orphans ==> 2 <= c < limit) && OwnedBy(chains) !! orphans
    && forall c :: 2 <= c < limit ==> (links[c] != FREE <==> c in OwnedBy(chains) || c in orphans)
  }

  lemma OwnedSplit(chains: map<nat, seq<nat>>, k: nat, cl: seq<nat>)
    ensures OwnedBy(chains[k := cl]) == OwnedBy(chains - {k}) + Elems(cl)
    ensures k in chains ==> OwnedBy(chains) == OwnedBy(chains - {k}) + Elems(chains[k])
  {
    forall c | c in OwnedBy(chains[k := cl])
      ensures c in OwnedBy(chains - {k}) + Elems(cl)
    {
      var m :| m in chains[k := cl] && c in chains[k := cl][m];
      assert m != k ==> m in chains - {k} && c in (chains - {k})[m];
    }
    forall c | c in OwnedBy(chains - {k}) + Elems(cl)
      ensures c in OwnedBy(chains[k := cl])
    {
      if c in OwnedBy(chains - {k}) {
        var m :| m in chains - {k} && c in (chains - {k})[m];
        assert m in chains[k := cl] && c in chains[k := cl][m];
      } else {
        assert c in chains[k := cl][k];
      }
    }
    if k in chains {
      forall c | c in OwnedBy(chains)
        ensures c in OwnedBy(chains - {k}) + Elems(chains[k])
      {
        var m :| m in chains && c in chains[m];
        assert m != k ==> m in chains - {k} && c in (chains - {k})[m];
      }
    }
  }

  lemma OwnedRest(links: seq<nat>, limit: nat, chains: map<nat, seq<nat>>, orphans: set<nat>, k: nat)
    requires Forest(links, limit, chains, orphans) && k in chains
    ensures Elems(chains[k]) !! OwnedBy(chains - {k})
  {
    forall c | c in OwnedBy(chains - {k})
      ensures c !in Elems(chains[k])
    {
      var m :| m in chains - {k} && c in (chains - {k})[m];
      assert c in Elems(chains[m]);
    }
  }

  /** Clusters that were free belong to none of the other chains and are no orphans. */
  lemma TakenApart(links: seq<nat>, limit: nat, chains: map<nat, seq<nat>>, orphans: set<nat>, k: nat, cl: seq<nat>)
    requires Forest(links, limit, chains, orphans)
    requires forall c :: c in cl ==> 2 <= c < limit && ((k in chains && c in chains[k]) || links[c] == FREE)
    ensures Elems(cl) !! OwnedBy(chains - {k}) && Elems(cl) !! orphans
    ensures forall m :: m in chains && m != k ==> Elems(chains[m]) !! Elems(cl)
  {
    hide Chain;
    OwnedSplit(chains, k, cl);
    if k in chains {
      OwnedRest(links, limit, chains, orphans, k);
    } else {
      assert chains - {k} == chains;
    }
    forall c | c in Elems(cl)
      ensures c !in OwnedBy(chains - {k}) && c !in orphans
    {
      if k in chains && c in chains[k] {
        assert c in Elems(chains[k]);
      }
    }
    forall m | m in chains && m != k
      ensures Elems(chains[m]) !! Elems(cl)
    {
      assert m in chains - {k};
      assert Elems(chains[m]) <= OwnedBy(chains - {k}) by {
        assert forall c :: c in chains[m] ==> m in chains - {k} && c in (chains - {k})[m];
      }
    }
  }

  /** Replacing the chain of `k` (if it has one) by `cl`, touching nothing else. */
  lemma ForestChanged(links: seq<nat>, links': seq<nat>, limit: nat, chains: map<nat, seq<nat>>, orphans: set<nat>,
                      k: nat, cl: seq<nat>, touched: set<nat>)
    requires Forest(links, limit, chains, orphans) && cl != [] && Chain(links', limit, cl[0], cl) && k == cl[0]
    requires forall c :: c in cl ==> 2 <= c < limit && ((k in chains && c in chains[k]) || links[c] == FREE)
    requires k in chains ==> Elems(chains[k]) <= Elems(cl)
    requires SameBut(links, links', touched) && touched <= Elems(cl)
    ensures Forest(links', limit, chains[k := cl], orphans)
  {
    hide Chain;
    OwnedSplit(chains, k, cl);
    if k !in chains {
      assert chains - {k} == chains;
    }
    TakenApart(links, limit, chains, orphans, k, cl);
    forall m | m in chains && m != k
      ensures Chain(links', limit, m, chains[m])
    {
      ChainKept(links, links', limit, m, chains[m], touched);
    }
    forall c | 2 <= c < limit
      ensures links'[c] != FREE <==> c in OwnedBy(chains[k := cl]) || c in orphans
    {
      if c in cl {
        assert c in Elems(cl);
        ChainNotFree(links', limit, cl[0], cl, c);
      }
    }
  }

  lemma ChainNotFree(links: seq<nat>, limit: nat, first: nat, cl: seq<nat>, c: nat)
    requires Chain(links, limit, first, cl) && c in cl
    ensures c < |links| && links[c] != FREE
  {
    var i :| 0 <= i < |cl| && cl[i] == c;
    assert i < |cl| - 1 ==> links[cl[i]] == cl[i + 1];
  }

  /** A batch linked to a chain extends that chain and leaves the others alone. */
  lemma ForestExtended(links: seq<nat>, limit: nat, chains: map<nat, seq<nat>>, orphans: set<nat>, k: nat, extra: seq<nat>)
    requires Forest(links, limit, chains, orphans) && k in chains && Fresh(links, limit, extra)
    ensures chains[k] != [] && chains[k][|chains[k]| - 1] < |links|
    ensures Forest(LinkAll(links, LastOf(0, chains[k]), extra), limit, chains[k := chains[k] + extra], orphans)
  {
    var cl := chains[k];
    forall i | 0 <= i < |extra|
      ensures extra[i] !in cl
    {
      if extra[i] in cl {
        ChainNotFree(links, limit, k, cl, extra[i]);
      }
    }
    ChainExtended(links, limit, k, cl, extra);
    LinkAllSame(links, LastOf(0, cl), extra);
    ForestChanged(links, LinkAll(links, LastOf(0, cl), extra), limit, chains, orphans, k, cl + extra, Elems(extra) + {LastOf(0, cl)});
  }

  lemma NoChain(links: seq<nat>, limit: nat)
    requires limit <= |links|
    ensures Chain(links, limit, 0, [])
  {
  }

  lemma ChainHead(links: seq<nat>, limit: nat, first: nat, cl: seq<nat>)
    requires Chain(links, limit, first, cl) && cl != []
    ensures first in cl
  {
  }

  /** A batch linked to nothing is a new chain. */
  lemma ForestStarted(links: seq<nat>, limit: nat, chains: map<nat, seq<nat>>, orphans: set<nat>, extra: seq<nat>)
    requires Forest(links, limit, chains, orphans) && extra != [] && Fresh(links, limit, extra)
    ensures extra[0] !in chains && Forest(LinkAll(links, 0, extra), limit, chains[extra[0] := extra], orphans)
  {
    hide Chain, LinkAll;
    var k := extra[0];
    if k in chains {
      ChainHead(links, limit, k, chains[k]);
      ChainNotFree(links, limit, k, chains[k], k);
    }
    assert Chain(links, limit, 0, []) by { NoChain(links, limit); }
    ChainExtended(links, limit, 0, [], extra);
    assert [] + extra == extra;
    var links' := LinkAll(links, 0, extra);
    assert Chain(links', limit, k, extra);
    LinkAllSame(links, 0, extra);
    assert SameBut(links, links', Elems(extra));
    ForestChanged(links, links', limit, chains, orphans, k, extra, Elems(extra));
  }

  /** Freeing a chain removes it and leaves the others alone. */
  lemma ForestFreed(links: seq<nat>, limit: nat, chains: map<nat, seq<nat>>, orphans: set<nat>, k: nat)
    requires Forest(links, limit, chains, orphans) && k in chains
    ensures forall i :: 0 <= i < |chains[k]| ==> chains[k][i] < |links|
    ensures Forest(Freed(links, chains[k]), limit, chains - {k}, orphans)
  {
    var links' := Freed(links, chains[k]);
    OwnedSplit(chains, k, []);
    OwnedRest(links, limit, chains, orphans, k);
    forall m | m in chains - {k}
      ensures Chain(links', limit, m, (chains - {k})[m])
    {
      ChainKept(links, links', limit, m, chains[m], Elems(chains[k]));
    }
    forall c | 2 <= c < limit
      ensures links'[c] != FREE <==> c in OwnedBy(chains - {k}) || c in orphans
    {
      assert c in chains[k] <==> c in Elems(chains[k]);
    }
  }

  /** In a forest every link is in range exactly when those outside its chains are: the links of
    * orphans, of the two reserved entries and of the padding after the last cluster.
    */
  lemma ForestInRange(links: seq<nat>, limit: nat, chains: map<nat, seq<nat>>, orphans: set<nat>)
    requires Forest(links, limit, chains, orphans)
    ensures InRange(links) <==>
            forall c :: 0 <= c < |links| && (c < 2 || c >= limit || c in orphans) ==> links[c] < |links| || links[c] >= BAD
  {
    forall c | 2 <= c < limit && c !in orphans
      ensures links[c] < |links| || links[c] >= BAD
    {
      if links[c] != FREE {
        var k :| k in chains && c in chains[k];
        var i :| 0 <= i < |chains[k]| && chains[k][i] == c;
        assert i < |chains[k]| - 1 ==> links[c] == chains[k][i + 1];
      }
    }
  }

  // ---- the volume ----

  class Fat32 {
    const fat: FatCache
    const store: ClusterStore
    const total: nat
    var hint: nat

    constructor (fat: FatCache, store: ClusterStore, total: nat)
      requires fat.Valid() && store.Valid() && total + 2 <= |fat.copy1| * 128 && total + 2 < BAD && |store.data| == total + 2
      ensures Valid() && this.fat == fat && this.store == store && this.total == total
    {
      this.fat, this.store, this.total := fat, store, total;
      hint := 2;
    }

    /** Every cluster has an entry in the table, whose numbers stay below the markers. */
    ghost predicate Valid()
      reads this, fat, store
    {
      fat.Valid() && store.Valid() && total + 2 <= |fat.copy1| * 128 && total + 2 < BAD && |store.data| == total + 2
    }

    ghost function Links(): (l: seq<nat>)
      requires Valid()
      reads this, fat, store
      ensures |l| == |fat.copy1| * 128
    {
      LinksOf(fat.Table())
    }

    method ReadLink(c: nat) returns (value: nat)
      requires Valid() && c < |fat.copy1| * 128
      modifies fat
      ensures Valid() && Links() == old(Links()) && value == Links()[c] < 0x1000_0000
    {
      value := fat.Read(c);
    }

    method SetLink(c: nat, value: nat)
      requires Valid() && c < |fat.copy1| * 128 && value < 0x1000_0000
      modifies fat
      ensures Valid() && Links() == old(Links())[c := value]
    {
      ghost var t := fat.Table();
      var _ := fat.Write(c, value);
      LinkWritten(t, c, value);
    }

    method FlushFat()
      requires Valid()
      modifies fat
      ensures Valid() && Links() == old(Links()) && !fat.dirty
    {
      fat.Flush();
    }

    /** Allocate one cluster and link it after `prev`, if that is one. Zero means none is free. */
    method AllocCluster(prev: nat, zero: bool) returns (c: nat)
      requires Valid() && prev < total + 2 && (prev >= 2 ==> Links()[prev] != FREE)
      modifies this`hint, fat, store
      ensures Valid()
      ensures c == 0 ==> Links() == old(Links()) && store.data == old(store.data) && NoneFree(Links(), total + 2)
      ensures c != 0 ==> 2 <= c < total + 2 && old(Links())[c] == FREE && Links() == LinkOne(old(Links()), prev, c)
      ensures c != 0 ==> store.data == if zero then old(store.data)[c := ZeroBytes(store.bpc)] else old(store.data)
    {
      hide LinkOne, LinksOf;
      var limit := total + 2;
      var start := if 2 <= hint < limit then hint else 2;
      ghost var links0 := Links();
      for pass := 0 to 2
        invariant Valid() && Links() == links0 && store.data == old(store.data)
        invariant pass >= 1 ==> forall d :: start <= d < limit ==> links0[d] != FREE
        invariant pass >= 2 ==> forall d :: 2 <= d < start ==> links0[d] != FREE
      {
        var begin := if pass == 0 then start else 2;
        var end := if pass == 0 then limit else start;
        c := NextFree(begin, end);
        if c < end {
          TakeCluster(c, prev);
          if zero {
            store.ZeroCluster(c);
          }
          hint := c + 1;
          return;
        }
      }
      c := 0;
    }

    /** The first free cluster from `begin` on, or `end` if there is none before it. */
    method NextFree(begin: nat, end: nat) returns (c: nat)
      requires Valid() && 2 <= begin && end <= total + 2
      modifies fat
      ensures Valid() && Links() == old(Links())
      ensures begin <= c && (c < end ==> Links()[c] == FREE)
      ensures forall d :: begin <= d < c && d < end ==> Links()[d] != FREE
      ensures c >= end ==> c == Max(begin, end)
    {
      hide LinksOf;
      ghost var links0 := Links();
      c := begin;
      while c < end
        invariant begin <= c <= Max(begin, end) && Valid() && Links() == links0
        invariant forall d :: begin <= d < c ==> links0[d] != FREE
      {
        var link := ReadLink(c);
        if link == FREE {
          return;
        }
        c := c + 1;
      }
    }

    /** Take one more cluster of a batch. */
    method TakeNext(c: nat, last: nat, zero: bool, ghost links0: seq<nat>, ghost data0: seq<seq<byte>>, ghost prev: nat, ghost extra: seq<nat>)
      requires Valid() && 2 <= c < total + 2 && last == LastOf(prev, extra) < total + 2 && prev < |links0|
      requires Fresh(links0, total + 2, extra) && (prev >= 2 ==> links0[prev] != FREE)
      requires Links() == LinkAll(links0, prev, extra) && Links()[c] == FREE
      requires if zero then ZeroedIn(data0, store.data, store.bpc, extra) else store.data == data0
      modifies fat, store
      ensures Valid() && Fresh(links0, total + 2, extra + [c]) && Links() == LinkAll(links0, prev, extra + [c])
      ensures StillUsed(old(Links()), Links()) && Links()[c] != FREE
      ensures if zero then ZeroedIn(data0, store.data, store.bpc, extra + [c]) else store.data == data0
    {
      hide LinksOf, LinkOne, ZeroBytes, Chain;
      LinkOneUsed(Links(), last, c);
      StillFree(links0, total + 2, prev, extra, c);
      assert (extra + [c])[..|extra|] == extra;
      TakeCluster(c, last);
      store.Invalidate(c);
      if zero {
        store.ZeroCluster(c);
      }
    }

    /** Allocate up to `count` clusters and link them after `prev`: it stops short only when no
      * cluster is free.
      */
    method AllocBatch(prev: nat, count: nat, zero: bool)
      returns (first: nat, last: nat, taken: nat, ghost extra: seq<nat>)
      requires Valid() && prev < total + 2 && (prev >= 2 ==> Links()[prev] != FREE)
      modifies this`hint, fat, store
      ensures Valid() && taken == |extra| <= count && Fresh(old(Links()), total + 2, extra)
      ensures Links() == LinkAll(old(Links()), prev, extra)
      ensures last == LastOf(prev, extra) && first == if extra == [] then 0 else extra[0]
      ensures taken < count ==> NoneFree(Links(), total + 2)
      ensures if zero then ZeroedIn(old(store.data), store.data, store.bpc, extra) else store.data == old(store.data)
    {
      hide LinksOf, LinkAll, ZeroBytes, Fresh;
      first, last, taken, extra := 0, prev, 0, [];
      ghost var links0, data0 := Links(), store.data;
      assert Fresh(links0, total + 2, extra) && Links() == LinkAll(links0, prev, extra) by { NothingTaken(links0, total + 2, prev); }
      var limit := total + 2;
      var start := if 2 <= hint < limit then hint else 2;
      var pass := 0;
      while pass < 2 && taken < count
        invariant pass <= 2 && Batch(links0, data0, prev, count, zero, first, last, taken, extra)
        invariant taken < count && pass >= 1 ==> forall d :: start <= d < limit ==> Links()[d] != FREE
        invariant taken < count && pass >= 2 ==> forall d :: 2 <= d < start ==> Links()[d] != FREE
      {
        var begin := if pass == 0 then start else 2;
        var end := if pass == 0 then limit else start;
        first, last, taken, extra :=
          TakeFrom(begin, end, prev, count, zero, first, last, taken, links0, data0, extra);
        pass := pass + 1;
      }
      if taken > 0 {
        hint := last + 1;
      }
    }

    /** Where a batch stands. */
    ghost predicate Batch(links0: seq<nat>, data0: seq<seq<byte>>, prev: nat, count: nat, zero: bool,
                          first: nat, last: nat, taken: nat, extra: seq<nat>)
      reads this, fat, store
    {
      && Valid() && taken == |extra| <= count && prev < |links0| && (prev >= 2 ==> links0[prev] != FREE)
      && Fresh(links0, total + 2, extra) && Links() == LinkAll(links0, prev, extra)
      && last == LastOf(prev, extra) < total + 2 && first == (if extra == [] then 0 else extra[0])
      && if zero then ZeroedIn(data0, store.data, store.bpc, extra) else store.data == data0
    }

    /** Take a free cluster into the batch. */
    method TakeOne(c: nat, prev: nat, count: nat, zero: bool, first: nat, last: nat, taken: nat,
                   ghost links0: seq<nat>, ghost data0: seq<seq<byte>>, ghost extra: seq<nat>)
      requires Batch(links0, data0, prev, count, zero, first, last, taken, extra) && taken < count
      requires 2 <= c < total + 2 && Links()[c] == FREE
      modifies fat, store
      ensures Batch(links0, data0, prev, count, zero, if first == 0 then c else first, c, taken + 1, extra + [c])
      ensures StillUsed(old(Links()), Links()) && Links()[c] != FREE
    {
      hide LinksOf, LinkAll, ZeroBytes, Fresh, ZeroedIn, Chain, LinkOne, StillUsed;
      TakeNext(c, last, zero, links0, data0, prev, extra);
      FreshHead(links0, total + 2, extra);
    }

    /** One pass of a batch over the clusters from `begin` to `end`. Clusters in use stay in use. */
    method TakeFrom(begin: nat, end: nat, prev: nat, count: nat, zero: bool, first0: nat, last0: nat, taken0: nat,
                    ghost links0: seq<nat>, ghost data0: seq<seq<byte>>, ghost before: seq<nat>)
      returns (first: nat, last: nat, taken: nat, ghost extra: seq<nat>)
      requires Batch(links0, data0, prev, count, zero, first0, last0, taken0, before) && 2 <= begin && end <= total + 2
      modifies fat, store
      ensures Batch(links0, data0, prev, count, zero, first, last, taken, extra)
      ensures taken < count ==> forall d :: begin <= d < end ==> Links()[d] != FREE
      ensures StillUsed(old(Links()), Links())
    {
      hide LinksOf, LinkAll, ZeroBytes, Fresh, ZeroedIn, Chain, LinkOne;
      first, last, taken, extra := first0, last0, taken0, before;
      var c := begin;
      while c < end && taken < count
        invariant begin <= c <= Max(begin, end) && Batch(links0, data0, prev, count, zero, first, last, taken, extra)
        invariant forall d :: begin <= d < c ==> Links()[d] != FREE
        invariant StillUsed(old(Links()), Links())
      {
        var link := ReadLink(c);
        if link == FREE {
          TakeOne(c, prev, count, zero, first, last, taken, links0, data0, extra);
          extra := extra + [c];
          first := if first == 0 then c else first;
          last := c;
          taken := taken + 1;
        }
        c := c + 1;
      }
    }

    /** Free the chain from `start`. On any table whose links stay in range, cyclic ones
      * included, the walk ends: it frees an entry at each step and stops at a free one.
      */
    method FreeChain(start: nat, ghost cl: seq<nat>)
      requires Valid() && InRange(Links()) && (start < |Links()| || start >= BAD)
      modifies fat
      ensures Valid() && InRange(Links()) && |Links()| == |old(Links())|
      ensures OnlyFreed(old(Links()), Links())
      ensures Chain(old(Links()), total + 2, start, cl) ==> Links() == Freed(old(Links()), cl)
    {
      hide LinksOf, Nonzero, Freed, Chain, InRange, OnlyFreed, Walked;
      NoneFreed(Links());
      ghost var links0, chained := Links(), Chain(Links(), total + 2, start, cl);
      ghost var i: nat := 0;
      var c: nat := start;
      if chained {
        ChainShape(links0, total + 2, start, cl);
        NothingWalked(links0, total + 2, start, cl);
      }
      while c >= 2 && !IsEoc(c) && c != BAD
        invariant Valid() && InRange(Links()) && |Links()| == |links0| && (c < |Links()| || c >= BAD)
        invariant OnlyFreed(links0, Links())
        invariant chained ==> Walked(links0, Links(), cl, i, c)
        decreases Nonzero(Links()), if c >= 2 && !IsEoc(c) && c != BAD then 1 else 0
      {
        NonzeroFreed(Links(), c);
        OneFreed(links0, Links(), c);
        ghost var links1 := Links();
        var next := ReadLink(c);
        SetLink(c, FREE);
        if chained {
          WalkedMore(links0, links1, total + 2, start, cl, i, c);
          i := i + 1;
        }
        c := next;
      }
      if chained {
        WalkedAll(links0, Links(), total + 2, start, cl, i, c);
      }
    }

    /** Mark a cluster as the end of a chain and link it after `last`. */
    method TakeCluster(c: nat, last: nat)
      requires Valid() && 2 <= c < total + 2 && last < total + 2
      modifies fat
      ensures Valid() && Links() == LinkOne(old(Links()), last, c)
    {
      SetLink(c, FAT32_EOC);
      if last >= 2 {
        SetLink(last, c);
      }
    }
  }

  lemma NothingTaken(links: seq<nat>, limit: nat, prev: nat)
    requires prev < |links|
    ensures Fresh(links, limit, []) && LinkAll(links, prev, []) == links
  {
  }

  lemma FreshHead(links: seq<nat>, limit: nat, extra: seq<nat>)
    requires Fresh(links, limit, extra)
    ensures extra != [] ==> extra[0] >= 2
  {
  }

  /** Clusters in use stay in use. */
  ghost predicate StillUsed(links: seq<nat>, links': seq<nat>) {
    |links| == |links'| && forall c :: 0 <= c < |links| && links[c] != FREE ==> links'[c] != FREE
  }

  lemma LinkOneUsed(links: seq<nat>, last: nat, c: nat)
    requires last < |links| && 2 <= c < |links|
    ensures StillUsed(links, LinkOne(links, last, c)) && LinkOne(links, last, c)[c] != FREE
  {
  }

  ghost predicate NoneFree(links: seq<nat>, limit: nat) {
    forall c :: 2 <= c < limit && c < |links| ==> links[c] != FREE
  }
}
