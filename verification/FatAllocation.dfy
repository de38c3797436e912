/** Runs of the allocator: taking clusters one by one, in batches and for a file, and freeing
  * chains keep the table a set of disjoint chains.
  */
module FatAllocation {
  import opened Arith
  import opened Bytes
  import opened FatTable
  import opened FatClusters
  import opened FatChains
  import opened FatFiles
  import opened FatWrite

  /** A chain is named by its place in the list of chain heads; a place past its end starts a new
    * chain.
    */
  datatype AllocOp =
    | TakeOne(at: nat, zero: bool)
    | TakeMany(at: nat, count: nat, zero: bool)
    | Cover(at: nat, bytes: nat)
    | Release(at: nat)

  function HeadAt(heads: seq<nat>, at: nat): nat {
    if at < |heads| then heads[at] else 0
  }

  ghost function ChainOf(chains: map<nat, seq<nat>>, k: nat): seq<nat> {
    if k in chains then chains[k] else []
  }

  /** `chains` with `extra` linked after the chain of `k`, or started on its own. */
  ghost function Longer(chains: map<nat, seq<nat>>, k: nat, extra: seq<nat>): map<nat, seq<nat>> {
    if extra == [] then chains
    else if k in chains then chains[k := chains[k] + extra]
    else chains[extra[0] := extra]
  }

  /** Clusters an operation asks for, beyond those its chain has; the count for a number of bytes is
    * rounded in 32 bits.
    */
  ghost function Wanted(op: AllocOp, cl: seq<nat>, bpc: nat): int
    requires bpc >= 1
  {
    match op
    case TakeOne(_, _) => 1
    case TakeMany(_, count, _) => count
    case Cover(_, bytes) => Needed(bytes, bpc) - |cl|
    case Release(_) => 0
  }

  /** What an operation did: it freed one whole chain, or took free clusters for one chain, fewer
    * than it asked for only when no cluster is left. No other chain is touched.
    */
  ghost predicate Did(op: AllocOp, bpc: nat, limit: nat, heads: seq<nat>, links: seq<nat>, chains: map<nat, seq<nat>>,
                      heads': seq<nat>, links': seq<nat>, chains': map<nat, seq<nat>>)
    requires bpc >= 1
  {
    var k := HeadAt(heads, op.at);
    if op.Release? then
      && chains' == chains - {k} && SameBut(links, links', Elems(ChainOf(chains, k)))
      && (k in chains ==> forall c :: c in chains[k] ==> c < |links'| && links'[c] == FREE)
    else
      exists extra ::
        && Fresh(links, limit, extra) && chains' == Longer(chains, k, extra)
        && SameBut(links, links', Elems(extra) + Elems(ChainOf(chains, k)))
        && (|extra| < Wanted(op, ChainOf(chains, k), bpc) ==> NoneFree(links', limit))
  }

  /** The heads are those of the chains of the forest. */
  ghost predicate Managed(v: Fat32, heads: seq<nat>, chains: map<nat, seq<nat>>, orphans: set<nat>)
    reads v, v.fat, v.store
  {
    && v.Valid() && v.store.bpc >= 1 && InRange(v.Links()) && Forest(v.Links(), v.total + 2, chains, orphans)
    && Distinct(heads) && Elems(heads) == chains.Keys
  }

  lemma HeadFacts(v: Fat32, heads: seq<nat>, chains: map<nat, seq<nat>>, orphans: set<nat>, at: nat)
    requires Managed(v, heads, chains, orphans)
    ensures var k := HeadAt(heads, at);
            && (at < |heads| <==> k in chains) && Chain(v.Links(), v.total + 2, k, ChainOf(chains, k))
            && (k in chains ==> k >= 2 && ChainOf(chains, k) != [])
            && LastOf(0, ChainOf(chains, k)) < v.total + 2
            && (LastOf(0, ChainOf(chains, k)) >= 2 ==> v.Links()[LastOf(0, ChainOf(chains, k))] != FREE)
  {
    var k := HeadAt(heads, at);
    if at < |heads| {
      assert k in Elems(heads);
      var cl := chains[k];
      ChainNotFree(v.Links(), v.total + 2, k, cl, cl[|cl| - 1]);
    } else if 0 in chains {
      assert false;
    }
  }

  /** The heads after clusters were taken for the chain of `k`. */
  function HeadsWith(heads: seq<nat>, at: nat, taken: nat): seq<nat> {
    if at < |heads| || taken == 0 then heads else heads + [taken]
  }

  /** Clusters taken for one chain keep the forest. */
  lemma TakenInForest(links: seq<nat>, limit: nat, heads: seq<nat>, chains: map<nat, seq<nat>>, orphans: set<nat>, at: nat, extra: seq<nat>)
    requires Forest(links, limit, chains, orphans) && InRange(links) && Fresh(links, limit, extra)
    requires Distinct(heads) && Elems(heads) == chains.Keys && (at < |heads| <==> HeadAt(heads, at) in chains)
    ensures var k := HeadAt(heads, at);
            var last := LastOf(0, ChainOf(chains, k));
            last < |links| && var links' := LinkAll(links, last, extra); var heads' := HeadsWith(heads, at, if extra == [] then 0 else extra[0]);
            && Forest(links', limit, Longer(chains, k, extra), orphans) && InRange(links')
            && SameBut(links, links', Elems(extra) + Elems(ChainOf(chains, k)))
            && Distinct(heads') && Elems(heads') == Longer(chains, k, extra).Keys
  {
    hide Chain, LinkAll;
    var k := HeadAt(heads, at);
    var cl := ChainOf(chains, k);
    if k in chains {
      ForestExtended(links, limit, chains, orphans, k, extra);
    }
    LinkAllSame(links, LastOf(0, cl), extra);
    LinkAllInRange(links, LastOf(0, cl), extra);
    if extra == [] {
      NothingLinked(links, LastOf(0, cl));
    } else if k !in chains {
      ForestStarted(links, limit, chains, orphans, extra);
      var heads' := heads + [extra[0]];
      assert Elems(heads') == Elems(heads) + {extra[0]};
      assert extra[0] !in Elems(heads);
    } else {
      assert LastOf(0, cl) in cl;
      assert cl + extra != cl;
      assert Longer(chains, k, extra).Keys == chains.Keys;
    }
  }

  lemma NothingLinked(links: seq<nat>, last: nat)
    requires last < |links|
    ensures LinkAll(links, last, []) == links
  {
  }

  lemma HeadRemoved(heads: seq<nat>, at: nat)
    requires Distinct(heads) && at < |heads|
    ensures Distinct(heads[..at] + heads[at + 1..]) && Elems(heads[..at] + heads[at + 1..]) == Elems(heads) - {heads[at]}
  {
    var r := heads[..at] + heads[at + 1..];
    assert forall i :: 0 <= i < |r| ==> r[i] == heads[if i < at then i else i + 1];
    forall c | c in Elems(heads) - {heads[at]}
      ensures c in Elems(r)
    {
      var i :| 0 <= i < |heads| && heads[i] == c;
      assert r[if i < at then i else i - 1] == c;
    }
  }

  /** The last cluster of a chain, or 0 for a new one. */
  method LastCluster(v: Fat32, heads: seq<nat>, at: nat, ghost chains: map<nat, seq<nat>>, ghost orphans: set<nat>) returns (last: nat)
    requires Managed(v, heads, chains, orphans)
    modifies v.fat
    ensures v.Valid() && v.Links() == old(v.Links()) && last == LastOf(0, ChainOf(chains, HeadAt(heads, at)))
  {
    hide LinksOf, Chain, Forest, InRange;
    HeadFacts(v, heads, chains, orphans, at);
    last := 0;
    if at < |heads| {
      var len;
      len, last := MeasureChain(v, heads[at], ChainOf(chains, heads[at]));
    }
  }

  /** What taking `extra` for a chain did. */
  lemma TakenDid(op: AllocOp, bpc: nat, limit: nat, heads: seq<nat>, links: seq<nat>, chains: map<nat, seq<nat>>, orphans: set<nat>,
                 extra: seq<nat>, links': seq<nat>)
    requires bpc >= 1 && !op.Release? && Forest(links, limit, chains, orphans) && InRange(links) && Fresh(links, limit, extra)
    requires Distinct(heads) && Elems(heads) == chains.Keys && (op.at < |heads| <==> HeadAt(heads, op.at) in chains)
    requires var cl := ChainOf(chains, HeadAt(heads, op.at));
             && LastOf(0, cl) < |links| && links' == LinkAll(links, LastOf(0, cl), extra)
             && (|extra| < Wanted(op, cl, bpc) ==> NoneFree(links', limit))
    ensures var heads' := HeadsWith(heads, op.at, if extra == [] then 0 else extra[0]);
            var chains' := Longer(chains, HeadAt(heads, op.at), extra);
            && Did(op, bpc, limit, heads, links, chains, heads', links', chains')
            && Forest(links', limit, chains', orphans) && InRange(links') && Distinct(heads') && Elems(heads') == chains'.Keys
  {
    hide Chain, LinkAll, Forest, InRange, NoneFree, Fresh, Wanted;
    TakenInForest(links, limit, heads, chains, orphans, op.at, extra);
  }

  lemma OneIsAll(links: seq<nat>, last: nat, c: nat)
    requires last < |links| && c < |links|
    ensures LinkAll(links, last, [c]) == LinkOne(links, last, c)
  {
    assert [c][..0] == [];
    assert LinkAll(links, last, []) == links;
  }

  /** Carry out one operation. */
  method Do(v: Fat32, heads: seq<nat>, op: AllocOp, ghost chains: map<nat, seq<nat>>, ghost orphans: set<nat>)
    returns (heads': seq<nat>, ghost chains': map<nat, seq<nat>>)
    requires Managed(v, heads, chains, orphans)
    modifies v`hint, v.fat, v.store
    ensures Managed(v, heads', chains', orphans)
    ensures Did(op, v.store.bpc, v.total + 2, heads, old(v.Links()), chains, heads', v.Links(), chains')
  {
    hide LinksOf, Chain, Forest, InRange, NoneFree, Fresh, Wanted, LinkAll, LinkOne, Did;
    HeadFacts(v, heads, chains, orphans, op.at);
    if op.Release? {
      heads', chains' := DoRelease(v, heads, op, chains, orphans);
      return;
    }
    ghost var extra, links := [], v.Links();
    ghost var cl := ChainOf(chains, HeadAt(heads, op.at));
    var first: nat := 0;
    if op.Cover? {
      first, extra := DoCover(v, heads, op, chains, orphans);
    } else {
      var last := LastCluster(v, heads, op.at, chains, orphans);
      if op.TakeOne? {
        first := v.AllocCluster(last, op.zero);
        extra := if first == 0 then [] else [first];
        TookOne(links, v.total + 2, last, first, cl, op, v.store.bpc);
      } else {
        var l, taken;
        first, l, taken, extra := v.AllocBatch(last, op.count, op.zero);
        AskedMany(op, cl, v.store.bpc);
      }
    }
    TakenDid(op, v.store.bpc, v.total + 2, heads, links, chains, orphans, extra, v.Links());
    chains' := Longer(chains, HeadAt(heads, op.at), extra);
    heads' := HeadsWith(heads, op.at, first);
  }

  lemma TookOne(links: seq<nat>, limit: nat, last: nat, c: nat, cl: seq<nat>, op: AllocOp, bpc: nat)
    requires last < |links| && limit <= |links| && (c != 0 ==> 2 <= c < limit && links[c] == FREE) && op.TakeOne? && bpc >= 1
    ensures var extra := if c == 0 then [] else [c];
            && Fresh(links, limit, extra) && LinkAll(links, last, extra) == (if c == 0 then links else LinkOne(links, last, c))
            && Wanted(op, cl, bpc) == 1
  {
    if c != 0 {
      OneIsAll(links, last, c);
    }
  }

  lemma AskedMany(op: AllocOp, cl: seq<nat>, bpc: nat)
    requires op.TakeMany? && bpc >= 1
    ensures Wanted(op, cl, bpc) == op.count
  {
  }

  /** Free a whole chain. */
  method FreeWhole(v: Fat32, k: nat, ghost cl: seq<nat>)
    requires v.Valid() && InRange(v.Links()) && Chain(v.Links(), v.total + 2, k, cl)
    modifies v.fat
    ensures v.Valid() && InRange(v.Links()) && (forall i :: 0 <= i < |cl| ==> cl[i] < |old(v.Links())|)
    ensures v.Links() == Freed(old(v.Links()), cl)
  {
    hide LinksOf, Chain, InRange, Freed, OnlyFreed;
    ChainShape(v.Links(), v.total + 2, k, cl);
    v.FreeChain(k, cl);
  }

  method DoRelease(v: Fat32, heads: seq<nat>, op: AllocOp, ghost chains: map<nat, seq<nat>>, ghost orphans: set<nat>)
    returns (heads': seq<nat>, ghost chains': map<nat, seq<nat>>)
    requires Managed(v, heads, chains, orphans) && op.Release?
    modifies v.fat
    ensures Managed(v, heads', chains', orphans)
    ensures Did(op, v.store.bpc, v.total + 2, heads, old(v.Links()), chains, heads', v.Links(), chains')
  {
    hide LinksOf, Chain, Forest, InRange, Freed, Did, Distinct, OnlyFreed;
    HeadFacts(v, heads, chains, orphans, op.at);
    heads', chains' := heads, chains;
    ghost var links, k := v.Links(), HeadAt(heads, op.at);
    if op.at < |heads| {
      FreeWhole(v, heads[op.at], chains[k]);
      ReleasedDid(op, v.store.bpc, v.total + 2, heads, links, chains, orphans);
      heads' := heads[..op.at] + heads[op.at + 1..];
      chains' := chains - {k};
    } else {
      NothingReleased(op, v.store.bpc, v.total + 2, heads, links, chains);
    }
  }

  lemma ReleasedDid(op: AllocOp, bpc: nat, limit: nat, heads: seq<nat>, links: seq<nat>, chains: map<nat, seq<nat>>, orphans: set<nat>)
    requires bpc >= 1 && op.Release? && op.at < |heads| && heads[op.at] in chains
    requires Forest(links, limit, chains, orphans) && Distinct(heads) && Elems(heads) == chains.Keys
    ensures forall i :: 0 <= i < |chains[heads[op.at]]| ==> chains[heads[op.at]][i] < |links|
    ensures var heads', links', chains' := heads[..op.at] + heads[op.at + 1..], Freed(links, chains[heads[op.at]]), chains - {heads[op.at]};
            && Forest(links', limit, chains', orphans) && Distinct(heads') && Elems(heads') == chains'.Keys
            && Did(op, bpc, limit, heads, links, chains, heads', links', chains')
  {
    hide Forest, Chain;
    ForestFreed(links, limit, chains, orphans, heads[op.at]);
    HeadRemoved(heads, op.at);
  }

  lemma NothingReleased(op: AllocOp, bpc: nat, limit: nat, heads: seq<nat>, links: seq<nat>, chains: map<nat, seq<nat>>)
    requires bpc >= 1 && op.Release? && HeadAt(heads, op.at) !in chains
    ensures Did(op, bpc, limit, heads, links, chains, heads, links, chains)
  {
    assert chains - {HeadAt(heads, op.at)} == chains;
  }

  lemma ZeroNeeds(bytes: nat, bpc: nat)
    requires bpc >= 1
    ensures bytes % 0x1_0000_0000 == 0 ==> Needed(bytes, bpc) == 0
  {
    RoundedDown((bpc - 1) % 0x1_0000_0000, bpc);
    var q := (bpc - 1) % 0x1_0000_0000 / bpc;
    if q >= 1 {
      MulMonotone(1, q, bpc);
    }
  }

  /** Make a chain long enough for a number of bytes, as an open file does. */
  method DoCover(v: Fat32, heads: seq<nat>, op: AllocOp, ghost chains: map<nat, seq<nat>>, ghost orphans: set<nat>)
    returns (first: nat, ghost extra: seq<nat>)
    requires Managed(v, heads, chains, orphans) && op.Cover?
    modifies v`hint, v.fat, v.store
    ensures v.Valid() && Fresh(old(v.Links()), v.total + 2, extra)
    ensures var cl := ChainOf(chains, HeadAt(heads, op.at));
            && LastOf(0, cl) < |old(v.Links())| && v.Links() == LinkAll(old(v.Links()), LastOf(0, cl), extra)
            && (|extra| < Wanted(op, cl, v.store.bpc) ==> NoneFree(v.Links(), v.total + 2))
            && (op.at >= |heads| ==> first == if extra == [] then 0 else extra[0])
  {
    hide LinksOf, Chain, Forest, InRange, NoneFree, Fresh, LinkAll, WholeClusters;
    first, extra := HeadAt(heads, op.at), [];
    ghost var cl := ChainOf(chains, first);
    HeadFacts(v, heads, chains, orphans, op.at);
    NothingNew(v.Links(), v.total + 2, first, cl);
    var f := new Fd(first, 0, true);
    ZeroNeeds(op.bytes, v.store.bpc);
    var _, more := EnsureClusters(v, f, op.bytes, cl);
    extra := more;
    first := f.first;
    assert op.at >= |heads| ==> cl + extra == extra;
  }

  // ---- runs ----

  /** What a run went through: the heads, the links and the chains before and after each step. */
  datatype Snapshot = Snapshot(heads: seq<nat>, links: seq<nat>, chains: map<nat, seq<nat>>)

  ghost predicate Trail(trail: seq<Snapshot>, ops: seq<AllocOp>, bpc: nat, limit: nat)
    requires bpc >= 1
  {
    && |trail| == |ops| + 1
    && forall i :: 0 <= i < |ops| ==>
         Did(ops[i], bpc, limit, trail[i].heads, trail[i].links, trail[i].chains,
             trail[i + 1].heads, trail[i + 1].links, trail[i + 1].chains)
  }

  lemma TrailMore(trail: seq<Snapshot>, ops: seq<AllocOp>, bpc: nat, limit: nat, i: nat, s: Snapshot)
    requires bpc >= 1 && i < |ops| && Trail(trail, ops[..i], bpc, limit)
    requires Did(ops[i], bpc, limit, trail[i].heads, trail[i].links, trail[i].chains, s.heads, s.links, s.chains)
    ensures Trail(trail + [s], ops[..i + 1], bpc, limit)
  {
    hide Did;
    var more := trail + [s];
    forall j | 0 <= j < i + 1
      ensures Did(ops[..i + 1][j], bpc, limit, more[j].heads, more[j].links, more[j].chains, more[j + 1].heads, more[j + 1].links, more[j + 1].chains)
    {
      assert ops[..i + 1][j] == ops[j];
      if j < i {
        assert ops[..i][j] == ops[j];
      }
    }
  }

  /** Any run of the allocator over a table that is a forest of disjoint chains leaves one: each
    * operation changes the chain it is for and no other, takes only clusters that are free, and
    * falls short only when none is left.
    */
  method RunAllocator(v: Fat32, heads0: seq<nat>, ops: seq<AllocOp>, ghost chains0: map<nat, seq<nat>>, ghost orphans: set<nat>)
    returns (heads: seq<nat>, ghost trail: seq<Snapshot>)
    requires Managed(v, heads0, chains0, orphans)
    modifies v`hint, v.fat, v.store
    ensures v.store.bpc >= 1 && Trail(trail, ops, v.store.bpc, v.total + 2)
    ensures trail[0] == Snapshot(heads0, old(v.Links()), chains0) && trail[|ops|].heads == heads
    ensures v.Valid() && trail[|ops|].links == v.Links() && Forest(v.Links(), v.total + 2, trail[|ops|].chains, orphans)
  {
    hide LinksOf, Forest, InRange, Trail;
    heads := heads0;
    ghost var chains := chains0;
    trail := [Snapshot(heads, v.Links(), chains)];
    assert Trail(trail, ops[..0], v.store.bpc, v.total + 2) by { TrailStart(trail[0], ops, v.store.bpc, v.total + 2); }
    for i := 0 to |ops|
      invariant Managed(v, heads, chains, orphans) && |trail| == i + 1
      invariant Trail(trail, ops[..i], v.store.bpc, v.total + 2)
      invariant trail[0] == Snapshot(heads0, old(v.Links()), chains0) && trail[i] == Snapshot(heads, v.Links(), chains)
    {
      heads, chains := Do(v, heads, ops[i], chains, orphans);
      TrailMore(trail, ops, v.store.bpc, v.total + 2, i, Snapshot(heads, v.Links(), chains));
      trail := trail + [Snapshot(heads, v.Links(), chains)];
    }
    assert ops[..|ops|] == ops;
  }

  lemma TrailStart(s: Snapshot, ops: seq<AllocOp>, bpc: nat, limit: nat)
    requires bpc >= 1
    ensures Trail([s], ops[..0], bpc, limit)
  {
  }
}
