/** The kernel's service registry: names bound to ports, threads that wait for a name, and
  * threads parked until a name they need appears. Each section under the registry's lock is one
  * step, and the calls in progress (registrations still waking people up, blocked waiters,
  * cleanups of dead processes) interleave in any order.
  */
module Registry {

  const REGISTRY_MAX: nat := 256
  const WAITER_BATCH: nat := 16
  const PARKED_BATCH: nat := 8

  const ERR_NAME: int := -1
  const ERR_FULL: int := -2
  const ERR_TAKEN: int := -3

  datatype Entry = Entry(name: string, port: nat, owner: int, active: bool)
  datatype Waiter = Waiter(call: nat, name: string)
  datatype Parked = Parked(tid: nat, name: string, owner: int)

  /** Where a call in progress stands, between two sections under the lock. */
  datatype Call =
    | Draining(name: string)
    | Waking(name: string, waiters: seq<Waiter>, parked: seq<Parked>, again: bool)
    | Waiting(name: string, woken: bool)
    | CleanParked(owner: int)
    | CleanEntries(owner: int)
    | CleanName(owner: int, name: string)
    | CleanWaking(owner: int, name: string, waiters: seq<Waiter>, again: bool)

  /** The call will look at the lists for `name` again. */
  predicate Drains(c: Call, name: string) {
    c == Draining(name) || (c.Waking? && c.name == name && c.again)
  }

  function WaitersOf(c: Call): seq<Waiter> {
    if c.Waking? || c.CleanWaking? then c.waiters else []
  }

  function ParkedOf(c: Call): seq<Parked> {
    if c.Waking? then c.parked else []
  }

  /** The first active entry of a name, or the table's length. */
  function Find(entries: seq<Entry>, name: string): (i: nat)
    ensures i <= |entries|
    ensures i < |entries| ==> entries[i].active && entries[i].name == name
    ensures forall j :: 0 <= j < i ==> !(entries[j].active && entries[j].name == name)
  {
    if entries == [] then 0
    else if entries[0].active && entries[0].name == name then 0
    else
      var i := Find(entries[1..], name);
      assert forall j :: 1 <= j < i + 1 ==> entries[j] == entries[1..][j - 1];
      i + 1
  }

  predicate Bound(entries: seq<Entry>, name: string) {
    Find(entries, name) < |entries|
  }

  // ---- the registry as a map ----

  /** What a name is bound to. */
  datatype Binding = Binding(port: nat, owner: int)

  ghost function ActiveNames(entries: seq<Entry>): set<string> {
    set e | e in entries && e.active :: e.name
  }

  /** Names and what they are bound to. */
  ghost function Bindings(entries: seq<Entry>): map<string, Binding> {
    map n | n in ActiveNames(entries) :: BindingOf(entries, n)
  }

  ghost function BindingOf(entries: seq<Entry>, n: string): Binding {
    var i := Find(entries, n);
    if i < |entries| then Binding(entries[i].port, entries[i].owner) else Binding(0, 0)
  }

  /** There is an active entry for the name. */
  ghost predicate HasEntry(entries: seq<Entry>, n: string, b: Binding) {
    exists i :: 0 <= i < |entries| && entries[i] == Entry(n, b.port, b.owner, true)
  }

  /** The map has each active entry, and nothing else. */
  lemma BindingsAre(entries: seq<Entry>)
    requires NamesUnique(entries)
    ensures forall n, b :: Has(Bindings(entries), n, b) <==> HasEntry(entries, n, b)
  {
    forall n, b
      ensures Has(Bindings(entries), n, b) <==> HasEntry(entries, n, b)
    {
      BindingIs(entries, n, b);
    }
  }

  predicate Has(m: map<string, Binding>, n: string, b: Binding) {
    n in m && m[n] == b
  }

  lemma BindingIs(entries: seq<Entry>, n: string, b: Binding)
    requires NamesUnique(entries)
    ensures Has(Bindings(entries), n, b) <==> HasEntry(entries, n, b)
  {
    BindingFound(entries, n);
    var i := Find(entries, n);
    if HasEntry(entries, n, b) {
      var j :| 0 <= j < |entries| && entries[j] == Entry(n, b.port, b.owner, true);
      FoundAt(entries, j, n);
    }
    if i < |entries| {
      assert entries[i] == Entry(n, entries[i].port, entries[i].owner, true);
    }
  }

  /** What a search finds is what the map has. */
  lemma BindingFound(entries: seq<Entry>, n: string)
    ensures var i := Find(entries, n);
            if i < |entries| then Has(Bindings(entries), n, Binding(entries[i].port, entries[i].owner)) && Bound(entries, n)
            else n !in Bindings(entries) && !Bound(entries, n)
  {
    var i := Find(entries, n);
    if i < |entries| {
      assert entries[i] in entries;
    }
  }

  /** Entries for other names are untouched by a change of slot `i`. */
  lemma EntryElsewhere(entries: seq<Entry>, entries': seq<Entry>, i: nat, n: string, b: Binding)
    requires |entries| <= |entries'| && (i < |entries| && entries[i].active ==> entries[i].name != n)
    requires i < |entries'| && (entries'[i].active ==> entries'[i].name != n)
    requires forall j :: 0 <= j < |entries'| && j != i ==> j < |entries| && entries'[j] == entries[j]
    ensures HasEntry(entries', n, b) <==> HasEntry(entries, n, b)
  {
    if HasEntry(entries, n, b) {
      var j :| 0 <= j < |entries| && entries[j] == Entry(n, b.port, b.owner, true);
      assert entries'[j] == entries[j];
    }
  }

  /** Maps with the same entries but for one name. */
  lemma SameButOne(m: map<string, Binding>, m': map<string, Binding>, name: string)
    requires forall n, b :: n != name ==> (Has(m, n, b) <==> Has(m', n, b))
    ensures name in m' ==> m' == m[name := m'[name]]
    ensures name !in m' ==> m' == m - {name}
  {
    forall n | n != name
      ensures n in m <==> n in m'
      ensures n in m ==> m'[n] == m[n]
    {
      if n in m {
        var b := m[n];
        assert Has(m, n, b);
      }
      if n in m' {
        var b := m'[n];
        assert Has(m', n, b);
      }
    }
  }

  /** A slot that is inactive, new, or the name's own. */
  predicate SlotFor(entries: seq<Entry>, i: nat, name: string) {
    i <= |entries| && if i < |entries| && entries[i].active then entries[i].name == name else !Bound(entries, name)
  }

  function Installed(entries: seq<Entry>, i: nat, e: Entry): seq<Entry>
    requires i <= |entries|
  {
    if i == |entries| then entries + [e] else entries[i := e]
  }

  /** An active entry put into such a slot binds its name alone. */
  lemma BoundOne(entries: seq<Entry>, i: nat, name: string, port: nat, owner: int)
    requires NamesUnique(entries) && SlotFor(entries, i, name) && i < REGISTRY_MAX
    ensures var entries' := Installed(entries, i, Entry(name, port, owner, true));
            && NamesUnique(entries') && Find(entries', name) == i
            && Bindings(entries') == Bindings(entries)[name := Binding(port, owner)]
            && forall n :: Bound(entries', n) ==> Bound(entries, n) || n == name
  {
    hide Bindings;
    var entries' := Installed(entries, i, Entry(name, port, owner, true));
    InstalledUnique(entries, i, name, port, owner);
    FoundAt(entries', i, name);
    BindingsAre(entries);
    BindingsAre(entries');
    assert entries'[i] == Entry(name, Binding(port, owner).port, Binding(port, owner).owner, true);
    assert HasEntry(entries', name, Binding(port, owner));
    InstalledElsewhere(entries, i, name, port, owner);
    hide HasEntry, NamesUnique, Bound, Find, Installed;
    SameButOne(Bindings(entries), Bindings(entries'), name);
    forall n | Bound(entries', n)
      ensures Bound(entries, n) || n == name
    {
      BindingFound(entries, n);
      BindingFound(entries', n);
    }
  }

  lemma InstalledElsewhere(entries: seq<Entry>, i: nat, name: string, port: nat, owner: int)
    requires SlotFor(entries, i, name)
    ensures forall n, b :: n != name ==>
              (HasEntry(Installed(entries, i, Entry(name, port, owner, true)), n, b) <==> HasEntry(entries, n, b))
  {
    hide HasEntry, Bound;
    forall n, b | n != name
      ensures HasEntry(Installed(entries, i, Entry(name, port, owner, true)), n, b) <==> HasEntry(entries, n, b)
    {
      EntryElsewhere(entries, Installed(entries, i, Entry(name, port, owner, true)), i, n, b);
    }
  }

  lemma InstalledUnique(entries: seq<Entry>, i: nat, name: string, port: nat, owner: int)
    requires NamesUnique(entries) && SlotFor(entries, i, name) && i < REGISTRY_MAX
    ensures NamesUnique(Installed(entries, i, Entry(name, port, owner, true)))
  {
    BoundBy(entries, name);
  }

  /** An entry made inactive unbinds its name alone. */
  lemma UnboundOne(entries: seq<Entry>, i: nat)
    requires NamesUnique(entries) && i < |entries| && entries[i].active
    ensures var entries' := entries[i := entries[i].(active := false)];
            NamesUnique(entries') && Bindings(entries') == Bindings(entries) - {entries[i].name}
  {
    hide Bindings, HasEntry;
    var entries', name := entries[i := entries[i].(active := false)], entries[i].name;
    BindingsAre(entries);
    BindingsAre(entries');
    BindingFound(entries', name);
    forall n, b | n != name
      ensures HasEntry(entries', n, b) <==> HasEntry(entries, n, b)
    {
      EntryElsewhere(entries, entries', i, n, b);
    }
    assert name !in Bindings(entries');
    hide NamesUnique, Bound, Find;
    SameButOne(Bindings(entries), Bindings(entries'), name);
  }

  lemma NoneOwned(entries: seq<Entry>, owner: int)
    requires forall j :: 0 <= j < |entries| ==> !(entries[j].active && entries[j].owner == owner)
    ensures forall n :: n in Bindings(entries) ==> Bindings(entries)[n].owner != owner
  {
    forall n | n in Bindings(entries)
      ensures Bindings(entries)[n].owner != owner
    {
      BindingFound(entries, n);
    }
  }

  /** The table is full exactly when it binds as many names as it has slots. */
  lemma FullExactly(entries: seq<Entry>)
    requires NamesUnique(entries)
    ensures |Bindings(entries)| == REGISTRY_MAX <==> |entries| == REGISTRY_MAX && forall e :: e in entries ==> e.active
  {
    ActiveCount(entries);
    assert Bindings(entries).Keys == ActiveNames(entries);
    assert |Bindings(entries)| == |Bindings(entries).Keys|;
  }

  lemma {:induction false} ActiveCount(entries: seq<Entry>)
    requires NamesUnique(entries)
    ensures |ActiveNames(entries)| <= |entries|
    ensures |ActiveNames(entries)| == |entries| <==> forall e :: e in entries ==> e.active
  {
    if entries != [] {
      var front, e := entries[..|entries| - 1], entries[|entries| - 1];
      assert entries == front + [e];
      ActiveCount(front);
      LastName(front, e);
    }
  }

  lemma LastName(front: seq<Entry>, e: Entry)
    requires NamesUnique(front + [e])
    ensures ActiveNames(front + [e]) == ActiveNames(front) + if e.active then {e.name} else {}
    ensures e.active ==> e.name !in ActiveNames(front)
  {
    var entries := front + [e];
    assert forall i :: 0 <= i < |front| ==> entries[i] == front[i];
    assert entries[|front|] == e;
    if e.active && e.name in ActiveNames(front) {
      SameTwice(front, e);
    }
  }

  lemma SameTwice(front: seq<Entry>, e: Entry)
    requires e.active && e.name in ActiveNames(front)
    ensures !NamesUnique(front + [e])
  {
    var d :| d in front && d.active && d.name == e.name;
    var j :| 0 <= j < |front| && front[j] == d;
    assert (front + [e])[j] == d && (front + [e])[|front|] == e;
  }

  // ---- what every reachable state satisfies ----

  /** No two active entries have the same name. */
  ghost predicate NamesUnique(entries: seq<Entry>) {
    && |entries| <= REGISTRY_MAX
    && forall i, j :: 0 <= i < j < |entries| && entries[i].active && entries[j].active ==> entries[i].name != entries[j].name
  }

  ghost predicate SomeoneDrains(calls: map<nat, Call>, name: string) {
    exists a :: a in calls && Drains(calls[a], name)
  }

  /** Whoever is listed under a bound name will be reached by a registration in progress. */
  ghost predicate NoneForgotten(entries: seq<Entry>, waiters: seq<Waiter>, parked: seq<Parked>, calls: map<nat, Call>) {
    && (forall w :: w in waiters && Bound(entries, w.name) ==> SomeoneDrains(calls, w.name))
    && forall p :: p in parked && Bound(entries, p.name) ==> SomeoneDrains(calls, p.name)
  }

  /** A blocked waiter is listed, or in a batch about to be woken, until it is woken. */
  ghost predicate WaitersReachable(waiters: seq<Waiter>, calls: map<nat, Call>) {
    forall a :: a in calls && calls[a].Waiting? && !calls[a].woken ==>
      Waiter(a, calls[a].name) in waiters || InSomeBatch(calls, Waiter(a, calls[a].name))
  }

  ghost predicate InSomeBatch(calls: map<nat, Call>, w: Waiter) {
    exists b :: b in calls && w in WaitersOf(calls[b])
  }

  predicate DistinctTids(ps: seq<Parked>) {
    forall i, j :: 0 <= i < j < |ps| ==> ps[i].tid != ps[j].tid
  }

  predicate TidApart(ps: seq<Parked>, qs: seq<Parked>) {
    forall p, q :: p in ps && q in qs ==> p.tid != q.tid
  }

  /** Each parked thread has one record, in the list or in one batch, and was not started. */
  ghost predicate ParkedOnce(parked: seq<Parked>, calls: map<nat, Call>, starts: multiset<nat>, seen: set<nat>) {
    && DistinctTids(parked)
    && (forall p :: p in parked ==> p.tid in seen && starts[p.tid] == 0)
    && (forall a :: a in calls ==> BatchOk(parked, ParkedOf(calls[a]), starts, seen))
    && (forall a, b :: a in calls && b in calls && a != b ==> TidApart(ParkedOf(calls[a]), ParkedOf(calls[b])))
    && forall t :: t in starts ==> t in seen && starts[t] <= 1
  }

  ghost predicate BatchOk(parked: seq<Parked>, batch: seq<Parked>, starts: multiset<nat>, seen: set<nat>) {
    && DistinctTids(batch) && TidApart(parked, batch)
    && forall p :: p in batch ==> p.tid in seen && starts[p.tid] == 0
  }

  /** With nobody draining, nobody is left waiting or parked under a bound name. */
  lemma QuietMeansServed(entries: seq<Entry>, waiters: seq<Waiter>, parked: seq<Parked>, calls: map<nat, Call>, name: string)
    requires NoneForgotten(entries, waiters, parked, calls) && Bound(entries, name)
    requires forall a :: a in calls ==> !Drains(calls[a], name)
    ensures (forall w :: w in waiters ==> w.name != name) && (forall p :: p in parked ==> p.name != name)
  {
  }

  // ---- how many are listed under a name ----

  function WaitCount(ws: seq<Waiter>, name: string): nat {
    if ws == [] then 0 else WaitCount(ws[..|ws| - 1], name) + if ws[|ws| - 1].name == name then 1 else 0
  }

  function ParkCount(ps: seq<Parked>, name: string): nat {
    if ps == [] then 0 else ParkCount(ps[..|ps| - 1], name) + if ps[|ps| - 1].name == name then 1 else 0
  }

  lemma {:induction false} WaitCountJoined(a: seq<Waiter>, b: seq<Waiter>, name: string)
    ensures WaitCount(a + b, name) == WaitCount(a, name) + WaitCount(b, name)
  {
    if b == [] {
      assert a + b == a;
    } else {
      assert (a + b)[..|a + b| - 1] == a + b[..|b| - 1];
      WaitCountJoined(a, b[..|b| - 1], name);
    }
  }

  lemma {:induction false} ParkCountJoined(a: seq<Parked>, b: seq<Parked>, name: string)
    ensures ParkCount(a + b, name) == ParkCount(a, name) + ParkCount(b, name)
  {
    if b == [] {
      assert a + b == a;
    } else {
      assert (a + b)[..|a + b| - 1] == a + b[..|b| - 1];
      ParkCountJoined(a, b[..|b| - 1], name);
    }
  }

  lemma {:induction false} WaitCountAll(ws: seq<Waiter>, name: string)
    ensures (forall w :: w in ws ==> w.name == name) ==> WaitCount(ws, name) == |ws|
    ensures (forall w :: w in ws ==> w.name != name) <==> WaitCount(ws, name) == 0
  {
    if ws != [] {
      var front, w := ws[..|ws| - 1], ws[|ws| - 1];
      WaitCountAll(front, name);
      assert ws == front + [w];
    }
  }

  lemma {:induction false} ParkCountAll(ps: seq<Parked>, name: string)
    ensures (forall p :: p in ps ==> p.name == name) ==> ParkCount(ps, name) == |ps|
    ensures (forall p :: p in ps ==> p.name != name) <==> ParkCount(ps, name) == 0
  {
    if ps != [] {
      var front, p := ps[..|ps| - 1], ps[|ps| - 1];
      ParkCountAll(front, name);
      assert ps == front + [p];
    }
  }

  /** How many wait or are parked under a name. */
  function Pending(waiters: seq<Waiter>, parked: seq<Parked>, name: string): nat {
    WaitCount(waiters, name) + ParkCount(parked, name)
  }

  /** No name has more listed under it than before. */
  ghost predicate Fewer(waiters: seq<Waiter>, parked: seq<Parked>, waiters': seq<Waiter>, parked': seq<Parked>) {
    forall n :: Pending(waiters', parked', n) <= Pending(waiters, parked, n)
  }

  /** Calls other than `call` that are not blocked are where they were. */
  ghost predicate OthersGoOn(calls: map<nat, Call>, calls': map<nat, Call>, call: nat) {
    forall a :: a in calls && a != call && !calls[a].Waiting? ==> a in calls' && calls'[a] == calls[a]
  }

  lemma WaitCountMore(rest: seq<Waiter>, list: seq<Waiter>, w: Waiter)
    requires forall n :: WaitCount(rest, n) <= WaitCount(list, n)
    ensures forall n :: WaitCount(rest, n) <= WaitCount(list + [w], n) && WaitCount(rest + [w], n) <= WaitCount(list + [w], n)
  {
    forall n
      ensures WaitCount(rest, n) <= WaitCount(list + [w], n) && WaitCount(rest + [w], n) <= WaitCount(list + [w], n)
    {
      WaitCountJoined(rest, [w], n);
      WaitCountJoined(list, [w], n);
    }
  }

  /** A batch taken off the lists leaves fewer, at least eight fewer of its name if it was full. */
  lemma BatchCounted(waiters: seq<Waiter>, parked: seq<Parked>, wb: seq<Waiter>, wrest: seq<Waiter>, pb: seq<Parked>, prest: seq<Parked>, name: string)
    requires forall n :: WaitCount(wb, n) + WaitCount(wrest, n) == WaitCount(waiters, n)
    requires forall n :: ParkCount(pb, n) + ParkCount(prest, n) == ParkCount(parked, n)
    requires (forall w :: w in wb ==> w.name == name) && forall p :: p in pb ==> p.name == name
    ensures Fewer(waiters, parked, wrest, prest)
    ensures |wb| >= WAITER_BATCH || |pb| >= PARKED_BATCH ==>
              Pending(wrest, prest, name) + PARKED_BATCH <= Pending(waiters, parked, name)
  {
    WaitCountAll(wb, name);
    ParkCountAll(pb, name);
  }

  lemma NobodyPending(waiters: seq<Waiter>, parked: seq<Parked>, name: string)
    ensures NobodyListed(waiters, parked, name) <==> Pending(waiters, parked, name) == 0
  {
    WaitCountAll(waiters, name);
    ParkCountAll(parked, name);
  }

  // ---- taking records off the lists ----

  lemma WaitersCounted(list: seq<Waiter>, i: nat, batch: seq<Waiter>, rest: seq<Waiter>)
    requires i < |list| && forall n :: WaitCount(batch, n) + WaitCount(rest, n) == WaitCount(list[..i], n)
    ensures forall n :: WaitCount(batch + [list[i]], n) + WaitCount(rest, n) == WaitCount(list[..i + 1], n)
    ensures forall n :: WaitCount(batch, n) + WaitCount(rest + [list[i]], n) == WaitCount(list[..i + 1], n)
    ensures forall n :: WaitCount(batch + [list[i]], n) + WaitCount(rest + list[i + 1..], n) == WaitCount(list, n)
  {
    forall n
      ensures WaitCount(batch + [list[i]], n) + WaitCount(rest, n) == WaitCount(list[..i + 1], n)
      ensures WaitCount(batch, n) + WaitCount(rest + [list[i]], n) == WaitCount(list[..i + 1], n)
      ensures WaitCount(batch + [list[i]], n) + WaitCount(rest + list[i + 1..], n) == WaitCount(list, n)
    {
      assert list[..i + 1] == list[..i] + [list[i]] && list == list[..i + 1] + list[i + 1..];
      WaitCountJoined(batch, [list[i]], n);
      WaitCountJoined(rest, [list[i]], n);
      WaitCountJoined(rest, list[i + 1..], n);
      WaitCountJoined(list[..i], [list[i]], n);
      WaitCountJoined(list[..i + 1], list[i + 1..], n);
    }
  }

  lemma ParkedCounted(list: seq<Parked>, i: nat, batch: seq<Parked>, rest: seq<Parked>)
    requires i < |list| && forall n :: ParkCount(batch, n) + ParkCount(rest, n) == ParkCount(list[..i], n)
    ensures forall n :: ParkCount(batch + [list[i]], n) + ParkCount(rest, n) == ParkCount(list[..i + 1], n)
    ensures forall n :: ParkCount(batch, n) + ParkCount(rest + [list[i]], n) == ParkCount(list[..i + 1], n)
  {
    forall n
      ensures ParkCount(batch + [list[i]], n) + ParkCount(rest, n) == ParkCount(list[..i + 1], n)
      ensures ParkCount(batch, n) + ParkCount(rest + [list[i]], n) == ParkCount(list[..i + 1], n)
    {
      assert list[..i + 1] == list[..i] + [list[i]];
      ParkCountJoined(batch, [list[i]], n);
      ParkCountJoined(rest, [list[i]], n);
      ParkCountJoined(list[..i], [list[i]], n);
    }
  }

  lemma ParkedRest(list: seq<Parked>, i: nat, batch: seq<Parked>, rest: seq<Parked>)
    requires i <= |list| && forall n :: ParkCount(batch, n) + ParkCount(rest, n) == ParkCount(list[..i], n)
    ensures forall n :: ParkCount(batch, n) + ParkCount(rest + list[i..], n) == ParkCount(list, n)
  {
    forall n
      ensures ParkCount(batch, n) + ParkCount(rest + list[i..], n) == ParkCount(list, n)
    {
      assert list == list[..i] + list[i..];
      ParkCountJoined(rest, list[i..], n);
      ParkCountJoined(list[..i], list[i..], n);
    }
  }

  /** Take up to `cap` waiters of a name off the list. */
  method CollectWaiters(list: seq<Waiter>, name: string, cap: nat) returns (batch: seq<Waiter>, rest: seq<Waiter>)
    requires cap >= 1
    ensures |batch| <= cap && (forall w :: w in batch ==> w in list && w.name == name)
    ensures multiset(batch) + multiset(rest) == multiset(list)
    ensures forall n :: WaitCount(batch, n) + WaitCount(rest, n) == WaitCount(list, n)
    ensures forall w :: w in list <==> w in batch || w in rest
    ensures |batch| < cap ==> forall w :: w in rest ==> w.name != name
  {
    batch, rest := [], [];
    var i := 0;
    while i < |list|
      invariant 0 <= i <= |list| && |batch| < cap
      invariant multiset(batch) + multiset(rest) == multiset(list[..i])
      invariant forall n :: WaitCount(batch, n) + WaitCount(rest, n) == WaitCount(list[..i], n)
      invariant forall w :: w in batch ==> w in list && w.name == name
      invariant forall w :: w in rest ==> w.name != name
      invariant forall w :: w in list[..i] <==> w in batch || w in rest
    {
      assert list[..i + 1] == list[..i] + [list[i]];
      assert list == list[..i + 1] + list[i + 1..];
      WaitersCounted(list, i, batch, rest);
      if list[i].name == name {
        batch := batch + [list[i]];
        if |batch| >= cap {
          rest := rest + list[i + 1..];
          return;
        }
      } else {
        rest := rest + [list[i]];
      }
      i := i + 1;
    }
    assert list[..i] == list;
  }

  /** Take up to `cap` parked records of a name off the list. */
  method CollectParked(list: seq<Parked>, name: string, cap: nat) returns (batch: seq<Parked>, rest: seq<Parked>)
    requires DistinctTids(list)
    ensures |batch| <= cap && (forall p :: p in batch ==> p in list && p.name == name)
    ensures forall n :: ParkCount(batch, n) + ParkCount(rest, n) == ParkCount(list, n)
    ensures forall p :: p in list <==> p in batch || p in rest
    ensures DistinctTids(batch) && DistinctTids(rest) && TidApart(rest, batch)
    ensures |batch| < cap ==> forall p :: p in rest ==> p.name != name
  {
    batch, rest := [], [];
    var i := 0;
    while i < |list| && |batch| < cap
      invariant 0 <= i <= |list| && |batch| <= cap
      invariant forall p :: p in batch ==> p in list[..i] && p.name == name
      invariant forall p :: p in rest ==> p in list[..i] && p.name != name
      invariant forall p :: p in list[..i] ==> p in batch || p in rest
      invariant DistinctTids(batch) && DistinctTids(rest)
      invariant forall n :: ParkCount(batch, n) + ParkCount(rest, n) == ParkCount(list[..i], n)
    {
      assert list[..i + 1] == list[..i] + [list[i]];
      ParkedCounted(list, i, batch, rest);
      if list[i].name == name {
        batch := batch + [list[i]];
      } else {
        rest := rest + [list[i]];
      }
      i := i + 1;
    }
    assert list == list[..i] + list[i..];
    TakenApart(list, i, batch, rest);
    ParkedRest(list, i, batch, rest);
    rest := rest + list[i..];
  }

  lemma TakenApart(list: seq<Parked>, i: nat, batch: seq<Parked>, rest: seq<Parked>)
    requires DistinctTids(list) && i <= |list| && DistinctTids(rest)
    requires (forall p :: p in batch ==> p in list[..i]) && (forall p :: p in rest ==> p in list[..i])
    requires forall p, q :: p in batch && q in rest ==> p.name != q.name
    ensures DistinctTids(rest + list[i..]) && TidApart(rest + list[i..], batch)
  {
    forall p, q | p in rest + list[i..] && q in batch
      ensures p.tid != q.tid
    {
      var k :| 0 <= k < i && list[k] == q;
      if p in rest {
        var m :| 0 <= m < i && list[m] == p;
      } else {
        var m :| i <= m < |list| && list[m] == p;
      }
    }
    forall a, b | 0 <= a < b < |rest + list[i..]|
      ensures (rest + list[i..])[a].tid != (rest + list[i..])[b].tid
    {
      if a < |rest| <= b {
        assert rest[a] in rest;
        var m :| 0 <= m < i && list[m] == rest[a];
        assert (rest + list[i..])[b] == list[i + (b - |rest|)];
      } else if |rest| <= a {
        assert (rest + list[i..])[a] == list[i + (a - |rest|)] && (rest + list[i..])[b] == list[i + (b - |rest|)];
      }
    }
  }

  // ---- small facts about steps ----

  /** Finding a name again after one slot changed. */
  lemma {:induction false} BoundBy(entries: seq<Entry>, name: string)
    ensures Bound(entries, name) <==> exists i :: 0 <= i < |entries| && entries[i].active && entries[i].name == name
  {
  }

  /** Records taken away, and calls that drain no less, keep everyone within reach. */
  lemma StillReached(entries: seq<Entry>, entries': seq<Entry>, waiters: seq<Waiter>, parked: seq<Parked>, calls: map<nat, Call>,
                     waiters': seq<Waiter>, parked': seq<Parked>, calls': map<nat, Call>)
    requires NoneForgotten(entries, waiters, parked, calls)
    requires forall w :: w in waiters' ==> w in waiters
    requires forall p :: p in parked' ==> p in parked
    requires forall n :: Bound(entries', n) ==> Bound(entries, n) || SomeoneDrains(calls', n)
    requires forall n :: SomeoneDrains(calls, n) ==>
               SomeoneDrains(calls', n) || ((forall w :: w in waiters' ==> w.name != n) && (forall p :: p in parked' ==> p.name != n))
    ensures NoneForgotten(entries', waiters', parked', calls')
  {
  }

  lemma OthersDrain(calls: map<nat, Call>, a: nat, c: Call, n: string)
    requires SomeoneDrains(calls, n) && (a in calls ==> !Drains(calls[a], n))
    ensures SomeoneDrains(calls[a := c], n)
  {
    var b :| b in calls && Drains(calls[b], n);
    assert b in calls[a := c] && Drains(calls[a := c][b], n);
  }

  class Registry {
    var entries: seq<Entry>
    var waiters: seq<Waiter>
    var parked: seq<Parked>

    /** The calls in progress, the threads started so far and all threads ever handed in. */
    var calls: map<nat, Call>
    var starts: multiset<nat>
    var seen: set<nat>

    constructor ()
      ensures Valid() && Bindings(entries) == map[]
    {
      entries, waiters, parked, calls := [], [], [], map[];
      starts, seen := multiset{}, {};
    }

    ghost predicate Valid()
      reads this
    {
      && NamesUnique(entries) && NoneForgotten(entries, waiters, parked, calls)
      && WaitersReachable(waiters, calls) && ParkedOnce(parked, calls, starts, seen)
    }

    // ---- registering ----

    /** Bind a name. A live process other than the owner keeps its name. On success the call goes
      * on to drain the waiters.
      */
    method Register(call: nat, name: string, port: nat, owner: int, alive: set<int>) returns (r: int)
      requires Valid() && call !in calls
      modifies this`entries, this`calls
      ensures Valid()
      ensures r == ERR_NAME <==> name == ""
      ensures r == ERR_TAKEN <==>
                name != "" && name in old(Bindings(entries))
                && old(Bindings(entries))[name].owner != owner && old(Bindings(entries))[name].owner in alive
      ensures r == ERR_FULL <==> name != "" && name !in old(Bindings(entries)) && |old(Bindings(entries))| == REGISTRY_MAX
      ensures Bindings(entries) == if r == 0 then old(Bindings(entries))[name := Binding(port, owner)] else old(Bindings(entries))
      ensures r == 0 ==> calls == old(calls)[call := Draining(name)]
      ensures r == 0 ==> Find(entries, name) < |entries| && entries[Find(entries, name)] == Entry(name, port, owner, true)
      ensures r != 0 ==> entries == old(entries) && calls == old(calls)
      ensures r in {0, ERR_NAME, ERR_FULL, ERR_TAKEN}
    {
      hide NoneForgotten, WaitersReachable, ParkedOnce, Bindings;
      if name == "" {
        return ERR_NAME;
      }
      BindingFound(entries, name);
      FullExactly(entries);
      var i := Find(entries, name);
      ghost var entries0 := entries;
      if i < |entries| {
        if entries[i].owner != owner && entries[i].owner in alive {
          return ERR_TAKEN;
        }
        entries := entries[i := entries[i].(port := port, owner := owner)];
      } else {
        i := Slot();
        if i == REGISTRY_MAX {
          return ERR_FULL;
        }
        entries := if i == |entries| then entries + [Entry(name, port, owner, true)] else entries[i := Entry(name, port, owner, true)];
      }
      assert SlotFor(entries0, i, name) && entries == Installed(entries0, i, Entry(name, port, owner, true));
      calls := calls[call := Draining(name)];
      BoundOne(entries0, i, name, port, owner);
      DrainStarted(entries0, entries, waiters, parked, old(calls), call, name);
      CallAdded(old(calls), waiters, parked, starts, seen, call, Draining(name));
      r := 0;
    }

    /** A slot to bind in: an inactive one, or a new one, or REGISTRY_MAX for none. */
    method Slot() returns (i: nat)
      requires |entries| <= REGISTRY_MAX
      ensures i < |entries| ==> !entries[i].active
      ensures i >= |entries| ==> (forall e :: e in entries ==> e.active) && i == |entries|
    {
      i := 0;
      while i < |entries| && entries[i].active
        invariant i <= |entries| && forall j :: 0 <= j < i ==> entries[j].active
      {
        i := i + 1;
      }
    }

    // ---- draining ----

    /** Take the next batch of those who wait for the name, or are parked for it. The call is
      * finished with the lists only when neither batch was full.
      */
    method Collect(call: nat)
      requires Valid() && call in calls && calls[call].Draining?
      modifies this`waiters, this`parked, this`calls
      ensures Valid() && call in calls && calls[call].Waking? && calls == old(calls)[call := calls[call]]
      ensures calls[call].name == old(calls)[call].name && |calls[call].waiters| <= WAITER_BATCH && |calls[call].parked| <= PARKED_BATCH
      ensures !calls[call].again ==> NobodyListed(waiters, parked, calls[call].name)
      ensures calls[call].again ==> Pending(waiters, parked, calls[call].name) + PARKED_BATCH <= old(Pending(waiters, parked, calls[call].name))
      ensures Fewer(old(waiters), old(parked), waiters, parked)
      ensures forall w :: w in old(waiters) <==> w in waiters || w in calls[call].waiters
      ensures forall p :: p in old(parked) <==> p in parked || p in calls[call].parked
    {
      hide NamesUnique, WaitCount, ParkCount, Pending, Fewer;
      var name := calls[call].name;
      var wb, wrest := CollectWaiters(waiters, name, WAITER_BATCH);
      var pb, prest := CollectParked(parked, name, PARKED_BATCH);
      var next := Waking(name, wb, pb, !(|wb| < WAITER_BATCH && |pb| < PARKED_BATCH));
      BatchCounted(waiters, parked, wb, wrest, pb, prest, name);
      BatchTaken(entries, waiters, parked, calls, wrest, prest, call, next);
      ReachMoved(waiters, calls, wrest, call, next);
      ParkedMoved(parked, calls, starts, seen, prest, call, next);
      waiters, parked := wrest, prest;
      calls := calls[call := next];
    }

    /** Wake the batch: waiters become runnable, parked threads that still exist start. */
    method Wake(call: nat, alive: set<nat>)
      requires Valid() && call in calls && calls[call].Waking?
      modifies this`calls, this`starts
      ensures Valid()
      ensures if old(calls)[call].again then call in calls && calls[call] == Draining(old(calls)[call].name) else call !in calls
      ensures forall w :: w in old(calls)[call].waiters && w.call in calls && calls[w.call].Waiting? ==> calls[w.call].woken
      ensures forall p :: p in old(calls)[call].parked && p.tid in alive ==> starts[p.tid] == 1
      ensures forall t :: starts[t] != old(starts)[t] ==> t in alive && exists p :: p in old(calls)[call].parked && p.tid == t
      ensures OthersGoOn(old(calls), calls, call)
    {
      hide NamesUnique;
      var c := calls[call];
      var calls1 := WokenAll(calls, c.waiters);
      var starts1 := StartedAll(starts, c.parked, alive);
      var calls2 := if c.again then calls1[call := Draining(c.name)] else calls1 - {call};
      WakeKeeps(entries, waiters, parked, calls, calls2, call);
      WakeReaches(waiters, calls, calls2, call, c.waiters);
      StartedOnce(parked, calls, starts, seen, calls2, call, alive);
      calls, starts := calls2, starts1;
    }

    // ---- waiting ----

    /** Wait for a name: its port if it is bound, or a place on the list. */
    method WaitStart(call: nat, name: string) returns (port: nat)
      requires Valid() && call !in calls
      modifies this`waiters, this`calls
      ensures Valid()
      ensures if Bound(entries, name) then port == entries[Find(entries, name)].port && waiters == old(waiters) && calls == old(calls)
              else waiters == old(waiters) + [Waiter(call, name)] && calls == old(calls)[call := Waiting(name, false)]
      ensures if name in Bindings(entries) then port == Bindings(entries)[name].port else port == 0 && call in calls
    {
      hide NamesUnique;
      BindingFound(entries, name);
      var i := Find(entries, name);
      if i < |entries| {
        return entries[i].port;
      }
      WaiterAdded(entries, waiters, parked, calls, starts, seen, call, name);
      waiters := waiters + [Waiter(call, name)];
      calls := calls[call := Waiting(name, false)];
      port := 0;
    }

    /** A waiter runs again, woken or timed out: it leaves the list and looks the name up. */
    method Resume(call: nat) returns (port: nat)
      requires Valid() && call in calls && calls[call].Waiting?
      modifies this`waiters, this`calls
      ensures Valid() && call !in calls && Waiter(call, old(calls)[call].name) !in waiters
      ensures OthersGoOn(old(calls), calls, call) && Fewer(old(waiters), parked, waiters, parked)
      ensures var n := old(calls)[call].name; port == if n in Bindings(entries) then Bindings(entries)[n].port else 0
    {
      hide NamesUnique;
      var name := calls[call].name;
      BindingFound(entries, name);
      var rest := Unlink(waiters, Waiter(call, name));
      WaiterGone(entries, waiters, parked, calls, starts, seen, rest, call);
      waiters := rest;
      calls := calls - {call};
      var i := Find(entries, name);
      port := if i < |entries| then entries[i].port else 0;
    }

    // ---- parking ----

    /** Park a thread until the name it needs is bound, or start it right away. */
    method ParkOrStart(tid: nat, name: string, owner: int, memory: bool) returns (started: bool)
      requires Valid() && tid !in seen
      modifies this`parked, this`starts, this`seen
      ensures Valid() && seen == old(seen) + {tid}
      ensures started <==> name == "" || name in Bindings(entries) || !memory
      ensures if started then starts == old(starts) + multiset{tid} && parked == old(parked)
              else parked == old(parked) + [Parked(tid, name, owner)] && starts == old(starts)
    {
      hide NamesUnique, WaitersReachable, NoneForgotten, ParkedOnce;
      BindingFound(entries, name);
      started := name == "" || Find(entries, name) < |entries| || !memory;
      if started {
        StartedNow(parked, calls, starts, seen, tid);
        starts := starts + multiset{tid};
      } else {
        ParkedNow(entries, waiters, parked, calls, starts, seen, Parked(tid, name, owner));
        parked := parked + [Parked(tid, name, owner)];
      }
      seen := seen + {tid};
    }

    // ---- unbinding ----

    method Unregister(name: string, owner: int)
      requires Valid()
      modifies this`entries
      ensures Valid()
      ensures Bindings(entries) ==
                if name in old(Bindings(entries)) && old(Bindings(entries))[name].owner == owner then old(Bindings(entries)) - {name}
                else old(Bindings(entries))
    {
      hide WaitersReachable, ParkedOnce, Bindings;
      BindingFound(entries, name);
      var i := Find(entries, name);
      if i < |entries| && entries[i].owner == owner {
        Unbound(entries, i);
        UnboundOne(entries, i);
        FewerBound(entries, entries[i := entries[i].(active := false)], waiters, parked, calls);
        entries := entries[i := entries[i].(active := false)];
      }
    }

    // ---- cleaning up after a dead process ----

    method CleanStart(call: nat, owner: int)
      requires Valid() && call !in calls
      modifies this`calls
      ensures Valid() && calls == old(calls)[call := CleanParked(owner)]
    {
      hide NamesUnique;
      CallAdded(calls, waiters, parked, starts, seen, call, CleanParked(owner));
      MoreCalls(entries, waiters, parked, calls, call, CleanParked(owner));
      calls := calls[call := CleanParked(owner)];
    }

    /** Drop up to eight parked records of the dead process; go on to its entries when the batch
      * was not full.
      */
    method CleanParkedStep(call: nat)
      requires Valid() && call in calls && calls[call].CleanParked?
      modifies this`parked, this`calls
      ensures Valid() && starts == old(starts) && call in calls
      ensures OthersGoOn(old(calls), calls, call) && Fewer(waiters, old(parked), waiters, parked)
      ensures calls[call] == CleanParked(old(calls)[call].owner) || calls[call] == CleanEntries(old(calls)[call].owner)
      ensures calls[call].CleanEntries? ==> forall p :: p in parked ==> p.owner != calls[call].owner
      ensures forall p :: p in parked ==> p in old(parked)
      ensures forall p :: p in old(parked) && p.owner != old(calls)[call].owner ==> p in parked
    {
      hide NamesUnique;
      var owner := calls[call].owner;
      var n, rest := DropOwned(parked, owner, PARKED_BATCH);
      var next := if n < PARKED_BATCH then CleanEntries(owner) else CleanParked(owner);
      BatchTaken(entries, waiters, parked, calls, waiters, rest, call, next);
      ReachMoved(waiters, calls, waiters, call, next);
      ParkedMoved(parked, calls, starts, seen, rest, call, next);
      parked := rest;
      calls := calls[call := next];
    }

    /** Deactivate one entry of the dead process and go on to wake those who wait for its name;
      * finish when there is none left.
      */
    method CleanEntryStep(call: nat)
      requires Valid() && call in calls && calls[call].CleanEntries?
      modifies this`entries, this`calls
      ensures Valid() && OthersGoOn(old(calls), calls, call)
      ensures call !in calls ==> entries == old(entries) && forall n :: n in Bindings(entries) ==> Bindings(entries)[n].owner != old(calls)[call].owner
      ensures call in calls ==> calls[call].CleanName? && calls[call].owner == old(calls)[call].owner && !Bound(entries, calls[call].name)
      ensures call in calls ==>
                var b, n := old(Bindings(entries)), calls[call].name;
                n in b && b[n].owner == calls[call].owner && Bindings(entries) == b - {n}
    {
      hide WaitersReachable, Bindings, BatchOk;
      var owner := calls[call].owner;
      var i := 0;
      while i < |entries| && !(entries[i].active && entries[i].owner == owner)
        invariant i <= |entries| && forall j :: 0 <= j < i ==> !(entries[j].active && entries[j].owner == owner)
      {
        i := i + 1;
      }
      if i == |entries| {
        NoneOwned(entries, owner);
        CallEnded(entries, waiters, parked, calls, starts, seen, call);
        calls := calls - {call};
        return;
      }
      var name := entries[i].name;
      FoundAt(entries, i, name);
      BindingFound(entries, name);
      Unbound(entries, i);
      UnboundOne(entries, i);
      FewerBound(entries, entries[i := entries[i].(active := false)], waiters, parked, calls);
      entries := entries[i := entries[i].(active := false)];
      BatchTaken(entries, waiters, parked, calls, waiters, parked, call, CleanName(owner, name));
      ReachMoved(waiters, calls, waiters, call, CleanName(owner, name));
      ParkedMoved(parked, calls, starts, seen, parked, call, CleanName(owner, name));
      calls := calls[call := CleanName(owner, name)];
    }

    /** Take a batch of those who wait for the dead process's name. */
    method CleanCollect(call: nat)
      requires Valid() && call in calls && calls[call].CleanName?
      modifies this`waiters, this`calls
      ensures Valid() && call in calls && calls[call].CleanWaking?
      ensures OthersGoOn(old(calls), calls, call) && Fewer(old(waiters), parked, waiters, parked)
      ensures !calls[call].again ==> forall w :: w in waiters ==> w.name != calls[call].name
    {
      hide NamesUnique;
      var owner, name := calls[call].owner, calls[call].name;
      var wb, wrest := CollectWaiters(waiters, name, WAITER_BATCH);
      var next := CleanWaking(owner, name, wb, |wb| >= WAITER_BATCH);
      BatchTaken(entries, waiters, parked, calls, wrest, parked, call, next);
      ReachMoved(waiters, calls, wrest, call, next);
      ParkedMoved(parked, calls, starts, seen, parked, call, next);
      waiters := wrest;
      calls := calls[call := next];
    }

    /** Wake them: they will find the name gone. */
    method CleanWake(call: nat)
      requires Valid() && call in calls && calls[call].CleanWaking?
      modifies this`calls
      ensures Valid() && call in calls && OthersGoOn(old(calls), calls, call)
      ensures forall w :: w in old(calls)[call].waiters && w.call in calls && calls[w.call].Waiting? ==> calls[w.call].woken
    {
      hide NamesUnique;
      var c := calls[call];
      var next := if c.again then CleanName(c.owner, c.name) else CleanEntries(c.owner);
      var calls2 := WokenAll(calls, c.waiters)[call := next];
      WakeKeeps(entries, waiters, parked, calls, calls2, call);
      WakeReaches(waiters, calls, calls2, call, c.waiters);
      StartedOnce(parked, calls, starts, seen, calls2, call, {});
      NobodyStarted(starts, c, {});
      calls := calls2;
    }
  }

  /** An active entry under a unique name is what `Find` finds. */
  lemma FoundAt(entries: seq<Entry>, i: nat, name: string)
    requires NamesUnique(entries) && i < |entries| && entries[i].active && entries[i].name == name
    ensures Find(entries, name) == i
  {
  }

  /** The name just bound is being drained. */
  lemma DrainStarted(entries: seq<Entry>, entries': seq<Entry>, waiters: seq<Waiter>, parked: seq<Parked>,
                     calls: map<nat, Call>, call: nat, name: string)
    requires NoneForgotten(entries, waiters, parked, calls) && call !in calls
    requires forall n :: Bound(entries', n) ==> Bound(entries, n) || n == name
    ensures NoneForgotten(entries', waiters, parked, calls[call := Draining(name)])
  {
    hide Bound;
    var calls' := calls[call := Draining(name)];
    assert Drains(calls'[call], name) && SomeoneDrains(calls', name);
    forall n | SomeoneDrains(calls, n)
      ensures SomeoneDrains(calls', n)
    {
      OthersDrain(calls, call, Draining(name), n);
    }
    StillReached(entries, entries', waiters, parked, calls, waiters, parked, calls');
  }

  /** A new call that holds no records changes nothing for the waiters and the parked. */
  lemma CallAdded(calls: map<nat, Call>, waiters: seq<Waiter>, parked: seq<Parked>, starts: multiset<nat>, seen: set<nat>, call: nat, c: Call)
    requires WaitersReachable(waiters, calls) && ParkedOnce(parked, calls, starts, seen)
    requires call !in calls && WaitersOf(c) == [] && ParkedOf(c) == [] && !c.Waiting?
    ensures WaitersReachable(waiters, calls[call := c]) && ParkedOnce(parked, calls[call := c], starts, seen)
  {
    var calls' := calls[call := c];
    forall a | a in calls' && calls'[a].Waiting? && !calls'[a].woken
      ensures Waiter(a, calls'[a].name) in waiters || InSomeBatch(calls', Waiter(a, calls'[a].name))
    {
      var w := Waiter(a, calls[a].name);
      if InSomeBatch(calls, w) {
        var b :| b in calls && w in WaitersOf(calls[b]);
        assert b in calls' && w in WaitersOf(calls'[b]);
      }
    }
  }

  ghost predicate NobodyListed(waiters: seq<Waiter>, parked: seq<Parked>, name: string) {
    (forall w :: w in waiters ==> w.name != name) && forall p :: p in parked ==> p.name != name
  }

  /** A call that took records off the lists and goes on as `next`. */
  lemma BatchTaken(entries: seq<Entry>, waiters: seq<Waiter>, parked: seq<Parked>, calls: map<nat, Call>,
                   waiters': seq<Waiter>, parked': seq<Parked>, call: nat, next: Call)
    requires NoneForgotten(entries, waiters, parked, calls) && call in calls
    requires (forall w :: w in waiters' ==> w in waiters) && (forall p :: p in parked' ==> p in parked)
    requires forall n :: Drains(calls[call], n) ==> Drains(next, n) || NobodyListed(waiters', parked', n)
    ensures NoneForgotten(entries, waiters', parked', calls[call := next])
  {
    var calls' := calls[call := next];
    forall n | SomeoneDrains(calls, n)
      ensures SomeoneDrains(calls', n) || NobodyListed(waiters', parked', n)
    {
      if Drains(calls[call], n) {
        if Drains(next, n) {
          assert call in calls' && Drains(calls'[call], n);
        }
      } else {
        OthersDrain(calls, call, next, n);
      }
    }
    StillReached(entries, entries, waiters, parked, calls, waiters', parked', calls');
  }

  /** Waiters taken off the list are in the call's batch. */
  lemma ReachMoved(waiters: seq<Waiter>, calls: map<nat, Call>, waiters': seq<Waiter>, call: nat, next: Call)
    requires WaitersReachable(waiters, calls) && call in calls && WaitersOf(calls[call]) == [] && !calls[call].Waiting? && !next.Waiting?
    requires forall w :: w in waiters ==> w in waiters' || w in WaitersOf(next)
    ensures WaitersReachable(waiters', calls[call := next])
  {
    var calls' := calls[call := next];
    forall a | a in calls' && calls'[a].Waiting? && !calls'[a].woken
      ensures Waiter(a, calls'[a].name) in waiters' || InSomeBatch(calls', Waiter(a, calls'[a].name))
    {
      var w := Waiter(a, calls[a].name);
      if w in waiters {
        if w !in waiters' {
          assert call in calls' && w in WaitersOf(calls'[call]);
        }
      } else {
        var b :| b in calls && w in WaitersOf(calls[b]);
        assert b in calls' && w in WaitersOf(calls'[b]);
      }
    }
  }

  /** Parked records taken off the list are in the call's batch, or dropped. */
  lemma ParkedMoved(parked: seq<Parked>, calls: map<nat, Call>, starts: multiset<nat>, seen: set<nat>,
                    parked': seq<Parked>, call: nat, next: Call)
    requires ParkedOnce(parked, calls, starts, seen) && call in calls && ParkedOf(calls[call]) == []
    requires (forall p :: p in parked' ==> p in parked) && (forall p :: p in ParkedOf(next) ==> p in parked)
    requires DistinctTids(parked') && DistinctTids(ParkedOf(next)) && TidApart(parked', ParkedOf(next))
    ensures ParkedOnce(parked', calls[call := next], starts, seen)
  {
    var calls' := calls[call := next];
    forall a | a in calls'
      ensures BatchOk(parked', ParkedOf(calls'[a]), starts, seen)
    {
      if a != call {
        assert BatchOk(parked, ParkedOf(calls[a]), starts, seen);
      }
    }
    forall a, b | a in calls' && b in calls' && a != b
      ensures TidApart(ParkedOf(calls'[a]), ParkedOf(calls'[b]))
    {
      if a == call {
        assert BatchOk(parked, ParkedOf(calls[b]), starts, seen);
      } else if b == call {
        assert BatchOk(parked, ParkedOf(calls[a]), starts, seen);
      }
    }
  }

  // ---- waking ----

  /** The waiters of a batch that still wait are woken. */
  function WokenAll(calls: map<nat, Call>, batch: seq<Waiter>): (r: map<nat, Call>)
    ensures r.Keys == calls.Keys
    ensures forall a :: a in calls ==>
              r[a] == if calls[a].Waiting? && Named(batch, a) then calls[a].(woken := true) else calls[a]
  {
    map a | a in calls :: if calls[a].Waiting? && Named(batch, a) then calls[a].(woken := true) else calls[a]
  }

  predicate Named(batch: seq<Waiter>, a: nat) {
    exists i :: 0 <= i < |batch| && batch[i].call == a
  }

  lemma NamedAll(batch: seq<Waiter>)
    ensures forall w :: w in batch ==> Named(batch, w.call)
  {
    forall w | w in batch
      ensures Named(batch, w.call)
    {
      var i :| 0 <= i < |batch| && batch[i] == w;
    }
  }

  /** Start the threads of a batch that still exist. */
  function StartedAll(starts: multiset<nat>, batch: seq<Parked>, alive: set<nat>): multiset<nat> {
    if batch == [] then starts
    else
      var rest := StartedAll(starts, batch[..|batch| - 1], alive);
      if batch[|batch| - 1].tid in alive then rest + multiset{batch[|batch| - 1].tid} else rest
  }

  lemma {:induction false} StartCounts(starts: multiset<nat>, batch: seq<Parked>, alive: set<nat>, t: nat)
    requires DistinctTids(batch)
    ensures StartedAll(starts, batch, alive)[t] == starts[t] + if t in alive && (exists i :: 0 <= i < |batch| && batch[i].tid == t) then 1 else 0
  {
    if batch != [] {
      var n := |batch| - 1;
      StartCounts(starts, batch[..n], alive, t);
      if exists i :: 0 <= i < n && batch[..n][i].tid == t {
        var i :| 0 <= i < n && batch[..n][i].tid == t;
        assert batch[i].tid == t;
      }
      if exists i :: 0 <= i < |batch| && batch[i].tid == t {
        var i :| 0 <= i < |batch| && batch[i].tid == t;
        assert i < n ==> batch[..n][i].tid == t;
      }
    }
  }

  lemma NobodyStarted(starts: multiset<nat>, c: Call, alive: set<nat>)
    requires alive == {}
    ensures StartedAll(starts, ParkedOf(c), alive) == starts
    decreases |ParkedOf(c)|
  {
    StartedNone(starts, ParkedOf(c), alive);
  }

  lemma {:induction false} StartedNone(starts: multiset<nat>, batch: seq<Parked>, alive: set<nat>)
    requires alive == {}
    ensures StartedAll(starts, batch, alive) == starts
  {
    if batch != [] {
      StartedNone(starts, batch[..|batch| - 1], alive);
    }
  }

  /** The calls after waking: the waking call goes on or ends, blocked ones may be woken. */
  ghost predicate AfterWake(calls: map<nat, Call>, calls': map<nat, Call>, call: nat, batch: seq<Waiter>) {
    && call in calls && calls'.Keys - {call} == calls.Keys - {call}
    && forall a :: a in calls && a != call ==> a in calls' && calls'[a] == WokenAll(calls, batch)[a]
  }

  lemma WakeKeeps(entries: seq<Entry>, waiters: seq<Waiter>, parked: seq<Parked>, calls: map<nat, Call>, calls': map<nat, Call>, call: nat)
    requires NoneForgotten(entries, waiters, parked, calls) && call in calls && AfterWake(calls, calls', call, WaitersOf(calls[call]))
    requires forall n :: Drains(calls[call], n) ==> call in calls' && Drains(calls'[call], n)
    ensures NoneForgotten(entries, waiters, parked, calls')
  {
    forall n | SomeoneDrains(calls, n)
      ensures SomeoneDrains(calls', n)
    {
      var b :| b in calls && Drains(calls[b], n);
      assert b in calls' && Drains(calls'[b], n);
    }
    StillReached(entries, entries, waiters, parked, calls, waiters, parked, calls');
  }

  lemma WakeReaches(waiters: seq<Waiter>, calls: map<nat, Call>, calls': map<nat, Call>, call: nat, batch: seq<Waiter>)
    requires WaitersReachable(waiters, calls) && call in calls && WaitersOf(calls[call]) == batch && AfterWake(calls, calls', call, batch)
    requires call in calls' ==> !calls'[call].Waiting?
    ensures WaitersReachable(waiters, calls')
    ensures forall w :: w in batch && w.call in calls' && calls'[w.call].Waiting? ==> calls'[w.call].woken
  {
    NamedAll(batch);
    forall a | a in calls' && calls'[a].Waiting? && !calls'[a].woken
      ensures Waiter(a, calls'[a].name) in waiters || InSomeBatch(calls', Waiter(a, calls'[a].name))
    {
      assert a in calls'.Keys - {call};
      var w := Waiter(a, calls[a].name);
      if w !in waiters {
        var b :| b in calls && w in WaitersOf(calls[b]);
        assert b != call;
        assert b in calls' && w in WaitersOf(calls'[b]);
      }
    }
    forall w | w in batch && w.call in calls' && calls'[w.call].Waiting?
      ensures calls'[w.call].woken
    {
      assert w.call in calls'.Keys - {call};
    }
  }

  /** A batch apart from the one that was started is as it was. */
  lemma StillApart(parked: seq<Parked>, other: seq<Parked>, batch: seq<Parked>, starts: multiset<nat>, starts': multiset<nat>, seen: set<nat>, alive: set<nat>)
    requires BatchOk(parked, other, starts, seen) && TidApart(other, batch)
    requires forall t: nat :: StartsAfter(starts, starts', batch, alive, t)
    ensures BatchOk(parked, other, starts', seen)
  {
    forall p | p in other
      ensures starts'[p.tid] == 0
    {
      assert StartsAfter(starts, starts', batch, alive, p.tid);
      assert forall i :: 0 <= i < |batch| ==> batch[i] in batch;
    }
  }

  /** Starting a batch starts each of its threads once, and no thread twice. */
  lemma StartedOnce(parked: seq<Parked>, calls: map<nat, Call>, starts: multiset<nat>, seen: set<nat>,
                    calls': map<nat, Call>, call: nat, alive: set<nat>)
    requires ParkedOnce(parked, calls, starts, seen) && call in calls && AfterWake(calls, calls', call, WaitersOf(calls[call]))
    requires call in calls' ==> ParkedOf(calls'[call]) == []
    ensures var starts' := StartedAll(starts, ParkedOf(calls[call]), alive);
            && ParkedOnce(parked, calls', starts', seen)
            && (forall p :: p in ParkedOf(calls[call]) && p.tid in alive ==> starts'[p.tid] == 1)
            && forall t :: starts'[t] != starts[t] ==> t in alive && exists p :: p in ParkedOf(calls[call]) && p.tid == t
  {
    var batch := ParkedOf(calls[call]);
    var starts' := StartedAll(starts, batch, alive);
    forall t: nat
      ensures StartsAfter(starts, starts', batch, alive, t)
    {
      assert BatchOk(parked, batch, starts, seen);
      StartCounts(starts, batch, alive, t);
    }
    StartedBatches(parked, calls, starts, starts', seen, calls', call, alive);
    assert BatchOk(parked, batch, starts, seen);
    StartedThreads(batch, starts, starts', alive);
  }

  /** Each living thread of the batch was started once more. */
  ghost predicate StartsAfter(starts: multiset<nat>, starts': multiset<nat>, batch: seq<Parked>, alive: set<nat>, t: nat) {
    starts'[t] == starts[t] + if t in alive && (exists i :: 0 <= i < |batch| && batch[i].tid == t) then 1 else 0
  }

  lemma StartedThreads(batch: seq<Parked>, starts: multiset<nat>, starts': multiset<nat>, alive: set<nat>)
    requires forall t: nat :: StartsAfter(starts, starts', batch, alive, t)
    requires forall p :: p in batch ==> starts[p.tid] == 0
    ensures forall p :: p in batch && p.tid in alive ==> starts'[p.tid] == 1
    ensures forall t :: starts'[t] != starts[t] ==> t in alive && exists p :: p in batch && p.tid == t
    ensures forall t :: t in starts' ==> t in starts || exists p :: p in batch && p.tid == t
  {
    forall p | p in batch && p.tid in alive
      ensures starts'[p.tid] == 1
    {
      var i :| 0 <= i < |batch| && batch[i] == p;
      assert StartsAfter(starts, starts', batch, alive, p.tid);
    }
    forall t | starts'[t] != starts[t]
      ensures t in alive && exists p :: p in batch && p.tid == t
    {
      assert StartsAfter(starts, starts', batch, alive, t);
      var i :| 0 <= i < |batch| && batch[i].tid == t;
      assert batch[i] in batch;
    }
  }

  lemma StartedBatches(parked: seq<Parked>, calls: map<nat, Call>, starts: multiset<nat>, starts': multiset<nat>, seen: set<nat>,
                       calls': map<nat, Call>, call: nat, alive: set<nat>)
    requires ParkedOnce(parked, calls, starts, seen) && call in calls && AfterWake(calls, calls', call, WaitersOf(calls[call]))
    requires call in calls' ==> ParkedOf(calls'[call]) == []
    requires forall t: nat :: StartsAfter(starts, starts', ParkedOf(calls[call]), alive, t)
    ensures ParkedOnce(parked, calls', starts', seen)
  {
    var batch := ParkedOf(calls[call]);
    assert BatchOk(parked, batch, starts, seen);
    forall a | a in calls'
      ensures a != call ==> a in calls
      ensures ParkedOf(calls'[a]) == if a == call then [] else ParkedOf(calls[a])
    {
      assert a != call ==> a in calls'.Keys - {call};
    }
    forall a | a in calls'
      ensures BatchOk(parked, ParkedOf(calls'[a]), starts', seen)
    {
      if a != call {
        StillApart(parked, ParkedOf(calls[a]), batch, starts, starts', seen, alive);
      } else {
        assert ParkedOf(calls'[a]) == [];
      }
    }
    StillApart([], parked, batch, starts, starts', seen, alive);
    StartedThreads(batch, starts, starts', alive);
    forall t | t in starts'
      ensures t in seen && starts'[t] <= 1
    {
      assert StartsAfter(starts, starts', batch, alive, t);
    }
    hide BatchOk, StartsAfter, AfterWake;
  }

  /** A thread not seen before may start. */
  lemma StartedNow(parked: seq<Parked>, calls: map<nat, Call>, starts: multiset<nat>, seen: set<nat>, tid: nat)
    requires ParkedOnce(parked, calls, starts, seen) && tid !in seen
    ensures ParkedOnce(parked, calls, starts + multiset{tid}, seen + {tid})
  {
    forall a | a in calls
      ensures BatchOk(parked, ParkedOf(calls[a]), starts + multiset{tid}, seen + {tid})
    {
      assert BatchOk(parked, ParkedOf(calls[a]), starts, seen);
    }
  }

  /** Or be parked for an unbound name. */
  lemma ParkedNow(entries: seq<Entry>, waiters: seq<Waiter>, parked: seq<Parked>, calls: map<nat, Call>, starts: multiset<nat>, seen: set<nat>, p: Parked)
    requires NoneForgotten(entries, waiters, parked, calls) && ParkedOnce(parked, calls, starts, seen) && p.tid !in seen && !Bound(entries, p.name)
    ensures NoneForgotten(entries, waiters, parked + [p], calls) && ParkedOnce(parked + [p], calls, starts, seen + {p.tid})
  {
    hide Bound;
    forall a | a in calls
      ensures BatchOk(parked + [p], ParkedOf(calls[a]), starts, seen + {p.tid})
    {
      assert BatchOk(parked, ParkedOf(calls[a]), starts, seen);
    }
  }

  // ---- waiting and unbinding ----

  /** A waiter for an unbound name goes on the list. */
  lemma WaiterAdded(entries: seq<Entry>, waiters: seq<Waiter>, parked: seq<Parked>, calls: map<nat, Call>,
                    starts: multiset<nat>, seen: set<nat>, call: nat, name: string)
    requires NoneForgotten(entries, waiters, parked, calls) && WaitersReachable(waiters, calls) && ParkedOnce(parked, calls, starts, seen)
    requires call !in calls && !Bound(entries, name)
    ensures var waiters', calls' := waiters + [Waiter(call, name)], calls[call := Waiting(name, false)];
            && NoneForgotten(entries, waiters', parked, calls') && WaitersReachable(waiters', calls')
            && ParkedOnce(parked, calls', starts, seen)
  {
    var waiters', calls' := waiters + [Waiter(call, name)], calls[call := Waiting(name, false)];
    forall n | SomeoneDrains(calls, n)
      ensures SomeoneDrains(calls', n)
    {
      OthersDrain(calls, call, Waiting(name, false), n);
    }
    forall a | a in calls' && calls'[a].Waiting? && !calls'[a].woken
      ensures Waiter(a, calls'[a].name) in waiters' || InSomeBatch(calls', Waiter(a, calls'[a].name))
    {
      if a != call && Waiter(a, calls[a].name) !in waiters {
        var b :| b in calls && Waiter(a, calls[a].name) in WaitersOf(calls[b]);
        assert b in calls' && Waiter(a, calls[a].name) in WaitersOf(calls'[b]);
      }
    }
  }

  /** The list without a record. */
  method Unlink(list: seq<Waiter>, w: Waiter) returns (rest: seq<Waiter>)
    ensures forall x :: x in rest <==> x in list && x != w
    ensures forall n :: WaitCount(rest, n) <= WaitCount(list, n)
  {
    rest := [];
    for i := 0 to |list|
      invariant forall x :: x in rest <==> x in list[..i] && x != w
      invariant forall n :: WaitCount(rest, n) <= WaitCount(list[..i], n)
    {
      assert list[..i + 1] == list[..i] + [list[i]];
      WaitCountMore(rest, list[..i], list[i]);
      if list[i] != w {
        rest := rest + [list[i]];
      }
    }
    assert list[..|list|] == list;
  }

  /** A waiter that runs again is off the list, and its call ends. */
  lemma WaiterGone(entries: seq<Entry>, waiters: seq<Waiter>, parked: seq<Parked>, calls: map<nat, Call>,
                   starts: multiset<nat>, seen: set<nat>, rest: seq<Waiter>, call: nat)
    requires NoneForgotten(entries, waiters, parked, calls) && WaitersReachable(waiters, calls) && ParkedOnce(parked, calls, starts, seen)
    requires call in calls && calls[call].Waiting? && forall x :: x in rest <==> x in waiters && x != Waiter(call, calls[call].name)
    ensures NoneForgotten(entries, rest, parked, calls - {call}) && WaitersReachable(rest, calls - {call})
    ensures ParkedOnce(parked, calls - {call}, starts, seen)
  {
    var calls' := calls - {call};
    forall n | SomeoneDrains(calls, n)
      ensures SomeoneDrains(calls', n)
    {
      var b :| b in calls && Drains(calls[b], n);
      assert b in calls' && Drains(calls'[b], n);
    }
    StillReached(entries, entries, waiters, parked, calls, rest, parked, calls');
    forall a | a in calls' && calls'[a].Waiting? && !calls'[a].woken
      ensures Waiter(a, calls'[a].name) in rest || InSomeBatch(calls', Waiter(a, calls'[a].name))
    {
      if Waiter(a, calls[a].name) !in waiters {
        var b :| b in calls && Waiter(a, calls[a].name) in WaitersOf(calls[b]);
        assert b in calls' && Waiter(a, calls[a].name) in WaitersOf(calls'[b]);
      }
    }
  }

  /** A call that holds no records and drains nothing may end. */
  lemma CallEnded(entries: seq<Entry>, waiters: seq<Waiter>, parked: seq<Parked>, calls: map<nat, Call>,
                  starts: multiset<nat>, seen: set<nat>, call: nat)
    requires NoneForgotten(entries, waiters, parked, calls) && WaitersReachable(waiters, calls) && ParkedOnce(parked, calls, starts, seen)
    requires call in calls && calls[call].CleanEntries?
    ensures NoneForgotten(entries, waiters, parked, calls - {call}) && WaitersReachable(waiters, calls - {call})
    ensures ParkedOnce(parked, calls - {call}, starts, seen)
  {
    var calls' := calls - {call};
    forall n | SomeoneDrains(calls, n)
      ensures SomeoneDrains(calls', n)
    {
      var b :| b in calls && Drains(calls[b], n);
      assert b in calls' && Drains(calls'[b], n);
    }
    forall a | a in calls' && calls'[a].Waiting? && !calls'[a].woken
      ensures Waiter(a, calls'[a].name) in waiters || InSomeBatch(calls', Waiter(a, calls'[a].name))
    {
      if Waiter(a, calls[a].name) !in waiters {
        var b :| b in calls && Waiter(a, calls[a].name) in WaitersOf(calls[b]);
        assert b in calls' && Waiter(a, calls[a].name) in WaitersOf(calls'[b]);
      }
    }
  }

  lemma MoreCalls(entries: seq<Entry>, waiters: seq<Waiter>, parked: seq<Parked>, calls: map<nat, Call>, call: nat, c: Call)
    requires NoneForgotten(entries, waiters, parked, calls) && call !in calls
    ensures NoneForgotten(entries, waiters, parked, calls[call := c])
  {
    forall n | SomeoneDrains(calls, n)
      ensures SomeoneDrains(calls[call := c], n)
    {
      OthersDrain(calls, call, c, n);
    }
  }

  /** Deactivating an entry unbinds its name and no other. */
  lemma Unbound(entries: seq<Entry>, i: nat)
    requires NamesUnique(entries) && i < |entries| && entries[i].active
    ensures var entries' := entries[i := entries[i].(active := false)];
            && NamesUnique(entries') && !Bound(entries', entries[i].name)
            && forall n :: n != entries[i].name ==> (Bound(entries', n) <==> Bound(entries, n))
  {
    var entries' := entries[i := entries[i].(active := false)];
    BoundBy(entries', entries[i].name);
    forall n | n != entries[i].name
      ensures Bound(entries', n) <==> Bound(entries, n)
    {
      BoundBy(entries, n);
      BoundBy(entries', n);
      if Bound(entries, n) {
        var j :| 0 <= j < |entries| && entries[j].active && entries[j].name == n;
        assert entries'[j] == entries[j];
      }
    }
  }

  lemma FewerBound(entries: seq<Entry>, entries': seq<Entry>, waiters: seq<Waiter>, parked: seq<Parked>, calls: map<nat, Call>)
    requires NoneForgotten(entries, waiters, parked, calls) && forall n :: Bound(entries', n) ==> Bound(entries, n)
    ensures NoneForgotten(entries', waiters, parked, calls)
  {
  }

  /** Drop up to `cap` records of a process. */
  method DropOwned(list: seq<Parked>, owner: int, cap: nat) returns (n: nat, rest: seq<Parked>)
    requires DistinctTids(list)
    ensures n <= cap && DistinctTids(rest) && (forall p :: p in rest ==> p in list)
    ensures forall m :: ParkCount(rest, m) <= ParkCount(list, m)
    ensures forall p :: p in list && p.owner != owner ==> p in rest
    ensures n < cap ==> forall p :: p in rest ==> p.owner != owner
  {
    n, rest := 0, [];
    var i := 0;
    ghost var dropped: seq<Parked> := [];
    while i < |list| && n < cap
      invariant i <= |list| && n <= cap && DistinctTids(rest)
      invariant forall p :: p in rest ==> p in list[..i] && p.owner != owner
      invariant forall p :: p in list[..i] && p.owner != owner ==> p in rest
      invariant forall m :: ParkCount(dropped, m) + ParkCount(rest, m) == ParkCount(list[..i], m)
    {
      assert list[..i + 1] == list[..i] + [list[i]];
      ParkedCounted(list, i, dropped, rest);
      if list[i].owner == owner {
        n := n + 1;
        dropped := dropped + [list[i]];
      } else {
        rest := rest + [list[i]];
      }
      i := i + 1;
    }
    assert list == list[..i] + list[i..];
    TakenApart(list, i, [], rest);
    ParkedRest(list, i, dropped, rest);
    rest := rest + list[i..];
  }

  // ---- all interleavings ----

  /** One section under the lock, or one round of waking, of some call. */
  datatype Step =
    | DoRegister(call: nat, name: string, port: nat, owner: int, alive: set<int>)
    | DoWait(call: nat, name: string)
    | DoPark(tid: nat, name: string, owner: int, memory: bool)
    | DoUnregister(name: string, owner: int)
    | DoClean(call: nat, owner: int)
    | DoContinue(call: nat, threads: set<nat>)

  /** Calls not blocked stay where they are, but for the one that goes on. */
  ghost predicate OnlyStepped(calls: map<nat, Call>, calls': map<nat, Call>, s: Step) {
    forall a :: a in calls && !calls[a].Waiting? && !(s.DoContinue? && s.call == a) ==> a in calls' && calls'[a] == calls[a]
  }

  /** What a step did to the bindings: only a registration that is not refused binds, and only its name; only
    * the owner of a name, or a cleanup after it, unbinds, and only that name.
    */
  ghost predicate StepBinds(b: map<string, Binding>, b': map<string, Binding>, calls: map<nat, Call>, s: Step) {
    match s
    case DoRegister(call, name, port, owner, alive) =>
      b' == if call !in calls && name != "" && (if name in b then b[name].owner == owner || b[name].owner !in alive else |b| != REGISTRY_MAX)
            then b[name := Binding(port, owner)] else b
    case DoUnregister(name, owner) => b' == if name in b && b[name].owner == owner then b - {name} else b
    case DoContinue(call, _) =>
      if call in calls && calls[call].CleanEntries? then CleanedOne(b, b', calls[call].owner) else b' == b
    case _ => b' == b
  }

  /** One name of a dead process was unbound, or it has none. */
  ghost predicate CleanedOne(b: map<string, Binding>, b': map<string, Binding>, owner: int) {
    if forall n :: n in b ==> b[n].owner != owner then b' == b
    else exists n :: n in b && b[n].owner == owner && b' == b - {n}
  }

  /** Nobody is listed anew under a name that is bound. */
  ghost predicate NoNewcomers(entries: seq<Entry>, waiters: seq<Waiter>, parked: seq<Parked>, waiters': seq<Waiter>, parked': seq<Parked>) {
    forall n :: Bound(entries, n) ==> Pending(waiters', parked', n) <= Pending(waiters, parked, n)
  }

  lemma NoneNew(entries: seq<Entry>, waiters: seq<Waiter>, parked: seq<Parked>, waiters': seq<Waiter>, parked': seq<Parked>)
    requires Fewer(waiters, parked, waiters', parked')
    ensures NoNewcomers(entries, waiters, parked, waiters', parked')
  {
  }

  lemma NewWaiter(entries: seq<Entry>, waiters: seq<Waiter>, parked: seq<Parked>, w: Waiter)
    requires !Bound(entries, w.name)
    ensures NoNewcomers(entries, waiters, parked, waiters + [w], parked)
  {
    forall n | Bound(entries, n)
      ensures Pending(waiters + [w], parked, n) <= Pending(waiters, parked, n)
    {
      WaitCountJoined(waiters, [w], n);
    }
  }

  lemma NewParked(entries: seq<Entry>, waiters: seq<Waiter>, parked: seq<Parked>, p: Parked)
    requires !Bound(entries, p.name)
    ensures NoNewcomers(entries, waiters, parked, waiters, parked + [p])
  {
    forall n | Bound(entries, n)
      ensures Pending(waiters, parked + [p], n) <= Pending(waiters, parked, n)
    {
      ParkCountJoined(parked, [p], n);
    }
  }

  /** The next section of a call in progress, whichever it is. */
  method Continue(r: Registry, call: nat, threads: set<nat>)
    requires r.Valid() && call in r.calls
    modifies r
    ensures r.Valid() && OthersGoOn(old(r.calls), r.calls, call) && Fewer(old(r.waiters), old(r.parked), r.waiters, r.parked)
    ensures if old(r.calls)[call].CleanEntries? then CleanedOne(old(Bindings(r.entries)), Bindings(r.entries), old(r.calls)[call].owner)
            else r.entries == old(r.entries)
  {
    hide NamesUnique, NoneForgotten, WaitersReachable, ParkedOnce, Pending, Bindings;
    match r.calls[call] {
      case Draining(_) => r.Collect(call);
      case Waking(_, _, _, _) => r.Wake(call, threads);
      case Waiting(_, _) => var _ := r.Resume(call);
      case CleanParked(_) => r.CleanParkedStep(call);
      case CleanEntries(_) => r.CleanEntryStep(call);
      case CleanName(_, _) => r.CleanCollect(call);
      case CleanWaking(_, _, _, _) => r.CleanWake(call);
    }
  }

  method DoStep(r: Registry, s: Step)
    requires r.Valid()
    modifies r
    ensures r.Valid() && OnlyStepped(old(r.calls), r.calls, s)
    ensures NoNewcomers(old(r.entries), old(r.waiters), old(r.parked), r.waiters, r.parked)
    ensures StepBinds(old(Bindings(r.entries)), Bindings(r.entries), old(r.calls), s)
  {
    hide NamesUnique, NoneForgotten, WaitersReachable, ParkedOnce, Pending, NoNewcomers, Fewer, Bound, Bindings, CleanedOne;
    ghost var entries, waiters, parked := r.entries, r.waiters, r.parked;
    assert Fewer(waiters, parked, waiters, parked) by { SameCounts(waiters, parked); }
    NoneNew(entries, waiters, parked, waiters, parked);
    match s {
      case DoRegister(call, name, port, owner, alive) =>
        if call !in r.calls {
          var _ := r.Register(call, name, port, owner, alive);
        }
      case DoWait(call, name) =>
        if call !in r.calls {
          var _ := r.WaitStart(call, name);
          if r.waiters != waiters {
            NewWaiter(entries, waiters, parked, Waiter(call, name));
          }
        }
      case DoPark(tid, name, owner, memory) =>
        if tid !in r.seen {
          var _ := r.ParkOrStart(tid, name, owner, memory);
          if r.parked != parked {
            BindingFound(entries, name);
            NewParked(entries, waiters, parked, Parked(tid, name, owner));
          }
        }
      case DoUnregister(name, owner) =>
        r.Unregister(name, owner);
      case DoClean(call, owner) =>
        if call !in r.calls {
          r.CleanStart(call, owner);
        }
      case DoContinue(call, threads) =>
        if call in r.calls {
          Continue(r, call, threads);
          NoneNew(entries, waiters, parked, r.waiters, r.parked);
        }
    }
  }

  lemma SameCounts(waiters: seq<Waiter>, parked: seq<Parked>)
    ensures Fewer(waiters, parked, waiters, parked)
  {
  }

  // ---- a registration comes to an end ----

  /** Steps of other calls. The name must stay bound. */
  method Meanwhile(r: Registry, steps: seq<Step>, call: nat, name: string) returns (bound: bool)
    requires r.Valid() && call in r.calls && !r.calls[call].Waiting? && Bound(r.entries, name)
    modifies r
    ensures r.Valid() && call in r.calls && r.calls[call] == old(r.calls)[call]
    ensures bound ==> Bound(r.entries, name) && Pending(r.waiters, r.parked, name) <= old(Pending(r.waiters, r.parked, name))
  {
    hide NamesUnique, NoneForgotten, WaitersReachable, ParkedOnce, Pending, Bound;
    for i := 0 to |steps|
      invariant r.Valid() && call in r.calls && r.calls[call] == old(r.calls)[call] && Bound(r.entries, name)
      invariant Pending(r.waiters, r.parked, name) <= old(Pending(r.waiters, r.parked, name))
    {
      if !(steps[i].DoContinue? && steps[i].call == call) {
        DoStep(r, steps[i]);
        if Find(r.entries, name) == |r.entries| {
          return false;
        }
        StillBound(r.entries, name);
      }
    }
    bound := true;
  }

  lemma StillBound(entries: seq<Entry>, name: string)
    ensures Bound(entries, name) <==> Find(entries, name) < |entries|
  {
  }

  /** A registration empties the lists for its name in finitely many rounds of its own, whatever
    * other calls do between them, as long as the name stays bound: every round but the last takes
    * at least eight of those listed at the start.
    */
  method FinishDrain(r: Registry, call: nat, name: string, others: nat -> seq<Step>, threads: set<nat>) returns (rounds: nat, bound: bool)
    requires r.Valid() && call in r.calls && r.calls[call] == Draining(name) && Bound(r.entries, name)
    modifies r
    ensures r.Valid() && PARKED_BATCH * rounds <= old(Pending(r.waiters, r.parked, name)) + PARKED_BATCH
    ensures bound ==> call !in r.calls && Bound(r.entries, name) && NobodyListed(r.waiters, r.parked, name)
  {
    hide NamesUnique, NoneForgotten, WaitersReachable, ParkedOnce, Pending, Bound, NobodyListed;
    rounds, bound := 0, true;
    while true
      invariant r.Valid() && call in r.calls && r.calls[call] == Draining(name) && Bound(r.entries, name)
      invariant PARKED_BATCH * rounds + Pending(r.waiters, r.parked, name) <= old(Pending(r.waiters, r.parked, name))
      decreases Pending(r.waiters, r.parked, name)
    {
      bound := Meanwhile(r, others(2 * rounds), call, name);
      if !bound {
        return;
      }
      r.Collect(call);
      rounds := rounds + 1;
      var again := r.calls[call].again;
      NobodyPending(r.waiters, r.parked, name);
      bound := Meanwhile(r, others(2 * rounds - 1), call, name);
      if !bound {
        return;
      }
      r.Wake(call, threads);
      if !again {
        NobodyPending(r.waiters, r.parked, name);
        return;
      }
    }
  }

  /** What is bound, and which calls are in progress. */
  datatype Moment = Moment(bound: map<string, Binding>, calls: map<nat, Call>)

  /** The moments a run goes through, from nothing bound on. */
  ghost predicate History(moments: seq<Moment>, steps: seq<Step>) {
    && |moments| == |steps| + 1 && moments[0].bound == map[]
    && forall i :: 0 <= i < |steps| ==> StepBinds(moments[i].bound, moments[i + 1].bound, moments[i].calls, steps[i])
  }

  /** A step that may end what `n` is bound to: it registers the name again, as the owner or over a dead one, or
    * unregisters it as the owner, or cleans up after the owner.
    */
  predicate MayEnd(s: Step, calls: map<nat, Call>, n: string, b: Binding) {
    match s
    case DoRegister(_, name, _, owner, alive) => name == n && (owner == b.owner || b.owner !in alive)
    case DoUnregister(name, owner) => name == n && owner == b.owner
    case DoContinue(call, _) => call in calls && calls[call] == CleanEntries(b.owner)
    case _ => false
  }

  /** A bound name keeps its port and its owner until such a step. */
  lemma {:induction false} BindingStays(moments: seq<Moment>, steps: seq<Step>, i: nat, j: nat, n: string)
    requires History(moments, steps) && i <= j <= |steps| && n in moments[i].bound
    requires forall k :: i <= k < j ==> !MayEnd(steps[k], moments[k].calls, n, moments[i].bound[n])
    ensures n in moments[j].bound && moments[j].bound[n] == moments[i].bound[n]
  {
    if i < j {
      BindingStays(moments, steps, i, j - 1, n);
      assert StepBinds(moments[j - 1].bound, moments[j].bound, moments[j - 1].calls, steps[j - 1]);
    }
  }

  /** A name comes to be bound only by registering it. */
  lemma OnlyRegistered(moments: seq<Moment>, steps: seq<Step>, i: nat, n: string)
    requires History(moments, steps) && i < |steps| && n in moments[i + 1].bound
    requires n !in moments[i].bound || moments[i].bound[n] != moments[i + 1].bound[n]
    ensures steps[i].DoRegister? && steps[i].name == n && moments[i + 1].bound[n] == Binding(steps[i].port, steps[i].owner)
  {
    assert StepBinds(moments[i].bound, moments[i + 1].bound, moments[i].calls, steps[i]);
  }

  lemma HistoryMore(moments: seq<Moment>, steps: seq<Step>, i: nat, m: Moment)
    requires i < |steps| && History(moments, steps[..i]) && StepBinds(moments[i].bound, m.bound, moments[i].calls, steps[i])
    ensures History(moments + [m], steps[..i + 1])
  {
    hide StepBinds;
    var more, es := moments + [m], steps[..i + 1];
    forall k | 0 <= k < |es|
      ensures StepBinds(more[k].bound, more[k + 1].bound, more[k].calls, es[k])
    {
      if k < i {
        assert steps[..i][k] == steps[k];
      }
    }
  }

  /** Any interleaving, from an empty registry: names stay unique, no parked thread is started
    * twice, whenever nobody is draining a bound name, nobody waits or is parked under it, and what is
    * bound changes step by step as the steps say.
    */
  method RunRegistry(steps: seq<Step>) returns (r: Registry, ghost moments: seq<Moment>)
    ensures r.Valid()
    ensures History(moments, steps) && moments[|steps|] == Moment(Bindings(r.entries), r.calls)
    ensures forall n :: Bound(r.entries, n) && (forall a :: a in r.calls ==> !Drains(r.calls[a], n)) ==> NobodyListed(r.waiters, r.parked, n)
    ensures forall t :: t in r.starts ==> r.starts[t] == 1
  {
    hide NamesUnique, WaitersReachable, StepBinds, Bound;
    r := new Registry();
    moments := [Moment(Bindings(r.entries), r.calls)];
    assert steps[..0] == [];
    for i := 0 to |steps|
      invariant fresh(r) && r.Valid()
      invariant History(moments, steps[..i]) && moments[i] == Moment(Bindings(r.entries), r.calls)
    {
      DoStep(r, steps[i]);
      HistoryMore(moments, steps, i, Moment(Bindings(r.entries), r.calls));
      moments := moments + [Moment(Bindings(r.entries), r.calls)];
    }
    assert steps[..|steps|] == steps;
    forall n | Bound(r.entries, n) && forall a :: a in r.calls ==> !Drains(r.calls[a], n)
      ensures NobodyListed(r.waiters, r.parked, n)
    {
      QuietMeansServed(r.entries, r.waiters, r.parked, r.calls, n);
    }
  }
}
