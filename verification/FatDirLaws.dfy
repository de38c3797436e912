/** What a run of directory commands comes to, said of the commands and their outcomes alone. */
module FatDirLaws {
  import opened Arith
  import opened Bytes
  import opened ExfatNames
  import opened ExfatCase
  import opened FatTable
  import opened FatClusters
  import opened FatChains
  import opened FatNames
  import opened FatSlots
  import opened FatDirectory
  import opened FatDirOps
  import opened FatDirMap
  import opened FatLaws

  /** A name that is listed as it is, case apart: all but the names that are listed shortened, cut off
    * or not at all.
    */
  predicate Fit(name: seq<byte>, bpc: nat) {
    Storable(name) && !Unfit(name, bpc) && !Hidden(name)
  }

  /** The names a command stores are fit. */
  predicate Plain(op: DirOp, bpc: nat) {
    match op
    case Make(name, _, _, _) => Fit(name, bpc)
    case Move(name, to) => Fit(name, bpc) && Fit(to, bpc)
    case _ => true
  }

  /** A fit name with long-name slots is listed byte for byte, another one in lower case. */
  function Listing(name: seq<byte>): seq<byte> {
    if NeedsLfn(name) then name else LowerAll(name)
  }

  lemma FitListed(name: seq<byte>, bpc: nat)
    requires Fit(name, bpc)
    ensures ListedAs(name) == Listing(name) && LowerAll(ListedAs(name)) == LowerAll(name)
  {
    hide NeedsLfn, Decode83, Encode83, LowerAll;
    FoundAgain(name);
    if !NeedsLfn(name) {
      ShortNameShown(name);
      LowerNotNul(name);
      FatDirMap.NoNul(LowerAll(name));
    }
  }

  /** The command is about a name with this lower-case form. */
  predicate About(op: DirOp, key: seq<byte>) {
    !op.Look? && (LowerAll(op.name) == key || (op.Move? && LowerAll(op.to) == key))
  }

  predicate SameIn(m: map<seq<byte>, Record>, m': map<seq<byte>, Record>, key: seq<byte>) {
    (key in m <==> key in m') && (key in m ==> m[key] == m'[key])
  }

  /** A command that stores fit names only spoils nothing. */
  lemma PlainStep(s: DirState, s': DirState, limit: nat, bpc: nat, op: DirOp, out: Outcome, last: bool)
    requires StoryAt(s, s', limit, bpc, op, out, last) && Plain(op, bpc)
    ensures MapIn(s') == Effect(MapIn(s), op, out)
  {
    hide Effect, LowerAll, NeedsLfn, ListedAs, Unfit, DirList, NoRoom, NoRoomWithout, NoneFree, SlotsNeeded;
    match op
    case Make(name, attr, first, size) =>
      PlainName(MapIn(s), name, bpc);
    case Move(name, to) =>
      PlainName(MapIn(s) - {LowerAll(name)}, name, bpc);
      PlainName(MapIn(s) - {LowerAll(name)}, to, bpc);
    case _ =>
  }

  lemma PlainName(m: map<seq<byte>, Record>, name: seq<byte>, bpc: nat)
    requires Fit(name, bpc)
    ensures Spoils(m, name, bpc) <==> LowerAll(name) in m
  {
    hide LowerAll, NeedsLfn, ListedAs, Findable;
    FitListed(name, bpc);
  }

  lemma OtherKeys(m: map<seq<byte>, Record>, op: DirOp, out: Outcome, bpc: nat, key: seq<byte>)
    requires Plain(op, bpc) && !About(op, key)
    ensures SameIn(m, Effect(m, op, out), key)
  {
    hide LowerAll, NeedsLfn, ListedAs, Findable;
    match op
    case Make(name, _, _, _) => FitListed(name, bpc);
    case Move(name, to) =>
      FitListed(name, bpc);
      FitListed(to, bpc);
    case _ =>
  }

  /** A name keeps its record, or keeps having none, until a command is about it. */
  lemma {:induction false} Undisturbed(states: seq<DirState>, limit: nat, bpc: nat, ops: seq<DirOp>, outs: seq<Outcome>, i: nat, j: nat, key: seq<byte>)
    requires Story(states, limit, bpc, ops, outs) && i <= j <= |ops|
    requires forall k :: i <= k < j ==> Plain(ops[k], bpc) && !About(ops[k], key)
    ensures SameIn(MapIn(states[i]), MapIn(states[j]), key)
    decreases j
  {
    hide StoryAt, MapIn, Effect, About, Plain, LowerAll;
    if i < j {
      Undisturbed(states, limit, bpc, ops, outs, i, j - 1, key);
      assert StoryAt(states[j - 1], states[j - 1 + 1], limit, bpc, ops[j - 1], outs[j - 1], j == |ops|);
      PlainStep(states[j - 1], states[j], limit, bpc, ops[j - 1], outs[j - 1], j == |ops|);
      OtherKeys(MapIn(states[j - 1]), ops[j - 1], outs[j - 1], bpc, key);
    }
  }

  /** A lookup tells what the map has. */
  lemma Looked(states: seq<DirState>, limit: nat, bpc: nat, ops: seq<DirOp>, outs: seq<Outcome>, j: nat)
    requires Story(states, limit, bpc, ops, outs) && j < |ops| && ops[j].Look?
    ensures var m, key := MapIn(states[j]), LowerAll(ops[j].name); outs[j] == if key in m then Is(m[key]) else Missing
  {
    hide LowerAll, DirList, MapOf;
    assert StoryAt(states[j], states[j + 1], limit, bpc, ops[j], outs[j], j + 1 == |ops|);
  }

  /** Between two commands of a run nothing is about the name of the second. */
  predicate Meanwhile(ops: seq<DirOp>, bpc: nat, i: nat, j: nat)
    requires j < |ops|
  {
    i < j && ops[j].Look? && forall k :: i < k < j ==> Plain(ops[k], bpc) && !About(ops[k], LowerAll(ops[j].name))
  }

  /** What a command leaves under a name is what the next lookup of the name delivers. */
  lemma LookedLater(states: seq<DirState>, limit: nat, bpc: nat, ops: seq<DirOp>, outs: seq<Outcome>, i: nat, j: nat)
    requires Story(states, limit, bpc, ops, outs) && j < |ops| && Meanwhile(ops, bpc, i, j) && Plain(ops[i], bpc)
    ensures var m, key := Effect(MapIn(states[i]), ops[i], outs[i]), LowerAll(ops[j].name); outs[j] == if key in m then Is(m[key]) else Missing
    ensures InData(states[i].data, states[i].cl) && outs[i] == Result(states[i], limit, ops[i])
  {
    hide LowerAll, MapIn, Effect, Result;
    assert StoryAt(states[i], states[i + 1], limit, bpc, ops[i], outs[i], i + 1 == |ops|);
    PlainStep(states[i], states[i + 1], limit, bpc, ops[i], outs[i], i + 1 == |ops|);
    Undisturbed(states, limit, bpc, ops, outs, i + 1, j, LowerAll(ops[j].name));
    Looked(states, limit, bpc, ops, outs, j);
  }

  /** What was made is found, under its name in either case, with the attributes, first cluster and size
    * it was made with.
    */
  lemma MadeIsFound(states: seq<DirState>, limit: nat, bpc: nat, ops: seq<DirOp>, outs: seq<Outcome>, i: nat, j: nat)
    requires Story(states, limit, bpc, ops, outs) && j < |ops| && Meanwhile(ops, bpc, i, j) && Plain(ops[i], bpc)
    requires ops[i].Make? && outs[i].Done? && Cased(ops[i].name, ops[j].name)
    ensures outs[j] == Is(Record(Listing(ops[i].name), ops[i].attr, ops[i].first, ops[i].size))
  {
    hide LowerAll, MapIn, Result, NeedsLfn, Findable, ListedAs;
    SameLowerExactly(ops[i].name, ops[j].name);
    LookedLater(states, limit, bpc, ops, outs, i, j);
    FitListed(ops[i].name, bpc);
  }

  /** What was deleted is not found. */
  lemma DeletedIsMissing(states: seq<DirState>, limit: nat, bpc: nat, ops: seq<DirOp>, outs: seq<Outcome>, i: nat, j: nat)
    requires Story(states, limit, bpc, ops, outs) && j < |ops| && Meanwhile(ops, bpc, i, j)
    requires ops[i].Delete? && Cased(ops[i].name, ops[j].name)
    ensures outs[j] == Missing
  {
    hide LowerAll, MapIn, Result;
    SameLowerExactly(ops[i].name, ops[j].name);
    LookedLater(states, limit, bpc, ops, outs, i, j);
  }

  /** A lookup, a change and a lookup again: size and first cluster are the new ones, all else as it was. */
  lemma ChangedIsFound(states: seq<DirState>, limit: nat, bpc: nat, ops: seq<DirOp>, outs: seq<Outcome>, h: nat, i: nat, j: nat)
    requires Story(states, limit, bpc, ops, outs) && h < i < j < |ops| && Meanwhile(ops, bpc, i, j)
    requires ops[h].Look? && outs[h].Is? && ops[i].Change? && Cased(ops[h].name, ops[i].name) && Cased(ops[i].name, ops[j].name)
    requires forall k :: h < k < i ==> Plain(ops[k], bpc) && !About(ops[k], LowerAll(ops[h].name))
    ensures outs[i] == Done
    ensures outs[j] == Is(outs[h].record.(size := ops[i].size, first := if ops[i].first == KEEP_CLUSTER then outs[h].record.first else ops[i].first))
  {
    hide LowerAll, MapOf, DirList;
    SameLowerExactly(ops[h].name, ops[i].name);
    SameLowerExactly(ops[i].name, ops[j].name);
    Looked(states, limit, bpc, ops, outs, h);
    Undisturbed(states, limit, bpc, ops, outs, h, i, LowerAll(ops[h].name));
    LookedLater(states, limit, bpc, ops, outs, i, j);
  }

  /** A lookup, a move and a lookup: the new name finds what the old one did, and the old name nothing,
    * unless it is the new one in another case.
    */
  lemma MovedIsFound(states: seq<DirState>, limit: nat, bpc: nat, ops: seq<DirOp>, outs: seq<Outcome>, h: nat, i: nat, j: nat)
    requires Story(states, limit, bpc, ops, outs) && h < i < j < |ops| && Meanwhile(ops, bpc, i, j) && Plain(ops[i], bpc)
    requires ops[h].Look? && outs[h].Is? && ops[i].Move? && outs[i].Done? && Cased(ops[h].name, ops[i].name)
    requires forall k :: h < k < i ==> Plain(ops[k], bpc) && !About(ops[k], LowerAll(ops[h].name))
    ensures Cased(ops[i].to, ops[j].name) ==> outs[j] == Is(outs[h].record.(name := Listing(ops[i].to)))
    ensures Cased(ops[i].name, ops[j].name) && !Cased(ops[i].to, ops[j].name) ==> outs[j] == Missing
  {
    hide LowerAll, MapIn, Result, NeedsLfn, Findable, ListedAs;
    SameLowerExactly(ops[h].name, ops[i].name);
    SameLowerExactly(ops[i].name, ops[j].name);
    SameLowerExactly(ops[i].to, ops[j].name);
    Looked(states, limit, bpc, ops, outs, h);
    Undisturbed(states, limit, bpc, ops, outs, h, i, LowerAll(ops[h].name));
    LookedLater(states, limit, bpc, ops, outs, i, j);
    FitListed(ops[i].to, bpc);
  }

  /** A move that found no room for the new name and put the old one back leaves the old name with what
    * it had; one that could not put it back leaves neither.
    */
  lemma UnmovedIsFound(states: seq<DirState>, limit: nat, bpc: nat, ops: seq<DirOp>, outs: seq<Outcome>, h: nat, i: nat, j: nat)
    requires Story(states, limit, bpc, ops, outs) && h < i < j < |ops| && Meanwhile(ops, bpc, i, j) && Plain(ops[i], bpc)
    requires ops[h].Look? && outs[h].Is? && ops[i].Move? && Cased(ops[h].name, ops[i].name) && Cased(ops[i].name, ops[j].name)
    requires forall k :: h < k < i ==> Plain(ops[k], bpc) && !About(ops[k], LowerAll(ops[h].name))
    ensures outs[i].Full? ==> outs[j] == Is(outs[h].record.(name := Listing(ops[i].name)))
    ensures outs[i].Exists? ==> outs[j] == outs[h]
    ensures outs[i].Lost? ==> outs[j] == Missing
  {
    hide LowerAll, MapIn, Result, NeedsLfn, Findable, ListedAs;
    SameLowerExactly(ops[h].name, ops[i].name);
    SameLowerExactly(ops[i].name, ops[j].name);
    Looked(states, limit, bpc, ops, outs, h);
    Undisturbed(states, limit, bpc, ops, outs, h, i, LowerAll(ops[h].name));
    LookedLater(states, limit, bpc, ops, outs, i, j);
    FitListed(ops[i].name, bpc);
  }
}
