/** A rename that loses its entry: a full one-cluster directory on a full volume. */
module FatLost {
  import opened Arith
  import opened Bytes
  import opened ExfatNames
  import opened ExfatEntrySet
  import opened FatChains
  import opened FatNames
  import opened FatSlots
  import opened FatDirectory
  import opened FatDirOps
  import opened FatDirMap
  import V = ExfatDirVolume
  import FatTable

  const BPC: nat := 512
  const LIMIT: nat := 3

  /** File number `i`, named with a single letter: one slot, no long name. */
  function LetterEntry(i: nat): (e: Entry)
    requires i < 16
  {
    ShortEntry(Field([0x41 + i], 8) + Field([], 3), 0, 0, 0x20)
  }

  /** The sixteen slots of the directory. */
  function Letters(): (es: seq<Entry>)
    ensures |es| == 16 && forall i :: 0 <= i < 16 ==> es[i] == LetterEntry(i)
  {
    seq(16, i requires 0 <= i < 16 => LetterEntry(i))
  }

  function LetterCluster(): (b: seq<byte>)
    ensures |b| == BPC
  {
    seq(512, j requires 0 <= j < 512 => Letters()[j / 32][j % 32])
  }

  /** The volume: one data cluster, the directory's, and no free one. */
  function FullVolume(): DirState {
    DirState([FatTable.FAT32_EOC, FatTable.FAT32_EOC, FatTable.FAT32_EOC], [[], [], LetterCluster()], [2])
  }

  /** "a", which is how the path names the file "A", and a long new name. */
  const OLD_NAME: seq<byte> := [0x61]
  const NEW_NAME: seq<byte> := [0x61, 0x20, 0x62]

  lemma ClusterSlots()
    ensures V.EntriesOf(LetterCluster()) == Letters()
  {
    hide LetterEntry;
    var l, r := V.EntriesOf(LetterCluster()), Letters();
    forall i | 0 <= i < 16
      ensures l[i] == r[i]
    {
      assert |l[i]| == |r[i]| && forall j :: 0 <= j < 32 ==> l[i][j] == LetterCluster()[i * 32 + j];
    }
  }

  lemma LetterIsRegular(i: nat)
    requires i < 16
    ensures Regular(LetterEntry(i)) && ShortName(LetterEntry(i)) == [0x61 + i] && !FreeSlot(LetterEntry(i))
    ensures Stride(LetterEntry(i)) == 1 && !IsEnd(LetterEntry(i)) && !IsGone(LetterEntry(i)) && !IsVolume(LetterEntry(i)) && !IsLfn(LetterEntry(i))
  {
    hide Decode83;
    var base: seq<byte> := [0x41 + i];
    var n83 := Field(base, 8) + Field([], 3);
    assert n83[0] == 0x41 + i;
    FieldsShown([], base, []);
    assert LowerAll(base) == [0x61 + i];
    assert LetterEntry(i)[..11] == n83;
    NoNul([0x61 + i]);
  }

  /** Slots that are all single entries list every one of them. */
  lemma {:induction false} AllListed(i: nat)
    requires i <= 16
    ensures Tidy(Letters(), i, true)
    ensures List(Letters(), i) == seq(16 - i, j requires 0 <= j < 16 - i => Item([0x61 + i + j], LetterEntry(i + j), i + j))
    decreases 16 - i
  {
    hide ShortName, LetterEntry, IsLfn;
    if i < 16 {
      LetterIsRegular(i);
      AllListed(i + 1);
    }
  }

  function LetterItem(i: nat): Placed
    requires i < 16
  {
    Placed(Item([0x61 + i], LetterEntry(i), i), 2)
  }

  /** What the directory lists. */
  lemma LettersListed()
    ensures var s := FullVolume();
            && InData(s.data, s.cl) && DirTidy(s.data, s.cl)
            && DirList(s.data, s.cl) == seq(16, i requires 0 <= i < 16 => LetterItem(i))
  {
    hide LetterEntry, List, Tidy;
    var s := FullVolume();
    ClusterSlots();
    AllListed(0);
    assert s.cl[..0] == [] && DirList(s.data, []) == [];
    assert DirList(s.data, s.cl) == [] + ClusterList(s.data, 2);
    var l, r := ClusterList(s.data, 2), seq(16, i requires 0 <= i < 16 => LetterItem(i));
    assert |l| == |r| && forall i :: 0 <= i < 16 ==> l[i] == r[i];
  }

  lemma LettersApart()
    ensures var s := FullVolume();
            && InData(s.data, s.cl) && var l := DirList(s.data, s.cl);
               Unique(l) && FirstPlaced(l, OLD_NAME) == Some(LetterItem(0)) && LowerAll(NEW_NAME) !in MapOf(l)
  {
    hide LetterEntry, DirList, MapOf;
    LettersListed();
    var s := FullVolume();
    var l := DirList(s.data, s.cl);
    forall i | 0 <= i < 16
      ensures KeyOf(l[i]) == [0x61 + i]
    {
      assert l[i] == LetterItem(i);
    }
    assert LowerAll(OLD_NAME) == [0x61] && SameLower(OLD_NAME, l[0].item.name);
    MapLists(l);
    assert |LowerAll(NEW_NAME)| == 3;
    assert forall i :: 0 <= i < |l| ==> |KeyOf(l[i])| == 1;
  }

  /** Without "A" there is one free slot. */
  lemma OneSlotLeft()
    ensures var s := FullVolume(); NoRoomWithout(s.data, s.cl, 2, 0, 2)
  {
    hide LetterEntry, Regular;
    var s := FullVolume();
    ClusterSlots();
    var es := SlotsWithout(s.data, 2, 0, 2);
    assert OwnStart(Letters(), 0) == 0 && es == MarkedGone(Letters(), 0, 1);
    forall i: nat
      ensures !Window(es, i, 2)
    {
      if i + 2 <= 16 {
        LetterIsRegular(i + 1);
        assert es[i + 1] == LetterEntry(i + 1);
      }
    }
  }

  lemma NamesFit()
    ensures Storable(OLD_NAME) && Storable(NEW_NAME) && SlotsNeeded(OLD_NAME) == 2 && SlotsNeeded(NEW_NAME) == 2
  {
    assert Special(OLD_NAME[0]) && Special(NEW_NAME[0]);
    assert NeedsLfn(OLD_NAME) && NeedsLfn(NEW_NAME);
    assert LastDot(OLD_NAME) == 1 && LastDot(NEW_NAME) == 3;
    assert OLD_NAME[..1] == OLD_NAME && NEW_NAME[..3] == NEW_NAME;
    assert Lead(OLD_NAME) == 0x41 && Lead(NEW_NAME) == 0x41;
  }

  /** Renaming "a" to a name that needs a second slot loses the file: the directory and the volume are
    * well-formed, both names are in order, and the outcome is that the entry is gone.
    */
  lemma RenameLoses()
    ensures var s := FullVolume();
            && Chain(s.links, LIMIT, 2, s.cl) && InData(s.data, s.cl) && DirTidy(s.data, s.cl) && Unique(DirList(s.data, s.cl))
            && Allowed(Move(OLD_NAME, NEW_NAME)) && LowerAll(OLD_NAME) in MapIn(s)
            && Result(s, LIMIT, Move(OLD_NAME, NEW_NAME)) == Lost
            && LowerAll(OLD_NAME) !in Effect(MapIn(s), Move(OLD_NAME, NEW_NAME), Lost)
            && LowerAll(NEW_NAME) !in Effect(MapIn(s), Move(OLD_NAME, NEW_NAME), Lost)
  {
    hide DirList, MapOf, Storable, DirTidy, NoRoomWithout, SlotsNeeded, FirstPlaced, Unique, LetterEntry, LowerAll;
    var s := FullVolume();
    LettersListed();
    LettersApart();
    OneSlotLeft();
    NamesFit();
    FoundInMap(DirList(s.data, s.cl), OLD_NAME);
    assert NoneFree(s.links, LIMIT);
  }
}
