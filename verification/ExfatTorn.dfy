/** What becomes of a directory that was grown in vain: an entry put into the part its recorded
  * length does not cover is written and listed, but no search by name reaches it.
  */
module ExfatTorn {
  import opened Arith
  import opened Bytes
  import opened ExfatScan
  import opened ExfatVolume
  import opened ExfatContents
  import opened ExfatFile
  import opened ExfatNames
  import opened ExfatEntrySet
  import opened ExfatDirectory
  import opened ExfatDirVolume
  import opened ExfatCursor
  import opened ExfatTree
  import opened ExfatSteps
  import opened ExfatNamespace
  import opened ExfatCreate

  /** Room that holds no entry in use is after those that are. */
  lemma RoomIsBeyond(es: seq<Entry>, slot: nat, count: nat, limit: nat)
    requires RoomAt(es, slot, count) && count >= 1 && limit <= |es| && forall i :: 0 <= i < limit ==> !Free(es[i])
    ensures slot >= limit
  {
    assert Free(es[slot]);
  }

  /** The entries in use up to the recorded length are the same after the directory grew again. */
  lemma PrefixFull(es: seq<Entry>, es': seq<Entry>, limit: nat)
    requires es <= es' && limit <= |es| && forall i :: 0 <= i < limit ==> !Free(es[i])
    ensures es'[..limit] == es[..limit] && forall i :: 0 <= i < limit ==> !Free(es'[i])
  {
    assert forall i :: 0 <= i < limit ==> es'[i] == es[i];
  }

  /** An entry in use that is not a file: a volume GUID (section 7.5). */
  const GUID_ENTRY: Entry := [0xA0] + seq(31, _ => 0)

  /** A directory of `n` such entries. */
  function FullOf(n: nat): (es: seq<Entry>)
    ensures |es| == n
  {
    seq(n, _ => GUID_ENTRY)
  }

  lemma {:induction false} FullIsTidy(n: nat, i: nat)
    requires i <= n
    ensures Tidy(FullOf(n), i) && List(FullOf(n), i) == []
    decreases n - i
  {
    if i < n {
      FullIsTidy(n, i + 1);
      TidyStep(FullOf(n), i);
      ListStep(FullOf(n), i);
    } else {
      TidyEnd(FullOf(n), i);
    }
  }

  /** One full cluster of 512 bytes is a tidy directory in which, with one free cluster left, a name of 255
    * units finds no room; the cluster linked in vain leaves one where the recorded length covers entries
    * in use alone.
    */
  lemma FullCluster()
    ensures Tidy(FullOf(16), 0) && List(FullOf(16), 0) == [] && forall i :: 0 <= i < 16 ==> !Free(FullOf(16)[i])
    ensures Cramped(FullOf(16), 2 + NameEntries(255), 16, 1)
  {
    FullIsTidy(16, 0);
    LongNameCramped(FullOf(16));
  }

  /** The steps a creation takes in directory `p`, whose recorded length covers `limit` entries, all
    * in use, and then a search for the new name as far as that length goes. The creation finds room
    * in the clusters beyond it and reports success; the directory's clusters list the new entry; the
    * search ends without it.
    */
  method CreatedButHidden(v: Volume, p: nat, base: seq<byte>, name: seq<nat>, ghost limit: nat, size: nat,
                          ghost t: Tree, ghost fixed: set<nat>, ghost leaked: set<nat>)
    returns (ok: bool, r: int, ghost t': Tree)
    requires Stored(v, t, fixed, leaked) && p in t.dirs && p in t.chains && p in t.lists
    requires WellFormed(base) && 0 < |base| <= NAME_MAX && name == Units(base) && 0 < |name| <= NAME_MAX
    requires Sees(v, p, t.chains[p], false, true, size, limit) && FirstNamed(List(DirEntries(v, p, t.chains[p])[..limit], 0), base) == None
    requires forall i :: 0 <= i < limit ==> !Free(DirEntries(v, p, t.chains[p])[i])
    modifies v`disk, v`fat, v`heap, v`used, v`nextFree, v`fatCache, v`fatCacheLba, v`fatCacheValid
    ensures !ok <==> CrampedDir(old(v.heap), t.chains[p], v.g.spc, SetLength(base), old(v.Supply()))
    ensures ok ==> Stored(v, t', fixed, leaked) && p in t'.lists && r == 0
    ensures ok ==> exists slot :: Joined(t.lists[p], t'.lists[p], Listed(Info(base, 0, 0, 0, false, false), slot, SetLength(base)))
  {
    hide Matches, Held, Accounted, Tidy, List, Entries, CrampedDir, Deliverable, Joined, Units, WellFormed, RoomAt, Free;
    ghost var es0, cl0 := DirEntries(v, p, t.chains[p]), t.chains[p];
    ghost var cl;
    var slot, added;
    r, t' := 0, t;
    ok, slot, added, cl := MakeRoom(v, p, 2 + NameEntries(|name|), t, fixed, leaked);
    if !ok {
      return;
    }
    ghost var t1 := Grown(t, p, cl);
    ghost var es1 := DirEntries(v, p, cl);
    assert es0 <= es1;
    PrefixFull(es0, es1, limit);
    RoomIsBeyond(es1, slot, 2 + NameEntries(|name|), limit);
    ghost var l := WriteEntrySet(v, p, slot, name, false, 0, 0, base, t1, fixed, leaked);
    t' := Relisted(t1, p, l);
    ghost var es2 := DirEntries(v, p, cl);
    assert es2[..limit] == es2[..slot][..limit] == es1[..slot][..limit] == es1[..limit];
    var out;
    r, out := FindIn(v, p, false, true, size, base, cl, limit);
  }
}
