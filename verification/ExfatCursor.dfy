/** Reading a directory: the byte-stream cursor over its clusters and the search for the
  * next file set. Both end on every volume, whatever its link table holds; on a
  * well-formed directory they deliver exactly the listing.
  */
module ExfatCursor {
  import opened Arith
  import opened Bytes
  import opened ExfatVolume
  import opened ExfatContents
  import opened ExfatFile
  import opened ExfatEntrySet
  import opened ExfatNames
  import opened ExfatDirectory
  import opened ExfatDirVolume

  const ERR_CHAIN: int := -3

  /** The FAT entry of any 32-bit cluster number. Past the end of the FAT it reads
    * whatever sector lies there, or fails: anything may come back.
    */
  method FatNextAny(v: Volume, cluster: nat) returns (ok: bool, next: nat)
    requires v.Valid()
    modifies v`fatCache, v`fatCacheLba, v`fatCacheValid
    ensures v.Valid() && next < 0x1_0000_0000
    ensures cluster < v.g.count + 2 ==> ok && cluster < |v.fat| && next == v.fat[cluster]
  {
    if cluster < v.g.count + 2 {
      next := v.FatNext(cluster);
      ok := true;
    } else {
      ok := *;
      next :| 0 <= next < 0x1_0000_0000;
    }
  }

  /** A sector of any cluster number, with the same freedom outside the data clusters. */
  method ReadSectorAny(v: Volume, cluster: nat, s: nat) returns (ok: bool, sec: Sector)
    requires v.Valid() && s < v.g.spc
    ensures v.g.IsData(cluster) ==> ok && cluster < |v.heap| && s < |v.heap[cluster]| && sec == v.heap[cluster][s]
  {
    if v.g.IsData(cluster) {
      RowOf(v, cluster);
      sec := v.ReadSector(cluster, s);
      ok := true;
    } else {
      ok := *;
      sec := *;
    }
  }

  class DirCursor {
    const v: Volume
    var cluster: nat
    const contiguous: bool
    const sized: bool
    var bytesLeft: nat
    var secInClus: nat
    var entInSec: nat
    var entryIndex: nat
    var hops: nat
    var sec: Sector
    var secLoaded: bool

    constructor (v: Volume, cluster: nat, contiguous: bool, sized: bool, size: nat)
      ensures this.v == v && this.contiguous == contiguous && this.sized == sized
      ensures this.cluster == cluster && bytesLeft == size && !secLoaded
      ensures secInClus == entInSec == entryIndex == hops == 0
    {
      this.v, this.contiguous, this.sized := v, contiguous, sized;
      this.cluster, this.bytesLeft := cluster, size;
      this.secInClus, this.entInSec, this.entryIndex, this.hops := 0, 0, 0, 0;
      this.sec, this.secLoaded := ZERO_SECTOR, false;
    }

    /** Entries the cursor can still yield on any volume. */
    ghost function Left(): int
      reads this, v
    {
      (v.g.count + 1 - hops) * (v.g.spc * 16) - secInClus * 16 - entInSec
    }

    /** The cursor is inside a cluster and has not outlived the volume's cluster count. */
    ghost predicate Ok()
      reads this, v
    {
      && v.Valid()
      && secInClus < v.g.spc && entInSec <= 16 && hops <= v.g.count
    }

    /** The cursor stands at entry `entryIndex` of the directory with clusters `cl`, of which it is to
      * deliver the first `limit` entries: all of them, or as many as the recorded size has.
      */
    ghost predicate On(cl: seq<nat>, limit: nat)
      reads this, v
    {
      && Ok() && !contiguous && cl != [] && DirOk(v, cl[0], cl)
      && entryIndex <= limit <= |cl| * v.g.spc * 16
      && (if sized then bytesLeft + entryIndex * 32 == limit * 32 else limit == |cl| * v.g.spc * 16)
      && if cluster < 2 then entryIndex == |cl| * v.g.spc * 16
         else
           && hops < |cl| && cluster == cl[hops]
           && entryIndex == (hops * v.g.spc + secInClus) * 16 + entInSec
           && (secLoaded ==> sec == v.heap[cluster][secInClus])
    }
  
    /** The next 32-byte entry, or none at the end of the directory. On any volume every
      * entry delivered uses up one of the entries left, so the iteration ends.
      */
    method Next(ghost cl: seq<nat>, ghost limit: nat) returns (e: Option<Entry>, err: int)
      requires Ok()
      modifies this, v`fatCache, v`fatCacheLba, v`fatCacheValid
      ensures v.Valid() && (err == 0 ==> Ok()) && err <= 0
      ensures e.Some? ==> err == 0 && Left() < old(Left()) && entryIndex == old(entryIndex) + 1
      ensures e.None? ==> Left() <= old(Left()) && entryIndex == old(entryIndex)
      ensures old(On(cl, limit)) ==>
                && On(cl, limit) && err == 0 && DirEntries(v, cl[0], cl) == old(DirEntries(v, cl[0], cl))
                && old(entryIndex) <= limit <= |DirEntries(v, cl[0], cl)|
                && e == (if old(entryIndex) < limit
                         then Some(DirEntries(v, cl[0], cl)[old(entryIndex)]) else None)
    {
      hide Matches, Entries, DirChain;
      ghost var on := On(cl, limit);
      if on {
        DirBounds(cl, limit);
      }
      while true
        invariant Ok() && Left() <= old(Left()) && entryIndex == old(entryIndex)
        invariant on ==> On(cl, limit) && DirEntries(v, cl[0], cl) == old(DirEntries(v, cl[0], cl))
        decreases if entInSec < 16 then 0 else 1
      {
        if cluster < 2 || (sized && bytesLeft == 0) {
          return None, 0;
        }
        if !secLoaded {
          var ok := Load(cl, limit);
          if !ok {
            return None, ERR_IO;
          }
        }
        if entInSec < 16 {
          var ent := Yield(cl, limit);
          return Some(ent), 0;
        }
        var err2 := Advance(cl, limit);
        if err2 < 0 {
          return None, err2;
        }
      }
    }

    /** Read the current sector. */
    method Load(ghost cl: seq<nat>, ghost limit: nat) returns (ok: bool)
      requires Ok() && cluster >= 2 && !secLoaded
      modifies this`sec, this`secLoaded
      ensures Ok() && (ok ==> secLoaded)
      ensures old(On(cl, limit)) ==> On(cl, limit) && ok && DirEntries(v, cl[0], cl) == old(DirEntries(v, cl[0], cl))
    {
      hide Matches, Entries, DirChain;
      if On(cl, limit) {
        DirBounds(cl, limit);
      }
      var s;
      ok, s := ReadSectorAny(v, cluster, secInClus);
      if ok {
        sec := s;
        secLoaded := true;
      }
    }

    /** Deliver the current entry of the loaded sector. */
    method Yield(ghost cl: seq<nat>, ghost limit: nat) returns (ent: Entry)
      requires Ok() && cluster >= 2 && secLoaded && entInSec < 16 && !(sized && bytesLeft == 0)
      modifies this`entInSec, this`entryIndex, this`bytesLeft
      ensures Ok() && Left() == old(Left()) - 1 && entryIndex == old(entryIndex) + 1
      ensures old(On(cl, limit)) ==>
                && On(cl, limit) && DirEntries(v, cl[0], cl) == old(DirEntries(v, cl[0], cl))
                && old(entryIndex) < limit <= |DirEntries(v, cl[0], cl)| && ent == DirEntries(v, cl[0], cl)[old(entryIndex)]
    {
      hide Matches, Entries, DirChain;
      if On(cl, limit) {
        DirBounds(cl, limit);
        EntryShown(v, cl, hops, secInClus, entInSec);
      }
      ent := sec[entInSec * 32..entInSec * 32 + 32];
      entInSec := entInSec + 1;
      entryIndex := entryIndex + 1;
      if sized {
        bytesLeft := if bytesLeft >= 32 then bytesLeft - 32 else 0;
      }
    }

    /** Leave an exhausted sector, crossing into the next cluster of the chain if needed. A
      * chain longer than the volume has clusters is an error.
      */
    method Advance(ghost cl: seq<nat>, ghost limit: nat) returns (err: int)
      requires Ok() && entInSec == 16 && cluster >= 2
      modifies this, v`fatCache, v`fatCacheLba, v`fatCacheValid
      ensures v.Valid() && err <= 0 && (err == 0 ==> Ok() && entInSec == 0)
      ensures Left() <= old(Left()) && entryIndex == old(entryIndex)
      ensures old(On(cl, limit)) ==> On(cl, limit) && err == 0 && DirEntries(v, cl[0], cl) == old(DirEntries(v, cl[0], cl))
    {
      hide Matches, Entries, DirChain;
      LeftAfterCross(v.g.count, hops, v.g.spc);
      if On(cl, limit) {
        DirBounds(cl, limit);
        LinksOfDir(v, cl[0], cl);
        LastEnds(v, cl[0], cl);
      }
      entInSec := 0;
      secLoaded := false;
      secInClus := secInClus + 1;
      if secInClus >= v.g.spc {
        secInClus := 0;
        hops := hops + 1;
        if hops > v.g.count {
          return ERR_CHAIN;
        }
        if contiguous {
          cluster := cluster + 1;
        } else {
          var ok, nx := FatNextAny(v, cluster);
          if !ok {
            return ERR_IO;
          }
          cluster := if Ends(nx) then 0 else nx;
        }
      }
      err := 0;
    }

    lemma DirBounds(cl: seq<nat>, limit: nat)
      requires On(cl, limit)
      ensures |cl| <= v.g.count && |DirEntries(v, cl[0], cl)| == |cl| * v.g.spc * 16
      ensures entryIndex <= limit <= |cl| * v.g.spc * 16
      ensures cluster >= 2 ==> v.g.IsData(cluster)
    {
      hide Matches;
      ChainFits(v.g, cl);
      if cluster >= 2 {
        assert cl[hops] in cl;
        PositionBound(hops, |cl|, v.g.spc, secInClus, entInSec);
      }
    }
  }

  lemma PositionBound(k: nat, n: nat, spc: nat, s: nat, e: nat)
    requires k < n && s < spc && e <= 16
    ensures (k * spc + s) * 16 + e <= n * spc * 16
  {
    MulStep(k, n, spc);
  }

  lemma LastEnds(v: Volume, first: nat, cl: seq<nat>)
    requires DirOk(v, first, cl)
    ensures cl[|cl| - 1] < |v.fat| && Ends(v.fat[cl[|cl| - 1]])
  {
  }

  lemma EntryShown(v: Volume, cl: seq<nat>, k: nat, s: nat, e: nat)
    requires cl != [] && DirOk(v, cl[0], cl) && k < |cl| && s < v.g.spc && e < 16
    ensures (k * v.g.spc + s) * 16 + e < |DirEntries(v, cl[0], cl)|
    ensures cl[k] < |v.heap| && s < |v.heap[cl[k]]|
    ensures DirEntries(v, cl[0], cl)[(k * v.g.spc + s) * 16 + e] == v.heap[cl[k]][s][e * 32..e * 32 + 32]
  {
    EntryInSector(v.heap, cl, v.g.spc, k, s, e);
  }

  /** Crossing into the next cluster uses up exactly the entries of this one. */
  lemma LeftAfterCross(count: nat, hops: nat, spc: nat)
    requires hops <= count + 1
    ensures (count + 1 - (hops + 1)) * (spc * 16) == (count + 1 - hops) * (spc * 16) - spc * 16
    ensures (hops + 1) * spc == hops * spc + spc
  {
  }

  // ---- the next file set ----

  lemma LeftNat(count: nat, hops: nat, spc: nat, s: nat, e: nat)
    requires hops <= count && s < spc && e <= 16
    ensures (count + 1 - hops) * (spc * 16) - s * 16 - e >= 0
  {
    MulMonotone(1, count + 1 - hops, spc * 16);
  }

  /** The cursor is on the directory `cl` with the entries `all`, to deliver `limit` of them. */
  ghost predicate Standing(c: DirCursor, cl: seq<nat>, limit: nat, all: seq<Entry>)
    reads c, c.v
  {
    c.On(cl, limit) && DirEntries(c.v, cl[0], cl) == all && limit <= |all| && c.entryIndex <= limit
  }

  /** The next entry, of a directory that shows `es`. */
  method NextShown(c: DirCursor, ghost cl: seq<nat>, ghost limit: nat, ghost all: seq<Entry>, ghost es: seq<Entry>, ghost on: bool)
    returns (e: Option<Entry>, err: int)
    requires c.Ok() && (on ==> Standing(c, cl, limit, all) && es == all[..limit])
    modifies c, c.v`fatCache, c.v`fatCacheLba, c.v`fatCacheValid
    ensures c.v.Valid() && (err == 0 ==> c.Ok()) && err <= 0
    ensures e.Some? ==> err == 0 && c.Left() < old(c.Left()) && c.entryIndex == old(c.entryIndex) + 1
    ensures e.None? ==> c.Left() <= old(c.Left()) && c.entryIndex == old(c.entryIndex)
    ensures on ==> Standing(c, cl, limit, all) && err == 0 && e == if old(c.entryIndex) < |es| then Some(es[old(c.entryIndex)]) else None
    ensures on ==> old(c.entryIndex) <= |es|
    ensures c.entryIndex + c.Left() <= old(c.entryIndex + c.Left())
  {
    hide Matches, Entries, DirChain;
    e, err := c.Next(cl, limit);
    if on {
      c.DirBounds(cl, limit);
    }
  }

  lemma StandsOn(c: DirCursor, cl: seq<nat>, limit: nat)
    requires c.On(cl, limit) && limit <= |DirEntries(c.v, cl[0], cl)|
    ensures Standing(c, cl, limit, DirEntries(c.v, cl[0], cl))
  {
  }

  lemma StandsStill(c: DirCursor, cl: seq<nat>, limit: nat, all: seq<Entry>)
    requires Standing(c, cl, limit, all)
    ensures c.On(cl, limit) && DirEntries(c.v, cl[0], cl) == all
  {
  }

  /** Pull the next file entry set from a cursor: 1 with a set, 0 at the end of the
    * directory, negative on an error. On any volume it ends, having used up entries.
    */
  method NextFile(c: DirCursor, ghost cl: seq<nat>, ghost limit: nat) returns (r: int, out: Option<Listed>)
    requires c.Ok()
    modifies c, c.v`fatCache, c.v`fatCacheLba, c.v`fatCacheValid
    ensures c.v.Valid() && (r >= 0 ==> c.Ok()) && (r == 1 || r == 0 || r == ERR_IO)
    ensures r == 1 ==> out.Some? && c.Left() < old(c.Left())
    ensures c.entryIndex + c.Left() <= old(c.entryIndex + c.Left())
    ensures old(c.On(cl, limit)) && limit <= |old(DirEntries(c.v, cl[0], cl))| && old(Tidy(DirEntries(c.v, cl[0], cl)[..limit], c.entryIndex)) ==>
              && c.On(cl, limit) && DirEntries(c.v, cl[0], cl) == old(DirEntries(c.v, cl[0], cl)) && r >= 0
              && Delivered(DirEntries(c.v, cl[0], cl)[..limit], old(c.entryIndex), r, out, c.entryIndex)
  {
    hide Matches, Entries, DirChain, NextSet, Tidy, Parse, Standing;
    ghost var on := c.On(cl, limit) && limit <= |DirEntries(c.v, cl[0], cl)| && Tidy(DirEntries(c.v, cl[0], cl)[..limit], c.entryIndex);
    ghost var all := if on then DirEntries(c.v, cl[0], cl) else [];
    ghost var es := if on then all[..limit] else [];
    if on {
      StandsOn(c, cl, limit);
    }
    r, out := Search(c, cl, limit, all, es, on);
    if on {
      StandsStill(c, cl, limit, all);
    }
  }

  /** The search, entry by entry and set by set. */
  method Search(c: DirCursor, ghost cl: seq<nat>, ghost limit: nat, ghost all: seq<Entry>, ghost es: seq<Entry>, ghost on: bool)
    returns (r: int, out: Option<Listed>)
    requires c.Ok() && (on ==> Standing(c, cl, limit, all) && es == all[..limit] && Tidy(es, c.entryIndex))
    modifies c, c.v`fatCache, c.v`fatCacheLba, c.v`fatCacheValid
    ensures c.v.Valid() && (r >= 0 ==> c.Ok()) && (r == 1 || r == 0 || r == ERR_IO)
    ensures r == 1 ==> out.Some? && c.Left() < old(c.Left())
    ensures c.entryIndex + c.Left() <= old(c.entryIndex + c.Left())
    ensures on ==> Standing(c, cl, limit, all) && r >= 0 && Delivered(es, old(c.entryIndex), r, out, c.entryIndex)
  {
    hide Matches, Entries, DirChain, NextSet, Tidy, Parse, Standing;
    ghost var start := c.entryIndex;
    while true
      invariant c.Ok() && c.Left() <= old(c.Left()) && c.entryIndex + c.Left() <= old(c.entryIndex + c.Left())
      invariant on ==> Standing(c, cl, limit, all)
      invariant on ==> Tidy(es, c.entryIndex) && NextSet(es, c.entryIndex) == NextSet(es, start)
      decreases c.Left()
    {
      LeftNat(c.v.g.count, c.hops, c.v.g.spc, c.secInClus, c.entInSec);
      ghost var at := c.entryIndex;
      var e, err := NextShown(c, cl, limit, all, es, on);
      if err != 0 {
        return ERR_IO, None;
      }
      if on {
        NextSetStep(es, at);
      }
      if e.None? || e.value[0] == TYPE_EOD {
        return 0, None;
      }
      if !IsSetStart(e.value) {
        continue;
      }
      var scount := e.value[1];
      var fileIdx := c.entryIndex - 1;
      var ok, fileSet := ReadSecondaries(c, e.value, scount, cl, limit, all, es, on);
      if !ok {
        return ERR_IO, None;
      }
      var info := ParseSet(fileSet);
      if info.Some? {
        return 1, Some(Listed(info.value, fileIdx, 1 + scount));
      }
    }
  }

  /** What the search from entry `start` must deliver. */
  ghost predicate Delivered(es: seq<Entry>, start: nat, r: int, out: Option<Listed>, index: nat) {
    && out == NextSet(es, start) && (r == 1 <==> out.Some?)
    && (out.Some? ==> index == out.value.at + out.value.count && Tidy(es, index))
  }

  /** One step of the search over a tidy directory. */
  lemma NextSetStep(es: seq<Entry>, i: nat)
    requires Tidy(es, i) && i <= |es|
    ensures i == |es| || es[i][0] == TYPE_EOD ==> NextSet(es, i) == None
    ensures i < |es| && es[i][0] != TYPE_EOD && !IsSetStart(es[i]) ==>
              NextSet(es, i) == NextSet(es, i + 1) && Tidy(es, i + 1)
    ensures i < |es| && IsSetStart(es[i]) ==>
              var n := 1 + es[i][1] as nat;
              && i + n <= |es| && Parse(es[i..i + n]).Some? && Tidy(es, i + n)
              && NextSet(es, i) == Some(Listed(Parse(es[i..i + n]).value, i, n))
  {
    hide Parse;
    if i < |es| && es[i][0] == TYPE_FILE {
      var n := 1 + es[i][1] as nat;
      assert es[i..i + n][0] == es[i];
    }
  }

  method Padded(s: seq<Entry>, n: nat) returns (r: seq<Entry>)
    requires |s| <= n
    ensures |r| == n && s <= r
  {
    r := s;
    while |r| < n
      invariant |r| <= n && s <= r
    {
      var junk: Entry := *;
      r := r + [junk];
    }
  }

  /** The secondary entries of a set. If the directory ends first, the rest of the buffer
    * is uninitialised and holds anything.
    */
  method ReadSecondaries(c: DirCursor, file: Entry, scount: nat, ghost cl: seq<nat>, ghost limit: nat, ghost all: seq<Entry>,
                         ghost es: seq<Entry>, ghost on: bool)
    returns (ok: bool, fileSet: seq<Entry>)
    requires c.Ok() && 2 <= scount <= MAX_SECONDARY && c.entryIndex >= 1
    requires on ==> Standing(c, cl, limit, all) && es == all[..limit] && c.entryIndex + scount <= |es| && es[c.entryIndex - 1] == file
    modifies c, c.v`fatCache, c.v`fatCacheLba, c.v`fatCacheValid
    ensures c.v.Valid() && (ok ==> c.Ok() && |fileSet| == 1 + scount)
    ensures c.Left() <= old(c.Left()) && c.entryIndex + c.Left() <= old(c.entryIndex + c.Left())
    ensures on ==> ok && Standing(c, cl, limit, all)
    ensures on ==> c.entryIndex == old(c.entryIndex) + scount <= |es| && fileSet == es[old(c.entryIndex) - 1..c.entryIndex]
  {
    hide Matches, Entries, DirChain, Tidy, NextSet, Standing;
    fileSet := [file];
    ghost var start := c.entryIndex;
    while |fileSet| < 1 + scount
      invariant c.Ok() && 1 <= |fileSet| <= 1 + scount
      invariant c.Left() <= old(c.Left()) && c.entryIndex + c.Left() <= old(c.entryIndex + c.Left())
      invariant on ==> Standing(c, cl, limit, all)
      invariant on ==> c.entryIndex == start + |fileSet| - 1 <= |es| && fileSet == es[start - 1..c.entryIndex]
      decreases 1 + scount - |fileSet|
    {
      var se, err := NextShown(c, cl, limit, all, es, on);
      if err != 0 {
        return false, fileSet;
      }
      if se.None? {
        fileSet := Padded(fileSet, 1 + scount);
        break;
      }
      fileSet := fileSet + [se.value];
    }
    ok := true;
  }

  // ---- looking a name up ----

  /** The cursor just created stands at entry 0. */
  lemma CursorStart(c: DirCursor, cl: seq<nat>, limit: nat)
    requires c.v.Valid() && c.entryIndex == c.hops == c.secInClus == c.entInSec == 0 && !c.secLoaded && !c.contiguous
    requires cl != [] && c.cluster == cl[0] && DirOk(c.v, cl[0], cl)
    requires limit <= |cl| * c.v.g.spc * 16 && if c.sized then c.bytesLeft == limit * 32 else limit == |cl| * c.v.g.spc * 16
    ensures c.Ok() && c.On(cl, limit)
  {
    assert cl[0] in cl;
  }

  /** The entries a search sees in a directory that is a chain: all of an unsized one, of a sized
    * one as many as its size has.
    */
  ghost predicate Sees(v: Volume, dirCluster: nat, cl: seq<nat>, contiguous: bool, sized: bool, size: nat, limit: nat)
    reads v
  {
    && !contiguous && DirOk(v, dirCluster, cl) && limit <= |DirEntries(v, dirCluster, cl)|
    && (if sized then size == limit * 32 else limit == |DirEntries(v, dirCluster, cl)|)
    && Tidy(DirEntries(v, dirCluster, cl)[..limit], 0)
  }

  /** Search directory `dirCluster` for `comp`: 1 with the first set of that name, 0 if
    * there is none among the entries seen. On any volume the search ends, whether it follows links
    * or takes each next cluster to be the neighbour.
    */
  method FindIn(v: Volume, dirCluster: nat, contiguous: bool, sized: bool, size: nat, comp: seq<byte>,
                ghost cl: seq<nat>, ghost limit: nat)
    returns (r: int, out: Option<Listed>)
    requires v.Valid()
    modifies v`fatCache, v`fatCacheLba, v`fatCacheValid
    ensures v.Valid() && (r == 1 ==> out.Some?)
    ensures Sees(v, dirCluster, cl, contiguous, sized, size, limit) ==>
              && out == FirstNamed(List(DirEntries(v, dirCluster, cl)[..limit], 0), comp)
              && r == if out.Some? then 1 else 0
  {
    hide Matches, Entries, DirChain, Tidy, NextSet, SameName;
    var c := new DirCursor(v, dirCluster, contiguous, sized, size);
    ghost var on := Sees(v, dirCluster, cl, contiguous, sized, size, limit);
    assert v.g.spc >= 1 by { MatchesValid(v.g, v.disk, v.fat, v.used, v.heap); }
    if on {
      DirHead(v, dirCluster, cl);
      DirLength(v, dirCluster, cl);
      CursorStart(c, cl, limit);
    }
    ghost var es := if on then DirEntries(v, dirCluster, cl)[..limit] else [];
    while true
      invariant c.Ok() && c.v == v
      invariant v.fat == old(v.fat) && v.heap == old(v.heap) && v.used == old(v.used)
      invariant on ==> dirCluster == cl[0] && c.On(cl, limit) && limit <= |DirEntries(v, cl[0], cl)| && DirEntries(v, cl[0], cl)[..limit] == es
      invariant on ==> Tidy(es, c.entryIndex) && FirstNamed(List(es, 0), comp) == FirstNamed(List(es, c.entryIndex), comp)
      decreases c.Left()
    {
      LeftNat(c.v.g.count, c.hops, c.v.g.spc, c.secInClus, c.entInSec);
      ghost var at := c.entryIndex;
      r, out := NextFile(c, cl, limit);
      if r <= 0 {
        return;
      }
      var eq := NameEqCi(comp, out.value.info.name);
      if eq {
        return;
      }
    }
  }

  /** A search of a directory whose size is that of its chain sees all of it. */
  lemma SeesAll(v: Volume, dirCluster: nat, cl: seq<nat>, sized: bool, size: nat)
    requires DirOk(v, dirCluster, cl) && Tidy(DirEntries(v, dirCluster, cl), 0) && (sized ==> size == |cl| * v.g.spc * 512)
    ensures Sees(v, dirCluster, cl, false, sized, size, |DirEntries(v, dirCluster, cl)|)
    ensures DirEntries(v, dirCluster, cl)[..|DirEntries(v, dirCluster, cl)|] == DirEntries(v, dirCluster, cl)
  {
    hide Tidy, Entries;
    DirLength(v, dirCluster, cl);
    assert DirEntries(v, dirCluster, cl)[..|DirEntries(v, dirCluster, cl)|] == DirEntries(v, dirCluster, cl);
  }

  lemma DirHead(v: Volume, first: nat, cl: seq<nat>)
    requires DirOk(v, first, cl)
    ensures cl != [] && cl[0] == first && DirOk(v, cl[0], cl)
  {
  }
}
