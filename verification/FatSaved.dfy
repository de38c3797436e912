/** Saving a FAT32 file and reading it again: what a reader who opens the name after a save sees. */
module FatSaved {
  import opened Arith
  import opened Bytes
  import opened FatTable
  import opened FatClusters
  import opened FatChains
  import opened FatFiles
  import opened FatWrite
  import opened FatNames
  import opened FatSlots
  import opened FatDirectory
  import opened FatDirOps
  import opened FatDirMap
  import opened FatClose
  import ExfatNames

  // ---- what was written, byte by byte ----

  /** What a write took lands right behind what the writes before it took. */
  lemma {:induction false} TakenInOrder(payloads: seq<seq<byte>>, outs: seq<WriteResult>, i: nat)
    requires Reports(payloads, outs) && i < |outs|
    ensures var s, at := StreamOf(payloads, outs), |StreamOf(payloads, outs[..i])|;
            && Took(outs[i]) <= |payloads[i]| && at + Took(outs[i]) <= |s|
            && s[at..at + Took(outs[i])] == payloads[i][..Took(outs[i])]
            && |StreamOf(payloads, outs[..i + 1])| == at + Took(outs[i])
  {
    var n := |outs| - 1;
    if i < n {
      TakenInOrder(payloads, outs[..n], i);
      assert outs[..n][..i] == outs[..i] && outs[..n][..i + 1] == outs[..i + 1];
    } else {
      assert outs[..i + 1] == outs;
    }
  }

  /** Writes that all succeed within a message leave the payloads one behind the other. */
  lemma WholePayloads(payloads: seq<seq<byte>>, outs: seq<WriteResult>)
    requires Reports(payloads, outs) && |outs| == |payloads|
    requires forall i :: 0 <= i < |outs| ==> outs[i].Written? && 0 < |payloads[i]| <= 65536
    ensures ContentOf(payloads, outs) == Concat(payloads)
  {
    AllTaken(payloads, outs);
    assert payloads[..|outs|] == payloads;
    var s := StreamOf(payloads, outs);
    assert s[..|s|] == s;
  }

  lemma {:induction false} AllTaken(payloads: seq<seq<byte>>, outs: seq<WriteResult>)
    requires Reports(payloads, outs)
    requires forall i :: 0 <= i < |outs| ==> outs[i].Written? && 0 < |payloads[i]| <= 65536
    ensures StreamOf(payloads, outs) == Concat(payloads[..|outs|]) && SizeOf(payloads, outs) == |StreamOf(payloads, outs)|
  {
    var n := |outs| - 1;
    if outs != [] {
      AllTaken(payloads, outs[..n]);
      assert payloads[..n + 1][..n] == payloads[..n];
    }
  }

  /** Sequences one behind the other. */
  function Concat(parts: seq<seq<byte>>): seq<byte> {
    if parts == [] then [] else Concat(parts[..|parts| - 1]) + parts[|parts| - 1]
  }

  // ---- reading what is there ----

  /** Clusters with the same content are the same bytes. */
  lemma {:induction false} FlatUntouched(data: seq<seq<byte>>, data': seq<seq<byte>>, bpc: nat, cl: seq<nat>)
    requires OnDisk(data, bpc, cl) && |data'| == |data| && forall i :: 0 <= i < |cl| ==> data'[cl[i]] == data[cl[i]]
    ensures OnDisk(data', bpc, cl) && FlatOf(data', bpc, cl) == FlatOf(data, bpc, cl)
  {
    if cl != [] {
      FlatUntouched(data, data', bpc, cl[..|cl| - 1]);
    }
  }

  /** A record names a chain that covers its size. */
  ghost predicate Backed(links: seq<nat>, limit: nat, data: seq<seq<byte>>, bpc: nat, r: Record, cl: seq<nat>) {
    Chain(links, limit, r.first, cl) && OnDisk(data, bpc, cl) && r.size <= |cl| * bpc && r.size < 0x1_0000_0000
  }

  /** The bytes it stands for. */
  ghost function BytesOf(data: seq<seq<byte>>, bpc: nat, r: Record, cl: seq<nat>): (b: seq<byte>)
    requires OnDisk(data, bpc, cl) && r.size <= |cl| * bpc
    ensures |b| == r.size
  {
    FlatLength(data, bpc, cl);
    FlatOf(data, bpc, cl)[..r.size]
  }

  /** Open a name for reading. */
  method OpenToRead(v: Fat32, dir: nat, name: seq<byte>, ghost dirCl: seq<nat>, ghost m: map<seq<byte>, Record>, ghost cl: seq<nat>) returns (f: Fd)
    requires MapDir(v, dir, dirCl, m) && LowerAll(name) in m && v.Valid() && 1 <= v.store.bpc <= 0x1_0000
    requires Backed(v.Links(), v.total + 2, v.store.data, v.store.bpc, m[LowerAll(name)], cl)
    modifies v.fat, v.store
    ensures fresh(f) && ReadOk(v, f, cl) && !f.writable && f.offset == 0 && MapDir(v, dir, dirCl, m)
    ensures v.Links() == old(v.Links()) && v.store.data == old(v.store.data)
    ensures FileBytes(v, f, cl) == BytesOf(v.store.data, v.store.bpc, m[LowerAll(name)], cl)
  {
    hide LinksOf, Chain, FlatOf, MapDir, LowerAll, DirList, KeyOf;
    var found := Lookup(v, dir, name, dirCl, m);
    var entry := found.value;
    f := new Fd(FirstCluster(entry.item.entry), FileSize(entry.item.entry), false);
    FreshCursor(v, f, cl);
  }

  lemma FreshCursor(v: Fat32, f: Fd, cl: seq<nat>)
    requires v.Valid() && Chain(v.Links(), v.total + 2, f.first, cl) && f.cur == f.first && f.curIdx == 0 && f.wpCluster == f.wpIdx == []
    ensures CursorOk(f, cl)
  {
  }

  /** Read and seek on a name, opened for it. */
  method ReadName(v: Fat32, dir: nat, name: seq<byte>, ops: seq<FdOp>, ghost dirCl: seq<nat>, ghost m: map<seq<byte>, Record>, ghost cl: seq<nat>)
    returns (outs: seq<seq<byte>>)
    requires MapDir(v, dir, dirCl, m) && LowerAll(name) in m && v.Valid() && 1 <= v.store.bpc <= 0x1_0000
    requires Backed(v.Links(), v.total + 2, v.store.data, v.store.bpc, m[LowerAll(name)], cl)
    modifies v.fat, v.store
    ensures OnDisk(old(v.store.data), v.store.bpc, cl)
    ensures Ran(BytesOf(old(v.store.data), v.store.bpc, m[LowerAll(name)], cl), 0, ops, v.store.bpc, outs)
  {
    hide LinksOf, Chain, FlatOf, MapDir, LowerAll, Ran, ReadOk, FileBytes;
    var f := OpenToRead(v, dir, name, dirCl, m, cl);
    outs := RunFd(v, f, ops, cl);
  }

  // ---- a save and what is read after it ----

  /** The stream of a save stays below 4 GiB. */
  lemma {:induction false} StreamBound(payloads: seq<seq<byte>>, outs: seq<WriteResult>, bpc: nat, free: nat)
    requires Reports(payloads, outs) && 1 <= bpc <= 0x1_0000 && RoomDecides(payloads, outs, bpc, free)
    ensures |StreamOf(payloads, outs)| + bpc <= 0x1_0000_0000
  {
    hide CeilDiv;
    if outs != [] {
      var n := |outs| - 1;
      assert RoomDecided(payloads, outs, n, bpc, free);
      forall i | 0 <= i < n
        ensures RoomDecided(payloads, outs[..n], i, bpc, free)
      {
        assert RoomDecided(payloads, outs, i, bpc, free) && outs[..n][..i] == outs[..i];
      }
      StreamBound(payloads, outs[..n], bpc, free);
    }
  }

  lemma SavedBacked(v: Fat32, links0: seq<nat>, data0: seq<seq<byte>>, dir: nat, dirCl: seq<nat>, m: map<seq<byte>, Record>,
                    key: seq<byte>, oldCl: seq<nat>, first: nat, cl: seq<nat>, held: seq<byte>)
    requires SaveOutcome(v, links0, data0, dir, dirCl, m, key, oldCl, true, first, cl, held) && |held| < 0x1_0000_0000
    ensures v.Valid()
    ensures var r := m[key].(size := |held|, first := first);
            && Backed(v.Links(), v.total + 2, v.store.data, v.store.bpc, r, cl) && BytesOf(v.store.data, v.store.bpc, r, cl) == held
            && MapDir(v, dir, dirCl, m[key := r])
  {
    hide LinksOf, Chain, FlatOf, MapDir;
  }

  lemma OldBacked(v: Fat32, links0: seq<nat>, data0: seq<seq<byte>>, dir: nat, dirCl: seq<nat>, m: map<seq<byte>, Record>,
                  key: seq<byte>, oldCl: seq<nat>, first: nat, cl: seq<nat>, held: seq<byte>)
    requires SaveOutcome(v, links0, data0, dir, dirCl, m, key, oldCl, false, first, cl, held)
    requires Backed(links0, v.total + 2, data0, v.store.bpc, m[key], oldCl)
    ensures v.Valid() && Backed(v.Links(), v.total + 2, v.store.data, v.store.bpc, m[key], oldCl) && MapDir(v, dir, dirCl, m)
    ensures BytesOf(v.store.data, v.store.bpc, m[key], oldCl) == BytesOf(data0, v.store.bpc, m[key], oldCl)
  {
    hide LinksOf, Chain, FlatOf, MapDir, Saved;
    assert forall i :: 0 <= i < |oldCl| ==> oldCl[i] in oldCl;
    FlatUntouched(data0, v.store.data, v.store.bpc, oldCl);
  }

  /** A reader who opens the name after a save reads wholly the new content or wholly the old one, in
    * any order of reads and seeks. For a file that had content the new one is read exactly if the last
    * store and the update succeeded; one that had none can also show what its clusters held.
    */
  method SaveThenRead(v: Fat32, dir: nat, name: seq<byte>, payloads: seq<seq<byte>>, failures: seq<seq<nat>>, closeFailures: nat, accepted: bool,
                      ops: seq<FdOp>, ghost dirCl: seq<nat>, ghost m: map<seq<byte>, Record>, ghost oldCl: seq<nat>)
    returns (outs: seq<WriteResult>, flushOk: bool, updated: bool, shown: seq<seq<byte>>, ghost held: seq<byte>)
    requires MapDir(v, dir, dirCl, m) && v.Valid() && 1 <= v.store.bpc <= 0x1_0000 && InRange(v.Links()) && |failures| == |payloads|
    requires LowerAll(name) in m && (m[LowerAll(name)].first < 2 ==> m[LowerAll(name)].size == 0)
    requires Backed(v.Links(), v.total + 2, v.store.data, v.store.bpc, m[LowerAll(name)], oldCl) && Elems(oldCl) !! Elems(dirCl)
    modifies v, v.fat, v.store
    ensures Reports(payloads, outs) && OnDisk(old(v.store.data), v.store.bpc, oldCl)
    ensures m[LowerAll(name)].first >= 2 ==> (updated <==> flushOk && accepted)
    ensures Ran(if updated then held else BytesOf(old(v.store.data), v.store.bpc, m[LowerAll(name)], oldCl), 0, ops, v.store.bpc, shown)
    ensures flushOk ==> held == ContentOf(payloads, outs)
  {
    hide LinksOf, Chain, FlatOf, MapDir, LowerAll, Ran, Reports, RoomDecides, StreamOf, SizeOf, HalfStored, WasFree, SaveOutcome, OnDisk, InRange;
    ghost var links0, data0, key, free := v.Links(), v.store.data, LowerAll(name), FreeCount(v.Links(), v.total + 2);
    ghost var first, cl, grown, p;
    outs, flushOk, updated, first, cl, grown, p, held := SaveFile(v, dir, name, payloads, failures, closeFailures, accepted, dirCl, m, oldCl);
    StreamBound(payloads, outs, v.store.bpc, free);
    if updated {
      SavedBacked(v, links0, data0, dir, dirCl, m, key, oldCl, first, cl, held);
      shown := ReadName(v, dir, name, ops, dirCl, m[key := m[key].(size := |held|, first := first)], cl);
    } else {
      OldBacked(v, links0, data0, dir, dirCl, m, key, oldCl, first, cl, held);
      shown := ReadName(v, dir, name, ops, dirCl, m, oldCl);
    }
  }
}
