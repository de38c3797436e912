/** Runs of operations over several open files of one volume: each file behaves as a flat
  * byte sequence with a cursor, no cluster ever has two owners, and the bitmap marks
  * exactly the owned clusters plus those lost to failed extensions.
  */
module ExfatRuns {
  import opened Arith
  import opened Bytes
  import opened ExfatScan
  import opened ExfatVolume
  import opened ExfatContents
  import opened ExfatFile

  datatype Op = OpRead(n: nat) | OpWrite(data: seq<byte>) | OpTruncate(length: nat) | OpSeek(pos: nat)

  /** A flat file: its bytes and the cursor. */
  datatype Flat = Flat(bytes: seq<byte>, pos: nat)

  /** What an operation that succeeds does to a flat file... */
  function FlatStep(s: Flat, op: Op): Flat {
    match op
    case OpRead(n) => s.(pos := s.pos + |FlatRead(s.bytes, s.pos, n)|)
    case OpWrite(data) => Flat(FlatWrite(s.bytes, s.pos, data), s.pos + |data|)
    case OpTruncate(length) => s.(bytes := FlatResize(s.bytes, length))
    case OpSeek(pos) => s.(pos := pos)
  }

  /** ... and the bytes it delivers. */
  function FlatOutput(s: Flat, op: Op): seq<byte> {
    if op.OpRead? then FlatRead(s.bytes, s.pos, op.n) else []
  }

  /** Positions an operation reaches, in clusters, must fit the 32-bit cluster count. */
  predicate Fits(pos: nat, op: Op, cb: nat)
    requires cb >= 1
  {
    match op
    case OpWrite(data) => data == [] || !Wraps(pos + |data|, cb)
    case OpTruncate(length) => !Wraps(length, cb)
    case _ => true
  }

  ghost function View(v: Volume, f: File): Flat
    requires FileOk(v, f)
    reads v, f
  {
    Flat(Contents(v, f), f.pos)
  }

  /** The clusters of the open files. */
  ghost function Owned(files: set<File>): set<nat>
    reads files
  {
    set f, c | f in files && c in f.cl :: c
  }

  /** Every cluster in use has exactly one owner: an open file, the rest of the volume
    * (`fixed`), or nobody after a failed extension (`leaked`).
    */
  ghost predicate SystemOk(v: Volume, files: set<File>, fixed: set<nat>, leaked: set<nat>)
    reads v, files
  {
    && v.Valid()
    && (forall f :: f in files ==> FileOk(v, f) && !f.isDir)
    && (forall f, h :: f in files && h in files && f != h ==> Elems(f.cl) !! Elems(h.cl))
    && Owned(files) !! fixed && Owned(files) !! leaked && fixed !! leaked
    && v.used == Owned(files) + fixed + leaked
  }

  /** Operations that leave a file's clusters alone leave the file alone. */
  lemma OtherFileKept(g: Geometry, fat: seq<nat>, heap: seq<seq<Sector>>, used: set<nat>,
                      fat': seq<nat>, heap': seq<seq<Sector>>, used': set<nat>,
                      kept: set<nat>, first: nat, contiguous: bool, cl: seq<nat>, spc: nat)
    requires Chain(g, fat, used, first, contiguous, cl) && Rows(heap, cl, spc)
    requires Elems(cl) <= kept <= used' && Kept(fat, heap, fat', heap', kept)
    ensures Chain(g, fat', used', first, contiguous, cl) && Rows(heap', cl, spc)
    ensures ChainBytes(heap', cl, spc) == ChainBytes(heap, cl, spc)
  {
    forall i | 0 <= i < |cl|
      ensures cl[i] in kept
    {
      assert cl[i] in Elems(cl);
    }
    assert forall c :: c in cl ==> c in Elems(cl);
    assert Linked(fat', contiguous, cl) by {
      forall i | 0 <= i < |cl| - 1
        ensures cl[i] < |fat'| && cl[i + 1] == if contiguous then cl[i] + 1 else fat'[cl[i]]
      {
        assert cl[i] in kept;
      }
    }
    ChainUntouched(heap, heap', cl, spc);
  }

  /** What a flush commits, and whether it is due. */
  ghost function MetaOf(f: File): Meta
    reads f
  {
    Meta(f.dirty, f.size, f.valid, f.contiguous, f.cl)
  }

  datatype Meta = Meta(dirty: bool, size: nat, valid: nat, contiguous: bool, cl: seq<nat>)

  /** A handle stays dirty once it is; one that is not has nothing to commit. */
  ghost predicate FlushDue(m0: Meta, m: Meta) {
    && (m0.dirty ==> m.dirty)
    && (m.dirty || Untouched(m.size, m.valid, m.cl, m0.size, m0.valid, m0.cl))
    && (m.contiguous ==> m0.contiguous)
  }

  /** One operation on one file, seen by the rest of the volume: `kept` is everything that
    * was in use and is not this file's.
    */
  method Perform(v: Volume, f: File, op: Op) returns (ok: bool, out: seq<byte>)
    requires v.Valid() && FileOk(v, f) && !f.isDir && Fits(f.pos, op, v.g.spc * 512)
    modifies v, f`first, f`size, f`valid, f`pos, f`contiguous, f`dirty, f`cl
    ensures v.Valid() && FileOk(v, f)
    ensures View(v, f) == if ok then FlatStep(old(View(v, f)), op) else old(View(v, f))
    ensures out == if ok then FlatOutput(old(View(v, f)), op) else []
    ensures ok ==> v.used == old(v.used) - Elems(old(f.cl)) + Elems(f.cl)
    ensures !ok ==> v.Full()
    ensures old(v.used) - Elems(old(f.cl)) <= v.used && Elems(f.cl) * old(v.used) <= Elems(old(f.cl))
    ensures Kept(old(v.fat), old(v.heap), v.fat, v.heap, old(v.used) - Elems(old(f.cl)))
    ensures (old(f.dirty) ==> f.dirty) && (f.dirty || Untouched(f.size, f.valid, f.cl, old(f.size), old(f.valid), old(f.cl)))
    ensures f.contiguous ==> old(f.contiguous)
    ensures ok ==> f.dirty || f.cl == old(f.cl)
  {
    hide Matches, Linked, Distinct, Visible, ChainBytes, Kept, Rows, FlatResize, FlatWrite, FlatRead, CeilDiv, Have, Deliverable, Need, Chain, Elems, Stopped, Sealed, CutShort;
    ok, out := true, [];
    ghost var cl0 := f.cl;
    ChainInRange(v, f.first, f.contiguous, f.cl);
    KeptSelf(v);
    KeptFewer(v.fat, v.heap, v.fat, v.used, v.used - Elems(f.cl));
    match op
    case OpRead(n) =>
      var r;
      r, out := Read(v, f, n);
    case OpWrite(data) =>
      var r := Write(v, f, data);
      ok := r >= 0;
      ElemsOfPrefix(cl0, f.cl);
    case OpTruncate(length) =>
      var r := Ftrunc(v, f, length);
      ok := r == 0;
    case OpSeek(pos) =>
      f.pos := pos;
  }

  // ---- all open files together ----

  lemma OwnedSplits(files: set<File>, f: File)
    requires f in files
    ensures Owned(files) == Owned(files - {f}) + Elems(f.cl)
  {
    forall c | c in Owned(files)
      ensures c in Owned(files - {f}) + Elems(f.cl)
    {
      var h :| h in files && c in h.cl;
      if h != f {
        assert h in files - {f};
      }
    }
  }

  lemma OwnedApart(files: set<File>, f: File)
    requires f in files && forall h :: h in files && h != f ==> Elems(f.cl) !! Elems(h.cl)
    ensures Elems(f.cl) !! Owned(files - {f})
  {
    forall c | c in Owned(files - {f})
      ensures c !in Elems(f.cl)
    {
      var h :| h in files - {f} && c in h.cl;
      assert c in Elems(h.cl);
    }
  }

  lemma OwnedMember(files: set<File>, h: File)
    requires h in files
    ensures Elems(h.cl) <= Owned(files)
  {
  }

  /** One operation on one of the open files. */
  method Step(v: Volume, files: set<File>, f: File, op: Op, ghost fixed: set<nat>, ghost leaked: set<nat>)
    returns (ok: bool, out: seq<byte>, ghost lost: set<nat>)
    requires SystemOk(v, files, fixed, leaked) && f in files && Fits(f.pos, op, v.g.spc * 512)
    modifies v, f`first, f`size, f`valid, f`pos, f`contiguous, f`dirty, f`cl
    ensures SystemOk(v, files, fixed, leaked + lost)
    ensures ok ==> lost == {}
    ensures !ok ==> v.Full()
    ensures View(v, f) == if ok then FlatStep(old(View(v, f)), op) else old(View(v, f))
    ensures out == if ok then FlatOutput(old(View(v, f)), op) else []
    ensures forall h :: h in files && h != f ==> View(v, h) == old(View(v, h))
    ensures Kept(old(v.fat), old(v.heap), v.fat, v.heap, fixed + leaked)
    ensures FlushDue(old(MetaOf(f)), MetaOf(f))
    ensures ok ==> f.dirty || f.cl == old(f.cl)
  {
    hide Matches, Chain, Kept, FlatStep, FlatOutput, Visible, ChainBytes, Have, Rows;
    ghost var used0, cl0, others := v.used, f.cl, Owned(files - {f});
    ghost var fat0, heap0 := v.fat, v.heap;
    ghost var kept := used0 - Elems(cl0);
    OwnedSplits(files, f);
    OwnedApart(files, f);
    assert kept == others + fixed + leaked;
    ok, out := Perform(v, f, op);
    lost := v.used - Elems(f.cl) - kept;
    assert Owned(files - {f}) == others;
    OwnedSplits(files, f);
    SetsApart(Elems(f.cl), used0, Elems(cl0));
    ChainInRange(v, f.first, f.contiguous, f.cl);
    KeptWithin(fat0, heap0, v.fat, v.heap, kept, fixed + leaked);
    forall h | h in files && h != f
      ensures FileOk(v, h) && !h.isDir && View(v, h) == old(View(v, h))
      ensures Elems(f.cl) !! Elems(h.cl)
    {
      assert h in files - {f};
      OwnedMember(files - {f}, h);
      OtherFileKept(v.g, fat0, heap0, used0, v.fat, v.heap, v.used, kept, h.first, h.contiguous, h.cl, v.g.spc);
    }
  }

  lemma KeptWithin(fat: seq<nat>, heap: seq<seq<Sector>>, fat': seq<nat>, heap': seq<seq<Sector>>, kept: set<nat>, fewer: set<nat>)
    requires Kept(fat, heap, fat', heap', kept) && fewer <= kept
    ensures Kept(fat, heap, fat', heap', fewer)
  {
  }

  /** An operation and its outcome. One that does not fit the cluster count is not issued. */
  datatype Event = Event(file: File, op: Op, fits: bool, ok: bool, out: seq<byte>)

  /** The flat file `h` after the successful operations of a log. */
  function After(s: Flat, log: seq<Event>, h: File): Flat {
    if log == [] then s
    else
      var p, e := After(s, log[..|log| - 1], h), log[|log| - 1];
      if e.file == h && e.ok then FlatStep(p, e.op) else p
  }

  lemma AfterMore(s: Flat, log: seq<Event>, e: Event, h: File)
    ensures After(s, log + [e], h) ==
            if e.file == h && e.ok then FlatStep(After(s, log, h), e.op) else After(s, log, h)
  {
    assert (log + [e])[..|log|] == log;
  }

  /** Every read of the log delivered the bytes of the flat file of that moment. */
  ghost predicate Faithful(start: map<File, Flat>, log: seq<Event>, cb: nat)
    requires cb >= 1
  {
    forall i :: 0 <= i < |log| ==> FaithfulAt(start, log, cb, i)
  }

  ghost predicate FaithfulAt(start: map<File, Flat>, log: seq<Event>, cb: nat, i: nat)
    requires i < |log| && cb >= 1
  {
    && log[i].file in start
    && var s := After(start[log[i].file], log[..i], log[i].file);
       && log[i].fits == Fits(s.pos, log[i].op, cb) && (log[i].ok ==> log[i].fits)
       && log[i].out == if log[i].ok then FlatOutput(s, log[i].op) else []
  }

  lemma FaithfulMore(start: map<File, Flat>, log: seq<Event>, e: Event, cb: nat)
    requires cb >= 1 && Faithful(start, log, cb) && e.file in start
    requires var s := After(start[e.file], log, e.file);
             e.fits == Fits(s.pos, e.op, cb) && (e.ok ==> e.fits) && e.out == if e.ok then FlatOutput(s, e.op) else []
    ensures Faithful(start, log + [e], cb)
  {
    hide After, FlatOutput, Fits;
    forall i | 0 <= i < |log + [e]|
      ensures FaithfulAt(start, log + [e], cb, i)
    {
      assert (log + [e])[..i] == log[..i];
      if i == |log| {
        assert log[..i] == log;
      } else {
        assert FaithfulAt(start, log, cb, i);
      }
    }
  }

  /** Every operation that was issued succeeded. */
  predicate NoneFailed(log: seq<Event>) {
    forall i :: 0 <= i < |log| ==> log[i].ok || !log[i].fits
  }

  /** The flat form of an operation's outcome. */
  ghost predicate Outcome(s: Flat, s': Flat, e: Event, cb: nat)
    requires cb >= 1
  {
    && e.fits == Fits(s.pos, e.op, cb) && (e.ok ==> e.fits)
    && s' == (if e.ok then FlatStep(s, e.op) else s)
    && e.out == if e.ok then FlatOutput(s, e.op) else []
  }

  /** One operation of a script: issued if it fits. */
  method Issue(v: Volume, files: set<File>, f: File, op: Op, ghost fixed: set<nat>, ghost leaked: set<nat>)
    returns (e: Event, ghost lost: set<nat>)
    requires SystemOk(v, files, fixed, leaked) && v.g.spc >= 1 && f in files
    modifies v, f`first, f`size, f`valid, f`pos, f`contiguous, f`dirty, f`cl
    ensures SystemOk(v, files, fixed, leaked + lost) && (e.ok || !e.fits ==> lost == {})
    ensures e.fits && !e.ok ==> v.Full()
    ensures e.file == f && e.op == op && Outcome(old(View(v, f)), View(v, f), e, v.g.spc * 512)
    ensures forall h :: h in files && h != f ==> View(v, h) == old(View(v, h))
    ensures FlushDue(old(MetaOf(f)), MetaOf(f))
    ensures Kept(old(v.fat), old(v.heap), v.fat, v.heap, fixed + leaked)
    ensures e.ok ==> f.dirty || f.cl == old(f.cl)
    ensures !e.fits ==> f.dirty == old(f.dirty) && f.cl == old(f.cl)
  {
    hide Matches, Chain, Kept, FlatStep, FlatOutput, Contents, Have, Rows, Fits;
    if Fits(f.pos, op, v.g.spc * 512) {
      var ok, out;
      ok, out, lost := Step(v, files, f, op, fixed, leaked);
      e := Event(f, op, true, ok, out);
    } else {
      StillKept(v, fixed + leaked);
      e, lost := Event(f, op, false, false, []), {};
      assert leaked + lost == leaked;
    }
  }

  /** The log has an entry for each of the first `n` operations of the script. */
  predicate Logs(log: seq<Event>, script: seq<(File, Op)>, n: nat) {
    |log| == n <= |script| && forall i :: 0 <= i < n ==> log[i].file == script[i].0 && log[i].op == script[i].1
  }

  /** Where a run stands: every file is the flat file its own operations so far make of it. */
  ghost predicate Running(v: Volume, files: set<File>, fixed: set<nat>, leaked0: set<nat>, leaked: set<nat>,
                          start: map<File, Flat>, meta: map<File, Meta>, log: seq<Event>, fat0: seq<nat>, heap0: seq<seq<Sector>>)
    reads v, files
  {
    && SystemOk(v, files, fixed, leaked) && v.g.spc >= 1 && leaked0 <= leaked && (NoneFailed(log) ==> leaked == leaked0)
    && start.Keys == files && meta.Keys == files
    && (forall h :: h in files ==> View(v, h) == After(start[h], log, h))
    && (forall h :: h in files ==> FlushDue(meta[h], MetaOf(h)) && (NoneFailed(log) ==> h.dirty || h.cl == meta[h].cl))
    && Faithful(start, log, v.g.spc * 512)
    && Kept(fat0, heap0, v.fat, v.heap, fixed + leaked0)
  }

  lemma RunStart(v: Volume, files: set<File>, fixed: set<nat>, leaked: set<nat>, start: map<File, Flat>, meta: map<File, Meta>)
    requires SystemOk(v, files, fixed, leaked) && v.g.spc >= 1
    requires start.Keys == files && meta.Keys == files && forall h :: h in files ==> start[h] == View(v, h) && meta[h] == MetaOf(h)
    ensures Running(v, files, fixed, leaked, leaked, start, meta, [], v.fat, v.heap)
  {
    hide FileOk, Contents, Matches, Kept, After, Faithful;
    NothingLogged(start, v.g.spc * 512);
    StillKept(v, fixed + leaked);
  }

  /** One more operation of a run. */
  method RunOne(v: Volume, files: set<File>, f: File, op: Op, ghost fixed: set<nat>, ghost leaked0: set<nat>, ghost leaked: set<nat>,
                ghost start: map<File, Flat>, ghost meta: map<File, Meta>, log: seq<Event>, ghost fat0: seq<nat>, ghost heap0: seq<seq<Sector>>)
    returns (e: Event, ghost leaked': set<nat>)
    requires Running(v, files, fixed, leaked0, leaked, start, meta, log, fat0, heap0) && f in files
    modifies v, f`first, f`size, f`valid, f`pos, f`contiguous, f`dirty, f`cl
    ensures Running(v, files, fixed, leaked0, leaked', start, meta, log + [e], fat0, heap0) && e.file == f && e.op == op
  {
    hide FileOk, FlatStep, FlatOutput, Contents, Matches, Kept, After, Faithful, Fits;
    ghost var fat1, heap1 := v.fat, v.heap;
    ghost var lost;
    e, lost := Issue(v, files, f, op, fixed, leaked);
    leaked' := leaked + lost;
    FaithfulMore(start, log, e, v.g.spc * 512);
    LastOk(log, e);
    forall h | h in files
      ensures View(v, h) == After(start[h], log + [e], h)
    {
      AfterMore(start[h], log, e, h);
    }
    KeptWithin(fat1, heap1, v.fat, v.heap, fixed + leaked, fixed + leaked0);
    KeptThen(fat0, heap0, fat1, heap1, v.fat, v.heap, fixed + leaked0);
  }

  /** Any run over the open files: every file is at each moment the flat file its own
    * operations make of it, every read delivers the flat bytes, and ownership stays single.
    * An operation whose end does not fit the cluster count is not issued.
    */
  method Run(v: Volume, files: set<File>, script: seq<(File, Op)>, ghost fixed: set<nat>, ghost leaked0: set<nat>)
    returns (log: seq<Event>, ghost leaked: set<nat>, ghost start: map<File, Flat>)
    requires SystemOk(v, files, fixed, leaked0) && v.g.spc >= 1 && forall i :: 0 <= i < |script| ==> script[i].0 in files
    modifies v, files`first, files`size, files`valid, files`pos, files`contiguous, files`dirty, files`cl
    ensures forall h :: h in files ==> FlushDue(old(MetaOf(h)), MetaOf(h)) && (NoneFailed(log) ==> h.dirty || h.cl == old(h.cl))
    ensures start.Keys == files && forall h :: h in files ==> start[h] == old(View(v, h))
    ensures SystemOk(v, files, fixed, leaked) && leaked0 <= leaked && (NoneFailed(log) ==> leaked == leaked0)
    ensures forall h :: h in files ==> View(v, h) == After(start[h], log, h)
    ensures Logs(log, script, |script|) && Faithful(start, log, v.g.spc * 512)
    ensures Kept(old(v.fat), old(v.heap), v.fat, v.heap, fixed + leaked0)
  {
    hide FileOk, Contents, Matches, Kept, After, Faithful, FlushDue, Running;
    log, leaked := [], leaked0;
    start := map h | h in files :: View(v, h);
    ghost var meta := map h | h in files :: MetaOf(h);
    RunStart(v, files, fixed, leaked0, start, meta);
    for k := 0 to |script|
      invariant Running(v, files, fixed, leaked0, leaked, start, meta, log, old(v.fat), old(v.heap)) && Logs(log, script, k)
    {
      var e;
      e, leaked := RunOne(v, files, script[k].0, script[k].1, fixed, leaked0, leaked, start, meta, log, old(v.fat), old(v.heap));
      log := log + [e];
    }
    RunEnd(v, files, fixed, leaked0, leaked, start, meta, log, old(v.fat), old(v.heap));
  }

  lemma RunEnd(v: Volume, files: set<File>, fixed: set<nat>, leaked0: set<nat>, leaked: set<nat>,
               start: map<File, Flat>, meta: map<File, Meta>, log: seq<Event>, fat0: seq<nat>, heap0: seq<seq<Sector>>)
    requires Running(v, files, fixed, leaked0, leaked, start, meta, log, fat0, heap0)
    ensures SystemOk(v, files, fixed, leaked) && v.g.spc >= 1 && leaked0 <= leaked && (NoneFailed(log) ==> leaked == leaked0)
    ensures start.Keys == files && meta.Keys == files && forall h :: h in files ==> View(v, h) == After(start[h], log, h)
    ensures forall h :: h in files ==> FlushDue(meta[h], MetaOf(h)) && (NoneFailed(log) ==> h.dirty || h.cl == meta[h].cl)
    ensures Faithful(start, log, v.g.spc * 512) && Kept(fat0, heap0, v.fat, v.heap, fixed + leaked0)
  {
  }

  lemma StillKept(v: Volume, kept: set<nat>)
    requires v.Valid() && kept <= v.used
    ensures Kept(v.fat, v.heap, v.fat, v.heap, kept)
  {
    hide Matches;
    KeptSelf(v);
    KeptWithin(v.fat, v.heap, v.fat, v.heap, v.used, kept);
  }

  lemma NothingLogged(start: map<File, Flat>, cb: nat)
    requires cb >= 1
    ensures Faithful(start, [], cb) && forall h :: h in start ==> After(start[h], [], h) == start[h]
  {
  }

  lemma LastOk(log: seq<Event>, e: Event)
    ensures NoneFailed(log + [e]) ==> NoneFailed(log) && (e.ok || !e.fits)
  {
    if NoneFailed(log + [e]) {
      assert (log + [e])[|log|] == e;
      assert forall i :: 0 <= i < |log| ==> (log + [e])[i] == log[i];
    }
  }

  lemma KeptThen(fat: seq<nat>, heap: seq<seq<Sector>>, fat1: seq<nat>, heap1: seq<seq<Sector>>,
                 fat2: seq<nat>, heap2: seq<seq<Sector>>, kept: set<nat>)
    requires Kept(fat, heap, fat1, heap1, kept) && Kept(fat1, heap1, fat2, heap2, kept)
    ensures Kept(fat, heap, fat2, heap2, kept)
  {
  }

  /** Event `k` of the log stores byte `i` of the flat file `h`. */
  predicate Stores(s: Flat, log: seq<Event>, h: File, i: nat, k: nat) {
    && k < |log| && log[k].file == h && log[k].ok && log[k].op.OpWrite?
    && var p := After(s, log[..k], h).pos; p <= i < p + |log[k].op.data|
  }

  /** Byte `i` of `b` reads as zero, as long as there is one. */
  predicate ZeroAt(b: seq<byte>, i: nat) {
    i < |b| ==> b[i] == 0
  }

  /** One operation that does not store byte `i` leaves it zero. */
  lemma ZeroStays(s: Flat, op: Op, i: nat)
    requires ZeroAt(s.bytes, i) && !(op.OpWrite? && s.pos <= i < s.pos + |op.data|)
    ensures ZeroAt(FlatStep(s, op).bytes, i)
  {
  }

  /** Bytes a truncate cuts off never come back: whatever the operations after it, a byte it cut
    * reads as zero or is past the end until a write stores it.
    */
  lemma {:induction false} CutBytesStayCut(s: Flat, log: seq<Event>, h: File, j: nat, i: nat)
    requires j < |log| && log[j].file == h && log[j].ok && log[j].op.OpTruncate? && log[j].op.length <= i
    requires forall k :: j < k < |log| ==> !Stores(s, log, h, i, k)
    ensures ZeroAt(After(s, log, h).bytes, i)
  {
    hide FlatStep;
    var n := |log| - 1;
    var before, e := log[..n], log[n];
    var p := After(s, before, h);
    if j < n {
      forall k | j < k < n
        ensures !Stores(s, before, h, i, k)
      {
        assert before[..k] == log[..k];
        assert !Stores(s, log, h, i, k);
      }
      CutBytesStayCut(s, before, h, j, i);
      assert !Stores(s, log, h, i, n);
      if e.file == h && e.ok {
        ZeroStays(p, e.op, i);
      }
    } else {
      CutAway(p, e.op.length, i);
    }
  }

  lemma CutAway(s: Flat, m: nat, i: nat)
    requires m <= i
    ensures ZeroAt(FlatStep(s, OpTruncate(m)).bytes, i)
  {
  }

  // ---- flat files, byte by byte ----

  /** A read delivers the bytes from the cursor on, as many as asked for or as there are, and moves past them. */
  lemma ReadIs(s: Flat, n: nat)
    ensures var out, s' := FlatOutput(s, OpRead(n)), FlatStep(s, OpRead(n));
            && |out| == (if s.pos >= |s.bytes| then 0 else Min(n, |s.bytes| - s.pos))
            && (forall i :: 0 <= i < |out| ==> out[i] == s.bytes[s.pos + i])
            && s'.bytes == s.bytes && s'.pos == s.pos + |out|
  {
  }

  /** A write stores its bytes at the cursor and moves past them; what it skips reads as zero, all else stays. */
  lemma WriteIs(s: Flat, data: seq<byte>, i: nat)
    requires data != []
    ensures var s' := FlatStep(s, OpWrite(data));
            && s'.pos == s.pos + |data| && |s'.bytes| == Max(|s.bytes|, s.pos + |data|)
            && (i < |s'.bytes| ==>
                  s'.bytes[i] == if s.pos <= i < s.pos + |data| then data[i - s.pos] else if i < |s.bytes| then s.bytes[i] else 0)
  {
  }

  /** A truncate sets the length: bytes below it stay, new ones are zero. The cursor stays, and a seek moves it alone. */
  lemma TruncateIs(s: Flat, n: nat, i: nat)
    ensures var s' := FlatStep(s, OpTruncate(n));
            s'.pos == s.pos && |s'.bytes| == n && (i < n ==> s'.bytes[i] == if i < |s.bytes| then s.bytes[i] else 0)
    ensures FlatStep(s, OpSeek(n)) == Flat(s.bytes, n) && FlatStep(s, OpWrite([])) == s
  {
  }

  /** What was written is read back from where it was written. */
  lemma WriteReadsBack(s: Flat, data: seq<byte>)
    requires data != []
    ensures var s' := FlatStep(FlatStep(s, OpWrite(data)), OpSeek(s.pos));
            FlatOutput(s', OpRead(|data|)) == data && FlatStep(s', OpRead(|data|)) == FlatStep(s, OpWrite(data))
  {
    var s' := FlatStep(FlatStep(s, OpWrite(data)), OpSeek(s.pos));
    ReadIs(s', |data|);
    forall i | 0 <= i < |data|
      ensures FlatOutput(s', OpRead(|data|))[i] == data[i]
    {
      WriteIs(s, data, s.pos + i);
    }
  }

  /** Two reads deliver what one of both lengths does. */
  lemma ReadsJoin(s: Flat, m: nat, n: nat)
    ensures FlatOutput(s, OpRead(m)) + FlatOutput(FlatStep(s, OpRead(m)), OpRead(n)) == FlatOutput(s, OpRead(m + n))
  {
  }

  /** So in any run: a write, a seek back and a read of as many bytes deliver the bytes written. */
  lemma RunReadsBack(start: map<File, Flat>, log: seq<Event>, cb: nat, j: nat, h: File, data: seq<byte>)
    requires cb >= 1 && Faithful(start, log, cb) && j + 2 < |log| && data != []
    requires forall k :: j <= k <= j + 2 ==> log[k].file == h && log[k].ok
    requires h in start && log[j].op == OpWrite(data) && log[j + 1].op == OpSeek(After(start[h], log[..j], h).pos) && log[j + 2].op == OpRead(|data|)
    ensures log[j + 2].out == data
  {
    hide FlatStep, FlatOutput;
    AfterNext(start[h], log, h, j);
    AfterNext(start[h], log, h, j + 1);
    WriteReadsBack(After(start[h], log[..j], h), data);
    assert FaithfulAt(start, log, cb, j + 2);
  }

  lemma AfterNext(s: Flat, log: seq<Event>, h: File, k: nat)
    requires k < |log| && log[k].file == h && log[k].ok
    ensures After(s, log[..k + 1], h) == FlatStep(After(s, log[..k], h), log[k].op)
  {
    assert log[..k + 1][..k] == log[..k];
  }
}
