/** The windowed write-back cache over the file allocation table: a window of 128 sectors, a
  * range of dirty sectors in it, and two copies of the table on the disk. Whatever is read,
  * written and flushed, the cache behaves as one plain array of words.
  */
module FatTable {
  import opened Arith

  type Word = x: int | 0 <= x < 0x1_0000_0000

  const FAT32_EOC: Word := 0x0FFF_FFFF

  type FatSector = s: seq<Word> | |s| == 128 witness seq(128, _ => 0)

  /** The 28 bits of an entry that are the link. */
  function Low28(w: Word): Word {
    w % 0x1000_0000
  }

  /** `old` with its link replaced, the reserved top bits kept. */
  function Merged(prior: Word, value: Word): (w: Word)
    ensures Low28(w) == Low28(value) && w / 0x1000_0000 == prior / 0x1000_0000
  {
    prior / 0x1000_0000 * 0x1000_0000 + Low28(value)
  }

  function WordAt(copy: seq<FatSector>, c: nat): Word
    requires c / 128 < |copy|
  {
    copy[c / 128][c % 128]
  }

  /** Sector `k` of a window. */
  function SectorIn(window: seq<Word>, k: nat): FatSector
    requires k * 128 + 128 <= |window|
  {
    window[k * 128..k * 128 + 128]
  }

  function WindowSectors(window: seq<Word>, off: nat, n: nat): (r: seq<FatSector>)
    requires (off + n) * 128 <= |window|
    ensures |r| == n && forall k :: 0 <= k < n ==> r[k] == SectorIn(window, off + k)
    decreases n
  {
    if n == 0 then [] else WindowSectors(window, off, n - 1) + [SectorIn(window, off + n - 1)]
  }

  /** `copy` with `n` sectors from `at` on replaced by those of the window from `off` on. */
  function Stored(copy: seq<FatSector>, at: nat, window: seq<Word>, off: nat, n: nat): (r: seq<FatSector>)
    requires at + n <= |copy| && (off + n) * 128 <= |window|
    ensures |r| == |copy|
    ensures forall k :: 0 <= k < |copy| ==> r[k] == if at <= k < at + n then SectorIn(window, off + (k - at)) else copy[k]
  {
    copy[..at] + WindowSectors(window, off, n) + copy[at + n..]
  }

  /** The words of `n` sectors. */
  function Words(copy: seq<FatSector>, at: nat, n: nat): (w: seq<Word>)
    requires at + n <= |copy|
    ensures |w| == n * 128
    ensures forall i :: 0 <= i < n * 128 ==> w[i] == copy[at + i / 128][i % 128]
  {
    seq(n * 128, i requires 0 <= i < n * 128 => copy[at + i / 128][i % 128])
  }

  /** The window, its start (-1 for none) and the dirty range, against one copy of the table. */
  ghost predicate CacheOk(copy: seq<FatSector>, window: seq<Word>, start: int, dirty: bool, lo: nat, hi: nat) {
    && |window| == 16384
    && (start >= 0 ==> start % 128 == 0 && start < |copy|)
    && (dirty ==> 0 <= start && lo <= hi < 128 && start + hi < |copy|)
    && forall i :: start >= 0 && 0 <= i < 16384 && start + i / 128 < |copy| && !(dirty && lo <= i / 128 <= hi) ==>
         window[i] == WordAt(copy, start * 128 + i)
  }

  /** The table as its users see it. */
  ghost function Logical(copy: seq<FatSector>, window: seq<Word>, start: int): (t: seq<Word>)
    requires |window| == 16384
    ensures |t| == |copy| * 128
    ensures forall c :: 0 <= c < |t| ==>
              t[c] == if 0 <= start && start * 128 <= c < start * 128 + 16384 then window[c - start * 128] else WordAt(copy, c)
  {
    seq(|copy| * 128, c requires 0 <= c < |copy| * 128 =>
      if 0 <= start && start * 128 <= c < start * 128 + 16384 then window[c - start * 128] else WordAt(copy, c))
  }

  lemma FlushSame(copy: seq<FatSector>, window: seq<Word>, start: int, lo: nat, hi: nat)
    requires CacheOk(copy, window, start, true, lo, hi)
    ensures var copy' := Stored(copy, start + lo, window, lo, hi - lo + 1);
            && CacheOk(copy', window, start, false, lo, hi) && Logical(copy', window, start) == Logical(copy, window, start)
  {
    var copy' := Stored(copy, start + lo, window, lo, hi - lo + 1);
    forall i | 0 <= i < 16384 && start + i / 128 < |copy|
      ensures window[i] == WordAt(copy', start * 128 + i)
    {
      assert (start * 128 + i) / 128 == start + i / 128 && (start * 128 + i) % 128 == i % 128;
      if lo <= i / 128 <= hi {
        assert SectorIn(window, i / 128)[i % 128] == window[i];
      }
    }
    forall c | 0 <= c < |copy| * 128
      ensures Logical(copy', window, start)[c] == Logical(copy, window, start)[c]
    {
      if !(start * 128 <= c < start * 128 + 16384) {
        assert !(start + lo <= c / 128 <= start + hi);
      }
    }
  }

  /** A clean window holds what the disk does, so the table is the disk. */
  lemma CleanIsDisk(copy: seq<FatSector>, window: seq<Word>, start: int, lo: nat, hi: nat)
    requires CacheOk(copy, window, start, false, lo, hi)
    ensures forall c :: 0 <= c < |copy| * 128 ==> WordAt(copy, c) == Logical(copy, window, start)[c]
  {
    forall c | 0 <= c < |copy| * 128
      ensures WordAt(copy, c) == Logical(copy, window, start)[c]
    {
      if 0 <= start && start * 128 <= c < start * 128 + 16384 {
        var i := c - start * 128;
        assert start + i / 128 == c / 128;
        assert window[i] == WordAt(copy, start * 128 + i);
      }
    }
  }

  lemma LoadSame(copy: seq<FatSector>, window: seq<Word>, start: int, lo: nat, hi: nat, base: nat, window': seq<Word>)
    requires CacheOk(copy, window, start, false, lo, hi) && base % 128 == 0 && base < |copy| && |window'| == 16384
    requires var n := Min(128, |copy| - base); window'[..n * 128] == Words(copy, base, n)
    ensures CacheOk(copy, window', base, false, lo, hi) && Logical(copy, window', base) == Logical(copy, window, start)
  {
    var n := Min(128, |copy| - base);
    forall i | 0 <= i < 16384 && base + i / 128 < |copy|
      ensures window'[i] == WordAt(copy, base * 128 + i)
    {
      assert i < n * 128 && window'[i] == window'[..n * 128][i];
      assert (base * 128 + i) / 128 == base + i / 128 && (base * 128 + i) % 128 == i % 128;
    }
    CleanIsDisk(copy, window, start, lo, hi);
    CleanIsDisk(copy, window', base, lo, hi);
  }

  lemma WriteChanges(copy: seq<FatSector>, window: seq<Word>, start: int, dirty: bool, lo: nat, hi: nat, i: nat, w: Word, lo': nat, hi': nat)
    requires CacheOk(copy, window, start, dirty, lo, hi) && start >= 0 && i < 16384 && start + i / 128 < |copy|
    requires lo' <= hi' < 128 && lo' <= i / 128 <= hi' && start + hi' < |copy| && (dirty ==> lo' <= lo && hi <= hi')
    ensures var window': seq<Word> := window[i := w];
            && CacheOk(copy, window', start, true, lo', hi')
            && Logical(copy, window', start) == Logical(copy, window, start)[start * 128 + i := w]
  {
    assert start * 128 + i < |copy| * 128;
  }

  /** Entry `i` of the window is in a sector of the window that the table has. */
  lemma InItsSector(n: nat, start: nat, i: nat, c: nat)
    requires c == start * 128 + i && c < n * 128 && i < 16384
    ensures i / 128 < 128 && start + i / 128 < n
  {
  }

  class FatCache {
    const copies: nat
    var copy1: seq<FatSector>
    var copy2: seq<FatSector>
    var window: seq<Word>
    var start: int
    var dirty: bool
    var lo: nat
    var hi: nat

    constructor (copies: nat, copy1: seq<FatSector>, copy2: seq<FatSector>)
      requires copies > 1 ==> copy2 == copy1
      ensures Valid() && this.copy1 == copy1 && this.copies == copies
      ensures |Table()| == |copy1| * 128 && forall c :: 0 <= c < |Table()| ==> Table()[c] == WordAt(copy1, c)
    {
      this.copies, this.copy1, this.copy2 := copies, copy1, copy2;
      window := seq(16384, _ => 0);
      start, dirty, lo, hi := -1, false, 0, 0;
    }

    /** Unflushed changes lie in the dirty range, and the two copies on the disk are equal. */
    ghost predicate Valid()
      reads this
    {
      CacheOk(copy1, window, start, dirty, lo, hi) && (copies > 1 ==> copy2 == copy1)
    }

    ghost function Table(): seq<Word>
      requires Valid()
      reads this
    {
      Logical(copy1, window, start)
    }

    /** The disk holds the table. */
    ghost predicate Synced()
      requires Valid()
      reads this
    {
      |Table()| == |copy1| * 128 && forall c :: 0 <= c < |Table()| ==> WordAt(copy1, c) == Table()[c]
    }

    /** Write the dirty sectors to every copy. */
    method Flush()
      requires Valid()
      modifies this`copy1, this`copy2, this`dirty
      ensures Valid() && Table() == old(Table()) && !dirty && |copy1| == |old(copy1)|
      ensures Synced()
    {
      hide CacheOk, Logical;
      if !dirty || start == -1 {
        NeverDirtyUnloaded();
        CleanIsDisk(copy1, window, start, lo, hi);
        return;
      }
      RangeInside();
      FlushSame(copy1, window, start, lo, hi);
      var n := hi - lo + 1;
      if start + lo + n > |copy1| {
        n := |copy1| - (start + lo);
      }
      copy1 := Stored(copy1, start + lo, window, lo, n);
      if copies > 1 {
        copy2 := Stored(copy2, start + lo, window, lo, n);
      }
      dirty := false;
      CleanIsDisk(copy1, window, start, lo, hi);
    }

    lemma NeverDirtyUnloaded()
      requires Valid()
      ensures start == -1 ==> !dirty
    {
    }

    lemma RangeInside()
      requires Valid()
      ensures |window| == 16384 && (dirty ==> 0 <= start && lo <= hi < 128 && start + hi < |copy1|)
    {
    }

    /** Bring the window of a cluster's entry in. A cluster whose window starts past the end of
      * the table is refused.
      */
    method Load(c: nat) returns (ok: bool)
      requires Valid()
      modifies this
      ensures Valid() && Table() == old(Table()) && |copy1| == |old(copy1)|
      ensures ok <==> c / 128 / 128 * 128 < |copy1|
      ensures ok ==> start == c / 128 / 128 * 128
    {
      hide CacheOk, Logical;
      var base := c / 128 / 128 * 128;
      if base >= |copy1| {
        return false;
      }
      if base == start {
        return true;
      }
      Flush();
      RangeInside();
      var n := 128;
      if base + n > |copy1| {
        n := |copy1| - base;
      }
      ghost var window0 := window;
      var loaded: seq<Word> := Words(copy1, base, n);
      window := loaded + window[n * 128..];
      assert window[..n * 128] == loaded;
      LoadSame(copy1, window0, start, lo, hi, base, window);
      start := base;
      ok := true;
    }

    /** The link of cluster `c`. */
    method Read(c: nat) returns (value: Word)
      requires Valid() && c < |copy1| * 128
      modifies this
      ensures Valid() && Table() == old(Table()) && |copy1| == |old(copy1)|
      ensures c < |Table()| && value == Low28(Table()[c])
    {
      hide CacheOk, Logical;
      var ok := Load(c);
      if !ok {
        return FAT32_EOC;
      }
      RangeInside();
      ShownInWindow(copy1, window, start, c);
      var base := c / 128 / 128 * 128;
      value := Low28(window[c - base * 128]);
    }

    /** Set the link of cluster `c`, keeping the top bits. */
    method Write(c: nat, value: Word) returns (ok: bool)
      requires Valid() && c < |copy1| * 128
      modifies this
      ensures Valid() && ok && |copy1| == |old(copy1)|
      ensures c < |old(Table())| && Table() == old(Table())[c := Merged(old(Table())[c], value)]
    {
      hide CacheOk, Logical, Merged;
      ok := Load(c);
      if !ok {
        return;
      }
      WriteLoaded(c, c - c / 128 / 128 * 128 * 128, value);
    }

    /** Change entry `i` of the loaded window and extend the dirty range to its sector. */
    method WriteLoaded(c: nat, i: nat, value: Word)
      requires Valid() && c < |copy1| * 128 && start >= 0 && i < 16384 && c == start * 128 + i
      modifies this`window, this`dirty, this`lo, this`hi
      ensures Valid() && c < |old(Table())| && Table() == old(Table())[c := Merged(old(Table())[c], value)]
    {
      hide CacheOk, Logical, Merged;
      RangeInside();
      InItsSector(|copy1|, start, i, c);
      ShownInWindow(copy1, window, start, c);
      var dsec := i / 128;
      var lo', hi' := lo, hi;
      if !dirty {
        lo', hi' := dsec, dsec;
      } else if dsec < lo {
        lo' := dsec;
      } else if dsec > hi {
        hi' := dsec;
      }
      var w: Word := Merged(window[i], value);
      WriteChanges(copy1, window, start, dirty, lo, hi, i, w, lo', hi');
      window := window[i := w];
      lo, hi, dirty := lo', hi', true;
    }
  }

  /** An entry inside the window is the window's. */
  lemma ShownInWindow(copy: seq<FatSector>, window: seq<Word>, start: int, c: nat)
    requires |window| == 16384 && 0 <= start && start * 128 <= c < start * 128 + 16384 && c < |copy| * 128
    ensures Logical(copy, window, start)[c] == window[c - start * 128]
  {
  }

  // ---- whole runs ----

  datatype FatOp = FatRead(c: nat) | FatWrite(c: nat, value: Word) | FatFlush

  /** The plain array after an operation... */
  function PlainStep(t: seq<Word>, op: FatOp): (r: seq<Word>)
    ensures |r| == |t|
  {
    match op
    case FatWrite(c, value) => if c < |t| then t[c := Merged(t[c], value)] else t
    case _ => t
  }

  function PlainRun(t: seq<Word>, ops: seq<FatOp>): (r: seq<Word>)
    ensures |r| == |t|
  {
    if ops == [] then t else PlainStep(PlainRun(t, ops[..|ops| - 1]), ops[|ops| - 1])
  }

  predicate InTable(op: FatOp, n: nat) {
    op.FatFlush? || op.c < n
  }

  method DoFat(f: FatCache, op: FatOp) returns (out: Word)
    requires f.Valid() && InTable(op, |f.copy1| * 128)
    modifies f
    ensures f.Valid() && f.Table() == PlainStep(old(f.Table()), op) && |f.copy1| == |old(f.copy1)|
    ensures op.FatRead? ==> op.c < |old(f.Table())| && out == Low28(old(f.Table())[op.c])
    ensures op.FatFlush? ==> f.Synced()
  {
    hide CacheOk;
    out := 0;
    match op {
      case FatRead(c) =>
        out := f.Read(c);
      case FatWrite(c, value) =>
        var _ := f.Write(c, value);
      case FatFlush =>
        f.Flush();
    }
  }

  /** What the reads of a run must deliver: what the plain array holds at that point. */
  ghost predicate PlainReads(t: seq<Word>, ops: seq<FatOp>, outs: seq<Word>) {
    && |outs| <= |ops|
    && forall i :: 0 <= i < |outs| && ops[i].FatRead? ==> ops[i].c < |t| && outs[i] == Low28(PlainRun(t, ops[..i])[ops[i].c])
  }

  /** Any run of reads, writes and flushes is a run over the plain array, and after a flush the disk
    * holds that array.
    */
  method RunFat(f: FatCache, ops: seq<FatOp>) returns (outs: seq<Word>)
    requires f.Valid() && forall i :: 0 <= i < |ops| ==> InTable(ops[i], |f.copy1| * 128)
    modifies f
    ensures f.Valid() && f.Table() == PlainRun(old(f.Table()), ops)
    ensures |outs| == |ops| && PlainReads(old(f.Table()), ops, outs)
    ensures ops != [] && ops[|ops| - 1].FatFlush? ==> f.Synced()
  {
    hide CacheOk, PlainStep, Logical;
    outs := [];
    ghost var t0 := f.Table();
    for i := 0 to |ops|
      invariant f.Valid() && |f.copy1| == |old(f.copy1)| && |outs| == i
      invariant f.Table() == PlainRun(t0, ops[..i]) && PlainReads(t0, ops, outs)
      invariant i > 0 && ops[i - 1].FatFlush? ==> f.Synced()
    {
      assert ops[..i + 1][..i] == ops[..i];
      var out := DoFat(f, ops[i]);
      outs := outs + [out];
    }
    assert ops[..|ops|] == ops;
  }

  // ---- the plain array, word by word ----

  /** The low 28 bits of an entry are those last written to it, and the top four never change. */
  lemma {:induction false} LastWritten(t: seq<Word>, ops: seq<FatOp>, c: nat, j: nat)
    requires c < |t| && j < |ops| && ops[j].FatWrite? && ops[j].c == c
    requires forall k :: j < k < |ops| ==> !(ops[k].FatWrite? && ops[k].c == c)
    ensures PlainRun(t, ops)[c] % 0x1000_0000 == ops[j].value % 0x1000_0000
  {
    var n := |ops| - 1;
    if j < n {
      LastWritten(t, ops[..n], c, j);
    }
  }

  lemma {:induction false} TopBitsStay(t: seq<Word>, ops: seq<FatOp>, c: nat)
    requires c < |t|
    ensures PlainRun(t, ops)[c] / 0x1000_0000 == t[c] / 0x1000_0000
    ensures (forall k :: 0 <= k < |ops| ==> !(ops[k].FatWrite? && ops[k].c == c)) ==> PlainRun(t, ops)[c] == t[c]
  {
    if ops != [] {
      TopBitsStay(t, ops[..|ops| - 1], c);
    }
  }

  /** A read delivers the low 28 bits of the value last written to the entry, or of what it held. */
  lemma ReadsLast(t: seq<Word>, ops: seq<FatOp>, outs: seq<Word>, i: nat, c: nat, j: int)
    requires PlainReads(t, ops, outs) && i < |outs| && ops[i] == FatRead(c) && -1 <= j < i && c < |t|
    requires j >= 0 ==> ops[j].FatWrite? && ops[j].c == c
    requires forall k :: j < k < i ==> !(ops[k].FatWrite? && ops[k].c == c)
    ensures outs[i] as int == if j >= 0 then ops[j].value as int % 0x1000_0000 else t[c] as int % 0x1000_0000
  {
    if j >= 0 {
      LastWritten(t, ops[..i], c, j);
    } else {
      TopBitsStay(t, ops[..i], c);
    }
  }
}
