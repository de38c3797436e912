/** The order in which the cluster allocator looks at the bitmap, once around from a hint, with the
  * 32-bit sum it uses; which clusters it finds that way, and how many in succession.
  */
module ExfatScan {
  import opened Arith

  const WORDS: nat := 0x1_0000_0000

  /** The `n` cluster numbers of a volume. */
  ghost function Clusters(n: nat): (s: set<nat>)
    ensures |s| == n && forall c: nat :: c in s <==> 2 <= c < n + 2
  {
    if n == 0 then {} else Clusters(n - 1) + {n + 1}
  }

  /** Clusters nobody uses. */
  ghost function FreeCount(count: nat, used: set<nat>): nat {
    |Clusters(count) - used|
  }

  lemma FreeAfterTaking(count: nat, used: set<nat>, c: nat)
    requires 2 <= c < count + 2 && c !in used
    ensures FreeCount(count, used) >= 1 && FreeCount(count, used + {c}) == FreeCount(count, used) - 1
  {
    assert Clusters(count) - (used + {c}) == Clusters(count) - used - {c};
  }

  lemma NoneLeft(count: nat, used: set<nat>)
    ensures FreeCount(count, used) == 0 <==> forall c: nat :: 2 <= c < count + 2 ==> c in used
  {
    if FreeCount(count, used) == 0 {
      forall c: nat | 2 <= c < count + 2
        ensures c in used
      {
        assert c !in Clusters(count) - used;
      }
    } else {
      var c :| c in Clusters(count) - used;
    }
  }

  // ---- the scan ----

  /** The `k`-th cluster of the scan from `start`. */
  function ScanCluster(start: nat, k: nat, total: nat): (c: nat)
    requires start >= 2 && total >= 1
    ensures 2 <= c < total + 2
  {
    2 + (start - 2 + k) % WORDS % total
  }

  /** The scan passes cluster `c` by: its sum wraps before it gets there, and again does not reach it. */
  predicate Missed(start: nat, total: nat, c: nat) {
    Max(WORDS - total, start - 2 + total - WORDS) <= c - 2 < start - 2
  }

  /** The scan meets every cluster but those. */
  lemma ScanMeets(start: nat, total: nat, c: nat)
    requires 2 <= start < total + 2 && 2 <= c < total + 2 && total < WORDS
    ensures (exists k :: 0 <= k < total && ScanCluster(start, k, total) == c) <==> !Missed(start, total, c)
  {
    if !Missed(start, total, c) {
      var k := ScanStep(start, total, c);
    } else {
      forall k | 0 <= k < total
        ensures ScanCluster(start, k, total) != c
      {
        StepMisses(start, total, c, k);
      }
    }
  }

  lemma OneTurn(x: nat, n: nat)
    requires n >= 1
    ensures x < n ==> x % n == x
    ensures n <= x < 2 * n ==> x % n == x - n
  {
    if n <= x < 2 * n {
      DivModUnique(1, x - n, n);
    }
  }

  /** Where a step of the scan is, in terms of its sum. */
  lemma StepAt(start: nat, k: nat, total: nat)
    requires start >= 2 && 1 <= total < WORDS && start - 2 < total && k < total
    ensures var sum := start - 2 + k;
            ScanCluster(start, k, total) - 2 == if sum < total then sum else if sum < WORDS then sum - total else sum - WORDS
  {
    hide Max;
    var sum := start - 2 + k;
    OneTurn(sum, WORDS);
    OneTurn(sum % WORDS, total);
  }

  /** The step at which the scan meets a cluster. */
  lemma ScanStep(start: nat, total: nat, c: nat) returns (k: nat)
    requires 2 <= start < total + 2 && 2 <= c < total + 2 && total < WORDS && !Missed(start, total, c)
    ensures k < total && ScanCluster(start, k, total) == c
  {
    k := if c >= start then c - start else if c - 2 < WORDS - total then c - start + total else WORDS - (start - 2) + (c - 2);
    StepAt(start, k, total);
  }

  lemma StepMisses(start: nat, total: nat, c: nat, k: nat)
    requires 2 <= start < total + 2 && total < WORDS && Missed(start, total, c) && k < total
    ensures ScanCluster(start, k, total) != c
  {
    StepAt(start, k, total);
  }

  /** The scan meets every cluster exactly when its sum stays within 32 bits. */
  lemma ScanComplete(start: nat, total: nat)
    requires 2 <= start < total + 2 && total < WORDS
    ensures (forall c: nat :: 2 <= c < total + 2 ==> !Missed(start, total, c)) <==> start - 2 + total <= WORDS
  {
    if start - 2 + total > WORDS {
      assert Missed(start, total, start - 1);
    }
  }

  /** On a volume of 0xC000_0000 clusters a scan from 0xB000_0002 passes by a quarter of them. */
  lemma ScanMisses(c: nat)
    requires 0x7000_0002 <= c < 0xB000_0002
    ensures forall k :: 0 <= k < 0xC000_0000 ==> ScanCluster(0xB000_0002, k, 0xC000_0000) != c
  {
    ScanMeets(0xB000_0002, 0xC000_0000, c);
  }

  // ---- what the allocator delivers ----

  function StartOf(total: nat, next: nat): (start: nat)
    ensures start >= 2 && (total >= 1 ==> start < total + 2)
  {
    if 2 <= next < total + 2 then next else 2
  }

  function HintAfter(total: nat, c: nat): nat {
    if c + 1 < total + 2 then c + 1 else 2
  }

  /** The first cluster not in use from step `k` of the scan on; zero if there is none. */
  ghost function PickFrom(total: nat, used: set<nat>, start: nat, k: nat): (c: nat)
    requires start >= 2 && total >= 1
    ensures c != 0 ==> 2 <= c < total + 2 && c !in used
    ensures c == 0 <==> forall j :: k <= j < total ==> ScanCluster(start, j, total) in used
    decreases total - k
  {
    if k >= total then 0
    else if ScanCluster(start, k, total) !in used then ScanCluster(start, k, total)
    else PickFrom(total, used, start, k + 1)
  }

  /** How many clusters the allocator delivers in succession before it finds none. */
  ghost function Deliverable(total: nat, used: set<nat>, next: nat): nat
    decreases FreeCount(total, used)
  {
    if total == 0 then 0
    else
      var c := PickFrom(total, used, StartOf(total, next), 0);
      if c == 0 then 0
      else
        FreeAfterTaking(total, used, c);
        1 + Deliverable(total, used + {c}, HintAfter(total, c))
  }

  /** On volumes of up to 2^31 clusters that is all that are free. */
  lemma {:induction false} DeliversAll(total: nat, used: set<nat>, next: nat)
    requires total <= 0x8000_0000
    ensures Deliverable(total, used, next) == FreeCount(total, used)
    decreases FreeCount(total, used)
  {
    NoneLeft(total, used);
    if total >= 1 {
      var start := StartOf(total, next);
      var c := PickFrom(total, used, start, 0);
      if c == 0 {
        forall d: nat | 2 <= d < total + 2
          ensures d in used
        {
          var k := ScanStep(start, total, d);
        }
      } else {
        FreeAfterTaking(total, used, c);
        DeliversAll(total, used + {c}, HintAfter(total, c));
      }
    }
  }

  /** It is never more than are free. */
  lemma {:induction false} DeliversAtMost(total: nat, used: set<nat>, next: nat)
    ensures Deliverable(total, used, next) <= FreeCount(total, used)
    decreases FreeCount(total, used)
  {
    if total >= 1 {
      var c := PickFrom(total, used, StartOf(total, next), 0);
      if c != 0 {
        FreeAfterTaking(total, used, c);
        DeliversAtMost(total, used + {c}, HintAfter(total, c));
      }
    }
  }

  /** Nothing is delivered exactly when every cluster is in use or passed by. */
  lemma NothingDelivered(total: nat, used: set<nat>, next: nat)
    requires 1 <= total < WORDS
    ensures Deliverable(total, used, next) == 0 <==>
              forall c: nat :: 2 <= c < total + 2 ==> c in used || Missed(StartOf(total, next), total, c)
  {
    var start := StartOf(total, next);
    if Deliverable(total, used, next) == 0 {
      forall c: nat | 2 <= c < total + 2
        ensures c in used || Missed(start, total, c)
      {
        if !Missed(start, total, c) {
          var k := ScanStep(start, total, c);
        }
      }
    } else {
      var c := PickFrom(total, used, start, 0);
      assert c !in used;
      if k :| 0 <= k < total && ScanCluster(start, k, total) !in used {
        var d := ScanCluster(start, k, total);
        if Missed(start, total, d) {
          StepMisses(start, total, d, k);
        }
      }
    }
  }
}
