/** Integer arithmetic shared by the models: rounding, division and powers of two. */
module Arith {

  function Min(a: int, b: int): int {
    if a < b then a else b
  }

  function Max(a: int, b: int): int {
    if a > b then a else b
  }

  function Pow2(n: nat): (r: nat)
    ensures r >= 1
  {
    if n == 0 then 1 else 2 * Pow2(n - 1)
  }

  lemma {:induction false} Pow2Adds(a: nat, b: nat)
    ensures Pow2(a + b) == Pow2(a) * Pow2(b)
  {
    if a == 0 {
    } else {
      Pow2Adds(a - 1, b);
      assert a + b - 1 == (a - 1) + b;
    }
  }

  function Times(a: nat, b: nat): nat {
    a * b
  }

  lemma MulMonotone(a: nat, b: nat, k: nat)
    requires a <= b
    ensures a * k <= b * k
  {
  }

  lemma MulStep(a: nat, b: nat, k: nat)
    requires a < b
    ensures a * k + k <= b * k
  {
    MulMonotone(a + 1, b, k);
  }

  /** A number below `n * k` has its quotient by `k` below `n`. */
  lemma DivBelow(j: nat, n: nat, k: nat)
    requires k >= 1 && j < n * k
    ensures j / k < n && j == j / k * k + j % k
  {
    if j / k >= n {
      MulMonotone(n, j / k, k);
    }
  }

  // ---- rounding and splitting of positions ----

  /** Clusters of `cb` bytes needed to hold `n` bytes. */
  function CeilDiv(n: nat, cb: nat): nat
    requires cb >= 1
  {
    (n + (cb - 1)) / cb
  }

  lemma CeilDivBounds(n: nat, cb: nat)
    requires cb >= 1
    ensures CeilDiv(n, cb) * cb >= n
    ensures n > 0 ==> CeilDiv(n, cb) >= 1 && (CeilDiv(n, cb) - 1) * cb < n
    ensures n == 0 ==> CeilDiv(n, cb) == 0
  {
    var q := CeilDiv(n, cb);
    assert q * cb + (n + cb - 1) % cb == n + cb - 1;
    assert (q - 1) * cb == q * cb - cb;
    if n == 0 && q >= 1 {
      MulMonotone(1, q, cb);
    }
  }

  /** Rounding up is the only cluster count that covers `n` bytes without a spare. */
  lemma CeilDivUnique(n: nat, cb: nat, k: nat)
    requires cb >= 1 && n <= k * cb && (k > 0 ==> (k - 1) * cb < n)
    ensures CeilDiv(n, cb) == k
  {
    CeilDivBounds(n, cb);
    var q := CeilDiv(n, cb);
    if q < k {
      MulMonotone(q, k - 1, cb);
    } else if k < q {
      MulMonotone(k, q - 1, cb);
    }
  }

  lemma CeilDivMonotone(m: nat, n: nat, cb: nat)
    requires cb >= 1 && m <= n
    ensures CeilDiv(m, cb) <= CeilDiv(n, cb)
  {
    CeilDivBounds(m, cb);
    CeilDivBounds(n, cb);
    if CeilDiv(n, cb) < CeilDiv(m, cb) {
      MulMonotone(CeilDiv(n, cb), CeilDiv(m, cb) - 1, cb);
    }
  }

  lemma DivModUnique(k: nat, s: nat, n: nat)
    requires s < n
    ensures (k * n + s) / n == k && (k * n + s) % n == s
  {
    var x := k * n + s;
    assert x == x / n * n + x % n;
    if x / n < k {
      MulStep(x / n, k, n);
    } else if k < x / n {
      MulStep(k, x / n, n);
    }
  }

  /** The cluster, sector and byte a position falls in, by divisions or by sector number. */
  lemma SplitPosition(pos: nat, spc: nat)
    requires spc >= 1
    ensures pos / (spc * 512) == pos / 512 / spc
    ensures pos % (spc * 512) / 512 == pos / 512 % spc
    ensures pos % (spc * 512) % 512 == pos % 512
    ensures pos == (pos / 512 / spc * spc + pos / 512 % spc) * 512 + pos % 512
  {
    var j := pos / 512;
    var k, s := j / spc, j % spc;
    assert j == k * spc + s;
    var cb := spc * 512;
    assert k * spc * 512 == k * cb;
    assert s * 512 + pos % 512 < cb;
    DivModUnique(k, s * 512 + pos % 512, cb);
  }

  /** The same for the number of a 32-byte directory entry, 16 to a sector. */
  lemma SplitIndex(index: nat, spc: nat)
    requires spc >= 1
    ensures index / (spc * 16) == index / 16 / spc
    ensures index % (spc * 16) / 16 == index / 16 % spc
    ensures index % (spc * 16) % 16 == index % 16
    ensures index == (index / 16 / spc * spc + index / 16 % spc) * 16 + index % 16
  {
    var j := index / 16;
    var k, s := j / spc, j % spc;
    assert j == k * spc + s;
    var per := spc * 16;
    assert k * spc * 16 == k * per;
    assert s * 16 + index % 16 < per;
    DivModUnique(k, s * 16 + index % 16, per);
  }
}
