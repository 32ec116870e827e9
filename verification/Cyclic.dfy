/** Walking round a ring of `n` places: used by the port allocator, the round-robin polling of
    the offloading cores, and the traffic generator. */
module Cyclic {
  import opened Machine

  lemma {:induction false} MulGrows(n: nat, q: nat, q': nat)
    requires q < q'
    ensures n * q + n <= n * q'
    decreases q'
  {
    assert n * q' == n * (q' - 1) + n;
    if q + 1 < q' {
      MulGrows(n, q, q' - 1);
    }
  }

  /** The product n * q, as `q` steps of `n`. */
  function Steps(n: nat, q: nat): nat {
    if q == 0 then 0 else Steps(n, q - 1) + n
  }

  lemma {:induction false} StepsIsProduct(n: nat, q: nat)
    ensures Steps(n, q) == n * q
  {
    if q != 0 {
      StepsIsProduct(n, q - 1);
      assert n * q == n * (q - 1) + n;
    }
  }

  lemma DivModSteps(a: nat, n: nat, q: nat, r: nat)
    requires r < n && a == Steps(n, q) + r
    ensures a / n == q && a % n == r
  {
    StepsIsProduct(n, q);
    DivModUnique(a, n, q, r);
  }

  lemma Unique(n: nat, q: nat, r: nat, q': nat, r': nat)
    requires r < n && r' < n && n * q + r == n * q' + r'
    ensures q == q' && r == r'
  {
    if q < q' {
      MulGrows(n, q, q');
    } else if q' < q {
      MulGrows(n, q', q);
    }
  }

  lemma DivMod(a: nat, n: nat)
    requires 0 < n
    ensures a == n * (a / n) + a % n && a % n < n
  {
  }

  lemma DivModUnique(a: nat, n: nat, q: nat, r: nat)
    requires r < n && a == n * q + r
    ensures a / n == q && a % n == r
  {
    DivMod(a, n);
    Unique(n, q, r, a / n, a % n);
  }

  /** The place reached from `start` after `i < n` steps. */
  lemma PlaceAfter(start: nat, i: nat, n: nat)
    requires i < n
    ensures (start + i) % n == if start % n + i < n then start % n + i else start % n + i - n
  {
    DivMod(start, n);
    var q, m := start / n, start % n + i;
    if m < n {
      DivModUnique(start + i, n, q, m);
    } else {
      assert n * (q + 1) == n * q + n;
      DivModUnique(start + i, n, q + 1, m - n);
    }
  }

  /** The number of steps from `start` to the place `r`: every place is reached. */
  function StepsTo(start: nat, r: nat, n: nat): (i: nat)
    requires r < n
    ensures i < n && (start + i) % n == r
  {
    var s := start % n;
    var i := if s <= r then r - s else r + n - s;
    PlaceAfter(start, i, n);
    i
  }

  /** Fewer than `n` steps never come back to a place. */
  lemma NoPlaceTwice(start: nat, i: nat, j: nat, n: nat)
    requires i < j < n
    ensures (start + i) % n != (start + j) % n
  {
    PlaceAfter(start, i, n);
    PlaceAfter(start, j, n);
  }

  // ---------------------------------------------------------------------
  // Walking by a counter of 32 bits

  /** A place in a ring of `n` picked by a counter of 32 bits that has counted to `q`. */
  function Round(q: nat, n: nat): (r: nat)
    requires 0 < n
    ensures r < n
  {
    (q % TWO32) % n
  }

  lemma ModOfMod(q: nat, n: nat)
    requires 0 < n && TWO32 % n == 0
    ensures Round(q, n) == q % n
  {
    DivMod(TWO32, n);
    var a, c, d := q / TWO32, q % TWO32, TWO32 / n;
    DivMod(c, n);
    assert q == TWO32 * a + c;
    assert TWO32 * a == n * (d * a) by {
      assert TWO32 == n * d;
      MulAssoc(n, d, a);
    }
    assert q == n * (d * a + c / n) + c % n by {
      MulDistributes(n, d * a, c / n);
    }
    DivModUnique(q, n, d * a + c / n, c % n);
  }

  lemma RoundIs(q: nat, n: nat)
    requires 0 < n && (q < TWO32 || TWO32 % n == 0)
    ensures Round(q, n) == q % n
  {
    if q < TWO32 {
      DivModUnique(q, TWO32, 0, q);
    } else {
      ModOfMod(q, n);
    }
  }

  lemma MulAssoc(x: nat, y: nat, z: nat)
    ensures (x * y) * z == x * (y * z)
  {
  }

  lemma MulDistributes(x: nat, y: nat, z: nat)
    ensures x * (y + z) == x * y + x * z
  {
  }
}
