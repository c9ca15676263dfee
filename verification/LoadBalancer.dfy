/** Round-robin choice of a backend by a counter that wraps at 2^64. */
module Balancing {
  import opened Routing
  import opened HttpSyntax

  /** The position taken by the i-th of a series of selections from a list of n. */
  function Pick(counter: nat, n: nat, i: nat): nat
    requires n > 0
  {
    (counter + i) % SIZE_T % n
  }

  class LoadBalancer {
    var counter: nat

    constructor ()
      ensures counter == 0
    {
      counter := 0;
    }

    /** `select` with the round-robin algorithm. A list of one does not use the counter. */
    method Select(backends: seq<Backend>) returns (b: Backend)
      requires counter < SIZE_T
      modifies this
      ensures backends == [] ==> b == Backend("", 0)
      ensures backends != [] ==> b == backends[Pick(old(counter), |backends|, 0)]
      ensures counter == if |backends| >= 2 then (old(counter) + 1) % SIZE_T else old(counter)
    {
      if |backends| == 0 {
        return Backend("", 0);
      }
      if |backends| == 1 {
        return backends[0];
      }
      var idx := counter % |backends|;
      counter := (counter + 1) % SIZE_T;
      return backends[idx];
    }
  }

  /** How often position p is taken in k selections. */
  function Hits(counter: nat, n: nat, k: nat, p: nat): nat
    requires n > 0
  {
    if k == 0 then 0 else Hits(counter, n, k - 1, p) + if Pick(counter, n, k - 1) == p then 1 else 0
  }

  // ---- division ----

  lemma Multiple(n: nat, d: int)
    requires n > 0
    ensures d >= 1 ==> n * d >= n
    ensures d <= -1 ==> n * d <= 0 - n
  {
  }

  lemma DivUnique(x: nat, n: nat, q: nat, r: nat)
    requires n > 0 && x == n * q + r && r < n
    ensures x / n == q && x % n == r
  {
    var d: int := x / n - q;
    assert x == n * (x / n) + x % n;
    assert n * d == r - x % n;
    Multiple(n, d);
  }

  lemma DivStep(x: nat, n: nat)
    requires n > 0
    ensures (x + 1) / n == x / n + if (x + 1) % n == 0 then 1 else 0
  {
    var q, r := x / n, x % n;
    if r + 1 < n {
      DivUnique(x + 1, n, q, r + 1);
    } else {
      assert x + 1 == n * (q + 1);
      DivUnique(x + 1, n, q + 1, 0);
    }
  }

  lemma DivParts(q: nat, r: nat, a: nat, b: nat, n: nat)
    requires n > 0 && r < n && b < n
    ensures (n * q + r + (n * a + b)) / n == q + a + if r + b < n then 0 else 1
  {
    var x := n * q + r + (n * a + b);
    assert n * (q + a) == n * q + n * a;
    if r + b < n {
      DivUnique(x, n, q + a, r + b);
    } else {
      assert n * (q + a + 1) == n * (q + a) + n;
      DivUnique(x, n, q + a + 1, r + b - n);
    }
  }

  lemma DivSum(x: nat, k: nat, n: nat)
    requires n > 0
    ensures x / n + k / n <= (x + k) / n <= x / n + (k + n - 1) / n
  {
    var q, r, a, b := x / n, x % n, k / n, k % n;
    Parts(x, n);
    Parts(k, n);
    DivParts(q, r, a, b, n);
    DivParts(a, b, 0, n - 1, n);
    assert n * 0 + (n - 1) == n - 1;
  }

  lemma Parts(x: nat, n: nat)
    requires n > 0
    ensures x == n * (x / n) + x % n && x % n < n
  {
  }

  lemma Aligned(m: nat, n: nat, p: nat)
    requires p < n
    ensures (m + n - p) % n == 0 <==> m % n == p
  {
    var q, r := m / n, m % n;
    assert m == n * q + r;
    if r >= p {
      assert m + n - p == n * (q + 1) + (r - p);
      DivUnique(m + n - p, n, q + 1, r - p);
    } else {
      assert m + n - p == n * q + (r + n - p);
      DivUnique(m + n - p, n, q, r + n - p);
    }
  }

  // ---- fairness ----

  /** The counter value at selection i agrees with the plain count on the position. */
  predicate Seamless(counter: nat, n: nat, k: nat)
    requires n > 0
  {
    counter + k <= SIZE_T || SIZE_T % n == 0
  }

  lemma PickPlain(counter: nat, n: nat, i: nat)
    requires n > 0 && (counter + i < SIZE_T || SIZE_T % n == 0)
    ensures Pick(counter, n, i) == (counter + i) % n
  {
    if counter + i >= SIZE_T {
      ModMod(counter + i, SIZE_T, n);
    }
  }

  lemma ModMod(x: nat, m: nat, n: nat)
    requires n > 0 && m > 0 && m % n == 0
    ensures x % m % n == x % n
  {
    var q, r, s := x / m, x % m, m / n;
    Parts(x, m);
    Parts(m, n);
    Parts(r, n);
    Regrouped(n, s, q, r / n, r % n);
    DivUnique(x, n, s * q + r / n, r % n);
  }

  lemma Regrouped(n: nat, s: nat, q: nat, a: nat, b: nat)
    ensures (n * s + 0) * q + (n * a + b) == n * (s * q + a) + b
  {
    assert (n * s) * q == n * (s * q);
    assert n * (s * q + a) == n * (s * q) + n * a;
  }

  lemma {:induction false} HitsAreQuotients(counter: nat, n: nat, k: nat, p: nat)
    requires p < n && Seamless(counter, n, k)
    ensures Hits(counter, n, k, p) == (counter + k + n - 1 - p) / n - (counter + n - 1 - p) / n
    decreases k
  {
    if k > 0 {
      HitsAreQuotients(counter, n, k - 1, p);
      PickPlain(counter, n, k - 1);
      DivStep(counter + k - 1 + n - 1 - p, n);
      Aligned(counter + k - 1, n, p);
    }
  }

  ghost predicate Fair(counter: nat, n: nat, k: nat)
    requires n > 0
  {
    forall p :: 0 <= p < n ==> k / n <= Hits(counter, n, k, p) <= (k + n - 1) / n
  }

  /** Round robin is fair: in k selections every position is taken k / n times, rounded
      down or up. */
  lemma RoundRobinFair(counter: nat, n: nat, k: nat)
    requires n > 0 && Seamless(counter, n, k)
    ensures Fair(counter, n, k)
  {
    forall p | 0 <= p < n
      ensures k / n <= Hits(counter, n, k, p) <= (k + n - 1) / n
    {
      HitsAreQuotients(counter, n, k, p);
      DivSum(counter + n - 1 - p, k, n);
    }
  }

  /** Across the wrap of the counter it is fair only for lists whose length divides 2^64:
      otherwise position 0 comes round too early. */
  lemma FairForeverIff(n: nat)
    requires 0 < n < SIZE_T
    ensures (forall counter: nat, k: nat :: counter < SIZE_T ==> Fair(counter, n, k)) <==> SIZE_T % n == 0
  {
    if SIZE_T % n == 0 {
      forall counter: nat, k: nat | counter < SIZE_T ensures Fair(counter, n, k) {
        RoundRobinFair(counter, n, k);
      }
    } else {
      var r := SIZE_T % n;
      var counter := SIZE_T - r;
      SeamRepeats(n, r, counter);
      assert !Fair(counter, n, r + 1);
    }
  }

  lemma SeamPicks(n: nat, r: nat, counter: nat)
    requires 0 < n < SIZE_T && r == SIZE_T % n && r > 0 && counter == SIZE_T - r
    ensures Pick(counter, n, 0) == 0 && Pick(counter, n, r) == 0
  {
    var q := SIZE_T / n;
    assert SIZE_T == n * q + r;
    DivUnique(counter, n, q, 0);
    PickPlain(counter, n, 0);
    assert (counter + r) % SIZE_T == 0;
    DivUnique(0, n, 0, 0);
  }

  lemma SeamRepeats(n: nat, r: nat, counter: nat)
    requires 0 < n < SIZE_T && r == SIZE_T % n && r > 0 && counter == SIZE_T - r
    ensures !Fair(counter, n, r + 1)
  {
    hide Pick, Hits;
    SeamPicks(n, r, counter);
    HitsGrow(counter, n, 1, r);
    TwoHits(counter, n, r);
    CeilOne(r + 1, n);
    assert !((r + 1) / n <= Hits(counter, n, r + 1, 0) <= (r + 1 + n - 1) / n);
  }

  lemma TwoHits(counter: nat, n: nat, r: nat)
    requires n > 0 && r > 0 && Pick(counter, n, 0) == 0 && Pick(counter, n, r) == 0
    requires Hits(counter, n, 1, 0) <= Hits(counter, n, r, 0)
    ensures Hits(counter, n, r + 1, 0) >= 2
  {
    hide Pick;
    assert Hits(counter, n, 1, 0) == Hits(counter, n, 0, 0) + 1;
  }

  lemma {:induction false} HitsGrow(counter: nat, n: nat, j: nat, k: nat)
    requires n > 0 && j <= k
    ensures Hits(counter, n, j, 0) <= Hits(counter, n, k, 0)
    decreases k
  {
    if j < k {
      HitsGrow(counter, n, j, k - 1);
    }
  }

  lemma CeilOne(k: nat, n: nat)
    requires 0 < k <= n
    ensures (k + n - 1) / n == 1
  {
    assert k + n - 1 == n * 1 + (k - 1);
    DivUnique(k + n - 1, n, 1, k - 1);
  }
}
