/** Arithmetic on the `cap` slots of a probe table, laid out on a circle. */
module Circle {
  /** The slot after i: the sources' (i + 1) & mask and (i + 1) % cap. */
  function Next(i: nat, cap: nat): nat
    requires i < cap
  {
    if i + 1 == cap then 0 else i + 1
  }

  /** The slot d steps after a. */
  function At(a: nat, d: nat, cap: nat): nat
    requires a < cap && d < cap
  {
    if a + d < cap then a + d else a + d - cap
  }

  /** How many steps lead from a forward to b. */
  function Dist(a: nat, b: nat, cap: nat): nat
    requires a < cap && b < cap
  {
    if a <= b then b - a else b + cap - a
  }

  lemma AtDist(a: nat, b: nat, cap: nat)
    requires a < cap && b < cap
    ensures Dist(a, b, cap) < cap && At(a, Dist(a, b, cap), cap) == b
  {
  }

  lemma DistAt(a: nat, d: nat, cap: nat)
    requires a < cap && d < cap
    ensures At(a, d, cap) < cap && Dist(a, At(a, d, cap), cap) == d
  {
  }

  /** The sources write both with remainders. */
  lemma ByRemainder(a: nat, d: nat, cap: nat)
    requires a < cap && d < cap
    ensures (a + d) % cap == At(a, d, cap)
    ensures (a + 1) % cap == Next(a, cap)
  {
    Mod1(a + d, cap);
    Mod1(a + 1, cap);
  }

  lemma Mod1(x: nat, cap: nat)
    requires 0 < cap && x < 2 * cap
    ensures x % cap == if x < cap then x else x - cap
  {
    if x >= cap {
      assert x == cap * 1 + (x - cap);
      assert x / cap == 1;
    }
  }

  /** The remainder of i, by counting round the circle. */
  function Slot(i: nat, cap: nat): (r: nat)
    requires 0 < cap
    ensures r < cap
  {
    if i < cap then i else Slot(i - cap, cap)
  }

  lemma {:induction false} SlotIsRemainder(i: nat, cap: nat)
    requires 0 < cap
    ensures Slot(i, cap) == i % cap
  {
    if i < cap {
    } else {
      SlotIsRemainder(i - cap, cap);
      OneTurn(i - cap, cap);
    }
  }

  lemma OneTurn(i: nat, cap: nat)
    requires 0 < cap
    ensures (i + cap) % cap == i % cap
  {
    Remainder(i + cap, cap, i / cap + 1, i % cap);
  }

  /** Quotient and remainder are unique. */
  lemma Remainder(n: nat, d: nat, k: nat, r: nat)
    requires d > 0 && n == d * k + r && r < d
    ensures n % d == r && n / d == k
  {
    var q := n / d - k;
    assert d * q == r - n % d;
    assert q >= 1 ==> d * q >= d;
    assert q <= -1 ==> d * q <= 0 - d;
  }

  /** Fewer than `cap` consecutive counts fall on different slots. */
  lemma {:induction false} Apart(i: nat, j: nat, cap: nat)
    requires 0 < cap && i < j < i + cap
    ensures Slot(i, cap) != Slot(j, cap)
  {
    if i < cap {
    } else {
      Apart(i - cap, j - cap, cap);
    }
  }

  /** The slot after that of count i is the slot of count i + 1. */
  lemma {:induction false} Successor(i: nat, cap: nat)
    requires 0 < cap
    ensures Slot(Slot(i, cap) + 1, cap) == Slot(i + 1, cap)
  {
    if i < cap {
    } else {
      Successor(i - cap, cap);
    }
  }

  /** A set with fewer than n elements misses some slot below n. */
  lemma {:induction false} Missing(s: set<nat>, n: nat) returns (e: nat)
    requires |s| < n
    ensures e < n && e !in s
    decreases n
  {
    if n - 1 in s {
      assert |s - {n - 1}| == |s| - 1;
      e := Missing(s - {n - 1}, n - 1);
    } else {
      e := n - 1;
    }
  }

  lemma {:induction false} SubsetSize<T>(a: set<T>, b: set<T>)
    requires a <= b
    ensures |a| <= |b|
    decreases |a|
  {
    if a == {} {
    } else {
      var x :| x in a;
      SubsetSize(a - {x}, b - {x});
    }
  }
}
