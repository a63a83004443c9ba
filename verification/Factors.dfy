/** Divisibility, Euclid's algorithm and primes, as far as the factorisation needs them. */
module Divisibility {
  import Circle

  ghost predicate IsProduct(n: nat, d: nat, k: nat) { n == d * k }

  ghost predicate Divides(d: nat, n: nat) {
    exists k: nat :: IsProduct(n, d, k)
  }

  predicate Prime(p: nat) {
    p >= 2 && forall d :: 2 <= d < p ==> p % d != 0
  }

  function Gcd(a: nat, b: nat): nat
    decreases b
  {
    if b == 0 then a else Gcd(b, a % b)
  }

  lemma Witness(d: nat, k: nat)
    ensures Divides(d, d * k) && Divides(d, k * d)
  {
    assert IsProduct(d * k, d, k);
    assert d * k == k * d;
  }

  lemma Transitive(c: nat, d: nat, n: nat)
    requires Divides(c, d) && Divides(d, n)
    ensures Divides(c, n)
  {
    var j: nat :| IsProduct(d, c, j);
    var k: nat :| IsProduct(n, d, k);
    assert n == c * (j * k) by { Assoc(c, j, k); }
    Witness(c, j * k);
  }

  lemma Assoc(a: int, b: int, c: int)
    ensures (a * b) * c == a * (b * c)
  {
  }

  lemma Distribute(a: int, b: int, c: int)
    ensures a * (b + c) == a * b + a * c && a * (b - c) == a * b - a * c
  {
  }

  /** A common divisor of a and b divides a + k * b and, when that is not negative, a - k * b. */
  lemma Combination(d: nat, a: nat, b: nat, k: nat)
    requires Divides(d, a) && Divides(d, b)
    ensures Divides(d, a + b * k)
    ensures a >= b * k ==> Divides(d, a - b * k)
  {
    var i: nat :| IsProduct(a, d, i);
    var j: nat :| IsProduct(b, d, j);
    Assoc(d, j, k);
    Distribute(d, i, j * k);
    Witness(d, i + j * k);
    if a >= b * k {
      assert d * (i - j * k) >= 0;
      if i >= j * k {
        Witness(d, i - j * k);
      } else {
        assert a - b * k == 0 by { NonPositive(d, i - j * k); }
        Witness(d, 0);
      }
    }
  }

  lemma NonPositive(d: nat, x: int)
    requires x < 0 && d * x >= 0
    ensures d * x == 0
  {
    assert d == 0 || d * x < 0;
  }

  lemma AtMost(d: nat, n: nat)
    requires Divides(d, n) && n > 0
    ensures 0 < d <= n
  {
    var k: nat :| IsProduct(n, d, k);
    Grows(d, k);
  }

  lemma Grows(d: nat, k: nat)
    requires d * k > 0
    ensures d > 0 && k > 0 && d <= d * k
  {
  }

  lemma Antisymmetric(a: nat, b: nat)
    requires Divides(a, b) && Divides(b, a)
    ensures a == b
  {
    if a > 0 { AtMost(b, a); }
    if b > 0 { AtMost(a, b); }
  }

  lemma ByRemainder(d: nat, n: nat)
    requires d > 0
    ensures n % d == 0 <==> Divides(d, n)
  {
    if n % d == 0 {
      assert n == d * (n / d);
      Witness(d, n / d);
    }
    if Divides(d, n) {
      var k: nat :| IsProduct(n, d, k);
      Circle.Remainder(n, d, k, 0);
    }
  }

  lemma Multiple(d: nat, q: int)
    requires d > 0
    ensures q >= 1 ==> d * q >= d
    ensures q <= -1 ==> d * q <= 0 - d
  {
  }

  /** The greatest common divisor divides both numbers, and every common divisor divides it. */
  lemma {:induction false} GcdDivides(a: nat, b: nat)
    ensures Divides(Gcd(a, b), a) && Divides(Gcd(a, b), b)
    decreases b
  {
    if b == 0 {
      Witness(a, 1);
      Witness(a, 0);
    } else {
      GcdDivides(b, a % b);
      Combination(Gcd(b, a % b), a % b, b, a / b);
      assert a == a % b + b * (a / b);
    }
  }

  lemma {:induction false} GcdGreatest(d: nat, a: nat, b: nat)
    requires Divides(d, a) && Divides(d, b)
    ensures Divides(d, Gcd(a, b))
    decreases b
  {
    if b == 0 {
    } else {
      assert a % b == a - b * (a / b);
      Combination(d, a, b, a / b);
      GcdGreatest(d, b, a % b);
    }
  }

  lemma {:induction false} GcdScales(p: nat, x: nat, y: nat)
    requires p > 0
    ensures Gcd(p * x, p * y) == p * Gcd(x, y)
    decreases y
  {
    if y == 0 {
    } else {
      assert x == y * (x / y) + x % y;
      assert p * x == (p * y) * (x / y) + p * (x % y) by {
        Distribute(p, y * (x / y), x % y);
        Assoc(p, y, x / y);
      }
      assert p * (x % y) < p * y by {
        Distribute(p, y, x % y);
        Multiple(p, y - x % y);
      }
      Circle.Remainder(p * x, p * y, x / y, p * (x % y));
      GcdScales(p, y, x % y);
    }
  }

  /** A number that a prime does not divide is coprime to it. */
  lemma PrimeCoprime(p: nat, x: nat)
    requires Prime(p) && !Divides(p, x)
    ensures Gcd(p, x) == 1
  {
    var g := Gcd(p, x);
    GcdDivides(p, x);
    AtMost(g, p);
    if 2 <= g < p {
      ByRemainder(g, p);
    }
  }

  /** Euclid's lemma. */
  lemma PrimeDividesProduct(p: nat, x: nat, y: nat)
    requires Prime(p) && Divides(p, x * y)
    ensures Divides(p, x) || Divides(p, y)
  {
    if !Divides(p, x) {
      PrimeCoprime(p, x);
      Coprime(p, x, y);
    }
  }

  /** What divides x * y and is coprime to x divides y. */
  lemma Coprime(g: nat, x: nat, y: nat)
    requires Divides(g, x * y) && Gcd(g, x) == 1
    ensures Divides(g, y)
  {
    if y == 0 {
      Witness(g, 0);
    } else {
      GcdScales(y, g, x);
      Witness(g, y);
      assert y * x == x * y;
      GcdGreatest(g, y * g, y * x);
    }
  }

  /** A prime factor that the other number lacks does not matter. */
  lemma GcdDrops(p: nat, x: nat, y: nat)
    requires Prime(p) && !Divides(p, y)
    ensures Gcd(p * x, y) == Gcd(x, y)
  {
    var g, h := Gcd(p * x, y), Gcd(x, y);
    GcdDivides(p * x, y);
    GcdDivides(x, y);
    // h divides g
    Witness(x, p);
    Transitive(h, x, p * x);
    GcdGreatest(h, p * x, y);
    // g divides h
    if Divides(p, g) { Transitive(p, g, y); }
    PrimeCoprime(p, g);
    Symmetric(p, g);
    Coprime(g, p, x);
    GcdGreatest(g, x, y);
    Antisymmetric(g, h);
  }

  lemma Symmetric(a: nat, b: nat)
    ensures Gcd(a, b) == Gcd(b, a)
  {
    GcdDivides(a, b);
    GcdDivides(b, a);
    GcdGreatest(Gcd(a, b), b, a);
    GcdGreatest(Gcd(b, a), a, b);
    Antisymmetric(Gcd(a, b), Gcd(b, a));
  }
}

/** The prime factorisation of topics/concurrency/parallel_math/lib.h. */
module Factors {
  import opened Divisibility

  function Product(factors: seq<nat>): nat {
    if factors == [] then 1 else factors[0] * Product(factors[1..])
  }

  ghost predicate AllPrime(factors: seq<nat>) {
    forall i :: 0 <= i < |factors| ==> Prime(factors[i])
  }

  ghost predicate Sorted(factors: seq<nat>) {
    forall i, j :: 0 <= i < j < |factors| ==> factors[i] <= factors[j]
  }

  /** The prime factors of num with multiplicity, in order; none for 0. */
  ghost predicate FactorsOf(factors: seq<nat>, num: nat) {
    && AllPrime(factors) && Sorted(factors)
    && Product(factors) == if num == 0 then 1 else num
  }

  lemma {:induction false} ProductSnoc(factors: seq<nat>, p: nat)
    ensures Product(factors + [p]) == Product(factors) * p
  {
    if factors == [] {
      assert [p][1..] == [];
    } else {
      assert (factors + [p])[1..] == factors[1..] + [p];
      ProductSnoc(factors[1..], p);
      Assoc(factors[0], Product(factors[1..]), p);
    }
  }

  /** A divisor with no smaller divisor left is prime. */
  lemma LeastDivisorIsPrime(i: nat, num: nat)
    requires i >= 2 && num % i == 0
    requires forall d :: 2 <= d < i ==> num % d != 0
    ensures Prime(i)
  {
    forall d | 2 <= d < i ensures i % d != 0 {
      if i % d == 0 {
        ByRemainder(d, i);
        ByRemainder(i, num);
        Transitive(d, i, num);
        ByRemainder(d, num);
      }
    }
  }

  /** What does not divide a number does not divide its quotients. */
  lemma QuotientKeeps(num: nat, i: nat, d: nat)
    requires i > 0 && d > 0 && num % i == 0 && num % d != 0
    ensures (num / i) % d != 0
  {
    if (num / i) % d == 0 {
      ByRemainder(d, num / i);
      assert num == i * (num / i);
      Witness(num / i, i);
      Transitive(d, num / i, num);
      ByRemainder(d, num);
    }
  }

  lemma Shrinks(num: nat, i: nat)
    requires i >= 2 && num >= 1 && num % i == 0
    ensures num == i * (num / i) && 1 <= num / i < num
  {
    var q := num / i;
    assert num == i * q;
    Multiple(i, q);
    Distribute(q, i, 1);
    Multiple(q, i - 1);
  }

  method GetFactors(n: nat) returns (factors: seq<nat>)
    ensures FactorsOf(factors, n)
  {
    factors := [];
    var num := n;
    var i := 2;
    while i <= num
      invariant 2 <= i && num <= n && (num == 0 <==> n == 0) && (n == 0 ==> factors == [])
      invariant Product(factors) * num == n
      invariant AllPrime(factors) && Sorted(factors)
      invariant forall k :: 0 <= k < |factors| ==> factors[k] < i
      invariant forall d :: 2 <= d < i ==> num % d != 0 || num == 0
      decreases n + 2 - i
    {
      while num % i == 0
        invariant 1 <= num <= n
        invariant Product(factors) * num == n
        invariant AllPrime(factors) && Sorted(factors)
        invariant forall k :: 0 <= k < |factors| ==> factors[k] <= i
        invariant forall d :: 2 <= d < i ==> num % d != 0
        decreases num
      {
        LeastDivisorIsPrime(i, num);
        forall d | 2 <= d < i ensures (num / i) % d != 0 { QuotientKeeps(num, i, d); }
        ProductSnoc(factors, i);
        Shrinks(num, i);
        Assoc(Product(factors), i, num / i);
        factors := factors + [i];
        num := num / i;
      }
      if num == 1 {
        break;
      }
      i := i + 1;
    }
    assert num != 0 ==> num % num == 0;
  }

  // ----- Common factors -----

  function IndexOf(list: seq<nat>, elem: nat): (i: nat)
    ensures i <= |list|
    ensures i < |list| ==> list[i] == elem
    ensures i == |list| <==> elem !in list
  {
    if list == [] then 0 else if list[0] == elem then 0 else 1 + IndexOf(list[1..], elem)
  }

  function Erase(list: seq<nat>, i: nat): seq<nat>
    requires i < |list|
  {
    list[..i] + list[i + 1..]
  }

  /** Each element of the first list that the second can still match, which uses up the match. */
  function Common(list1: seq<nat>, list2: seq<nat>): seq<nat>
  {
    if list1 == [] then []
    else
      var i := IndexOf(list2, list1[0]);
      if i < |list2| then [list1[0]] + Common(list1[1..], Erase(list2, i))
      else Common(list1[1..], list2)
  }

  method GetCommonFactors(list1: seq<nat>, list2: seq<nat>) returns (factors: seq<nat>)
    ensures factors == Common(list1, list2)
    ensures multiset(factors) == multiset(list1) * multiset(list2)
  {
    var rest := list2;
    factors := [];
    var k := 0;
    while k < |list1|
      invariant 0 <= k <= |list1|
      invariant Common(list1, list2) == factors + Common(list1[k..], rest)
    {
      var elem := list1[k];
      var it := IndexOf(rest, elem);
      assert list1[k..][0] == elem && list1[k..][1..] == list1[k + 1..];
      if it < |rest| {
        factors := factors + [elem];
        rest := Erase(rest, it);
      }
      k := k + 1;
    }
    assert list1[k..] == [];
    CommonIsIntersection(list1, list2);
  }

  lemma EraseCount(list: seq<nat>, i: nat)
    requires i < |list|
    ensures multiset(list) == multiset(Erase(list, i)) + multiset{list[i]}
  {
    assert list == list[..i] + [list[i]] + list[i + 1..];
  }

  lemma {:induction false} CommonIsIntersection(list1: seq<nat>, list2: seq<nat>)
    ensures multiset(Common(list1, list2)) == multiset(list1) * multiset(list2)
  {
    if list1 == [] {
    } else {
      var i := IndexOf(list2, list1[0]);
      assert list1 == [list1[0]] + list1[1..];
      if i < |list2| {
        EraseCount(list2, i);
        CommonIsIntersection(list1[1..], Erase(list2, i));
      } else {
        CommonIsIntersection(list1[1..], list2);
      }
    }
  }

  // ----- The product of the common factors -----

  lemma {:induction false} EraseProduct(list: seq<nat>, i: nat)
    requires i < |list|
    ensures Product(list) == list[i] * Product(Erase(list, i))
  {
    if i == 0 {
      assert Erase(list, 0) == list[1..];
    } else {
      EraseProduct(list[1..], i - 1);
      assert Erase(list, i)[1..] == Erase(list[1..], i - 1);
      Swap(list[0], list[i], Product(Erase(list[1..], i - 1)));
    }
  }

  lemma Swap(a: nat, b: nat, c: nat)
    ensures a * (b * c) == b * (a * c)
  {
    Assoc(a, b, c);
    Assoc(b, a, c);
  }

  lemma PrimeDividesPrime(p: nat, q: nat)
    requires Prime(p) && Prime(q) && Divides(p, q)
    ensures p == q
  {
    AtMost(p, q);
    ByRemainder(p, q);
  }

  /** A prime divides a product of primes only if it is among them. */
  lemma {:induction false} PrimeAmong(p: nat, list: seq<nat>)
    requires Prime(p) && AllPrime(list) && Divides(p, Product(list))
    ensures p in list
  {
    if list == [] {
      AtMost(p, 1);
    } else {
      PrimeDividesProduct(p, list[0], Product(list[1..]));
      if Divides(p, list[0]) {
        PrimeDividesPrime(p, list[0]);
      } else {
        PrimeAmong(p, list[1..]);
      }
    }
  }

  lemma {:induction false} CommonOfPrimes(list1: seq<nat>, list2: seq<nat>)
    requires AllPrime(list1) && AllPrime(list2)
    ensures Product(Common(list1, list2)) == Gcd(Product(list1), Product(list2))
  {
    if list1 == [] {
      GcdDivides(1, Product(list2));
      AtMost(Gcd(1, Product(list2)), 1);
    } else {
      var p, i := list1[0], IndexOf(list2, list1[0]);
      if i < |list2| {
        var rest := Erase(list2, i);
        CommonOfPrimes(list1[1..], rest);
        EraseProduct(list2, i);
        GcdScales(p, Product(list1[1..]), Product(rest));
        assert Common(list1, list2)[1..] == Common(list1[1..], rest);
      } else {
        CommonOfPrimes(list1[1..], list2);
        if Divides(p, Product(list2)) { PrimeAmong(p, list2); }
        GcdDrops(p, Product(list1[1..]), Product(list2));
      }
    }
  }

  /** The product of the common factors is the greatest common divisor, unless one number is 0 and the other not 1:
      0 has no factors here, but every number divides it. */
  lemma CommonFactorsGiveGcd(a: nat, b: nat, factorsA: seq<nat>, factorsB: seq<nat>)
    requires FactorsOf(factorsA, a) && FactorsOf(factorsB, b)
    ensures Product(Common(factorsA, factorsB)) == Gcd(a, b) <==> (a != 0 && b != 0) || a == 1 || b == 1
  {
    CommonOfPrimes(factorsA, factorsB);
    if a == 0 {
      Symmetric(0, b);
      Symmetric(1, Product(factorsB));
      One(Product(factorsB));
    } else if b == 0 {
      One(Product(factorsA));
    }
  }

  lemma One(n: nat)
    ensures Gcd(n, 1) == 1
  {
    assert Gcd(1, n % 1) == 1;
  }

  /** The factors are determined: there is only one ordered list of primes with a given product. */
  lemma {:induction false} Unique(f: seq<nat>, g: seq<nat>)
    requires AllPrime(f) && Sorted(f) && AllPrime(g) && Sorted(g) && Product(f) == Product(g)
    ensures f == g
  {
    if f == [] || g == [] {
      var h := if f == [] then g else f;
      if h != [] {
        Witness(h[0], Product(h[1..]));
        AtMost(h[0], 1);
      }
    } else {
      Witness(f[0], Product(f[1..]));
      Witness(g[0], Product(g[1..]));
      PrimeAmong(f[0], g);
      PrimeAmong(g[0], f);
      assert f[0] == g[0];
      Cancel(f[0], Product(f[1..]), Product(g[1..]));
      Unique(f[1..], g[1..]);
      assert f == [f[0]] + f[1..] && g == [g[0]] + g[1..];
    }
  }

  lemma Cancel(p: nat, x: nat, y: nat)
    requires p > 0 && p * x == p * y
    ensures x == y
  {
    Distribute(p, x, y);
    Multiple(p, x - y);
  }
}
