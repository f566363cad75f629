/**
  Linear congruential generators modulo a power of two, and the theorem that makes the
  retry loops of the key schedule stop: a multiplier that is 1 modulo 4 and an odd increment
  give one single cycle through all residues.
 */
module LinearCongruence {

  function Pow2(k: nat): (r: nat)
    ensures r > 0
  {
    if k == 0 then 1 else 2 * Pow2(k - 1)
  }

  /** Multiplication under a name, so that proofs by induction can hide it. */
  function Times(x: int, y: int): int {
    x * y
  }

  function Pow(a: int, n: nat): int {
    if n == 0 then 1 else Times(a, Pow(a, n - 1))
  }

  /** 1 + a + ... + a^(n-1). */
  function Geometric(a: int, n: nat): int {
    if n == 0 then 0 else Times(a, Geometric(a, n - 1)) + 1
  }

  /** One step of the generator. */
  function Next(a: nat, c: nat, m: nat, x: nat): (r: nat)
    requires m > 0
    ensures r < m
  {
    (a * x + c) % m
  }

  /** The state after n steps. */
  function Orbit(a: nat, c: nat, m: nat, x: nat, n: nat): (r: nat)
    requires x < m
    ensures r < m
  {
    if n == 0 then x else Next(a, c, m, Orbit(a, c, m, x, n - 1))
  }

  predicate FullPeriodParameters(a: nat, c: nat) {
    a % 4 == 1 && c % 2 == 1
  }

  // ---- Divisibility by powers of two -----------------------------------------------

  /** 2^k divides x. */
  predicate Divides(k: nat, x: int) {
    k == 0 || (x % 2 == 0 && Divides(k - 1, x / 2))
  }

  /** An odd factor does not help a product to be divisible by a power of two. */
  lemma {:induction false} OddFactorCancels(k: nat, x: int, odd: int)
    requires odd % 2 == 1
    ensures Divides(k, Times(x, odd)) <==> Divides(k, x)
  {
    hide Times;
    if k > 0 {
      OddMultipleParity(odd, x);
      if x % 2 == 0 {
        HalveProduct(x, odd);
        OddFactorCancels(k - 1, x / 2, odd);
      }
    }
  }

  lemma OddMultipleParity(odd: int, x: int)
    requires odd % 2 == 1
    ensures Times(odd, x) % 2 == Times(x, odd) % 2 == x % 2
  {
    hide Times;
    OddProduct(odd / 2, x);
    assert odd == 2 * (odd / 2) + 1;
  }

  lemma OddProduct(i: int, x: int)
    ensures Times(2 * i + 1, x) == Times(x, 2 * i + 1) == 2 * Times(i, x) + x
  {}

  lemma HalveProduct(x: int, y: int)
    requires x % 2 == 0
    ensures Times(x, y) % 2 == 0 && Times(x, y) / 2 == Times(x / 2, y)
  {
    hide Times;
    EvenProduct(x / 2, y);
    assert x == 2 * (x / 2);
  }

  lemma EvenProduct(i: int, y: int)
    ensures Times(2 * i, y) == 2 * Times(i, y)
  {}

  lemma {:induction false} DividesMultiple(k: nat, q: int)
    ensures Divides(k, Times(Pow2(k), q))
  {
    hide Times;
    if k > 0 {
      DividesMultiple(k - 1, q);
      HalveProduct(Pow2(k), q);
    }
  }

  lemma {:induction false} DividesDifference(k: nat, x: int, y: int)
    requires Divides(k, x) && Divides(k, y)
    ensures Divides(k, x - y)
  {
    if k > 0 {
      DividesDifference(k - 1, x / 2, y / 2);
      assert (x - y) / 2 == x / 2 - y / 2;
    }
  }

  /** A number smaller than 2^k in size is divisible by 2^k only when it is zero. */
  lemma {:induction false} DividesSmall(k: nat, x: int)
    requires 0 - Pow2(k) < x < Pow2(k)
    ensures Divides(k, x) <==> x == 0
  {
    if k > 0 && x % 2 == 0 {
      DividesSmall(k - 1, x / 2);
    }
  }

  // ---- The geometric sum --------------------------------------------------------------

  lemma {:induction false} GeometricTelescopes(a: int, n: nat)
    ensures Times(a - 1, Geometric(a, n)) == Pow(a, n) - 1
  {
    hide Times;
    if n == 0 {
      TelescopeStart(a);
    } else {
      GeometricTelescopes(a, n - 1);
      TelescopeStep(a, Geometric(a, n - 1), Pow(a, n - 1));
    }
  }

  lemma TelescopeStart(a: int)
    ensures Times(a - 1, 0) == 0
  {}

  lemma TelescopeStep(a: int, g: int, p: int)
    requires Times(a - 1, g) == p - 1
    ensures Times(a - 1, Times(a, g) + 1) == Times(a, p) - 1
  {
    assert (a - 1) * (a * g + 1) == a * ((a - 1) * g) + a - 1;
  }

  lemma {:induction false} GeometricSplits(a: int, n: nat, k: nat)
    ensures Geometric(a, n + k) == Times(Pow(a, k), Geometric(a, n)) + Geometric(a, k)
  {
    hide Times;
    if k == 0 {
      HornerStart(Geometric(a, n));
    } else {
      GeometricSplits(a, n, k - 1);
      assert n + k - 1 == n + (k - 1);
      HornerStep(a, Pow(a, k - 1), Geometric(a, n), Geometric(a, k - 1));
    }
  }

  lemma HornerStart(g: int)
    ensures Times(1, g) == g
  {}

  lemma HornerStep(a: int, p: int, g: int, h: int)
    ensures Times(a, Times(p, g) + h) == Times(Times(a, p), g) + Times(a, h)
  {
    assert a * (p * g + h) == (a * p) * g + a * h;
  }

  lemma {:induction false} PowOneModFour(a: int, n: nat)
    requires a % 4 == 1
    ensures Pow(a, n) % 4 == 1
  {
    hide Times;
    if n > 0 {
      PowOneModFour(a, n - 1);
      ProductOneModFour(a, Pow(a, n - 1));
    }
  }

  lemma ProductOneModFour(x: int, y: int)
    requires x % 4 == 1 && y % 4 == 1
    ensures Times(x, y) % 4 == 1
  {
    var i, j := x / 4, y / 4;
    assert x * y == (4 * i + 1) * (4 * j + 1) == 4 * (4 * i * j + i + j) + 1;
  }

  lemma {:induction false} GeometricParity(a: int, n: nat)
    requires a % 2 == 1
    ensures Geometric(a, n) % 2 == n % 2
  {
    hide Times;
    if n > 0 {
      GeometricParity(a, n - 1);
      OddMultipleParity(a, Geometric(a, n - 1));
    }
  }

  /** The sum of 2h terms is twice an odd multiple of the sum of h terms. */
  lemma GeometricDoubles(a: int, h: nat) returns (odd: int)
    requires a % 4 == 1
    ensures odd % 2 == 1 && Geometric(a, 2 * h) == 2 * Times(Geometric(a, h), odd)
  {
    hide Times, Geometric, Pow;
    PowOneModFour(a, h);
    var p := Pow(a, h);
    odd := 2 * (p / 4) + 1;
    assert p == 2 * odd - 1;
    GeometricSplits(a, h, h);
    TwiceProduct(Geometric(a, h), odd);
    assert Geometric(a, h + h) == 2 * Times(Geometric(a, h), odd);
  }

  lemma TwiceProduct(g: int, odd: int)
    ensures Times(2 * odd - 1, g) + g == 2 * Times(g, odd)
  {}

  lemma HalvedSum(a: int, n: nat) returns (h: nat, odd: int)
    requires a % 4 == 1 && n % 2 == 0
    ensures n == 2 * h && odd % 2 == 1 && Geometric(a, n) == 2 * Times(Geometric(a, h), odd)
  {
    hide Times, Geometric;
    h := n / 2;
    odd := GeometricDoubles(a, h);
  }

  /** The sum of n terms is divisible by 2^k exactly when n is. */
  lemma {:induction false} GeometricDivisibility(a: int, n: nat, k: nat)
    requires a % 4 == 1
    ensures Divides(k, Geometric(a, n)) <==> Divides(k, n)
    decreases k
  {
    hide Times, Geometric;
    if k > 0 {
      GeometricParity(a, n);
      if n % 2 == 0 {
        var h, odd := HalvedSum(a, n);
        var t := Times(Geometric(a, h), odd);
        OddFactorCancels(k - 1, Geometric(a, h), odd);
        GeometricDivisibility(a, h, k - 1);
        assert Divides(k - 1, t) <==> Divides(k - 1, h);
        DividesTwice(k, t);
        DividesTwice(k, h);
      }
    }
  }

  lemma DividesTwice(k: nat, x: int)
    requires k > 0
    ensures Divides(k, 2 * x) <==> Divides(k - 1, x)
  {}

  // ---- The orbit ------------------------------------------------------------------------

  lemma NextWitness(a: nat, c: nat, m: nat, x: nat) returns (t: int)
    requires m > 0
    ensures Next(a, c, m, x) == Times(a, x) + c - Times(m, t)
  {
    t := (a * x + c) / m;
  }

  lemma AffineStep(a: int, c: int, m: int, x: int, p: int, g: int, q: int, t: int)
    ensures Times(a, Times(p, x) + Times(c, g) - Times(m, q)) + c - Times(m, t)
         == Times(Times(a, p), x) + Times(c, Times(a, g) + 1) - Times(m, Times(a, q) + t)
  {
    assert a * (p * x + c * g - m * q) == (a * p) * x + c * (a * g) - m * (a * q);
  }

  lemma AffineStart(c: int, m: int, x: int)
    ensures Times(1, x) + Times(c, 0) - Times(m, 0) == x
  {}

  /** The orbit in closed form, with the multiple of the modulus as witness. */
  lemma {:induction false} OrbitClosedForm(a: nat, c: nat, m: nat, x: nat, n: nat) returns (q: int)
    requires x < m
    ensures Orbit(a, c, m, x, n) == Times(Pow(a, n), x) + Times(c, Geometric(a, n)) - Times(m, q)
  {
    hide Times, Next;
    if n == 0 {
      q := 0;
      AffineStart(c, m, x);
    } else {
      var q0 := OrbitClosedForm(a, c, m, x, n - 1);
      var t := NextWitness(a, c, m, Orbit(a, c, m, x, n - 1));
      q := Times(a, q0) + t;
      AffineStep(a, c, m, x, Pow(a, n - 1), Geometric(a, n - 1), q0, t);
    }
  }

  /** How far n steps move the state: a multiple of the geometric sum by an odd number. */
  lemma Displacement(a: int, c: int, x: int, p: int, g: int) returns (odd: int)
    requires a % 2 == 1 && c % 2 == 1
    requires Times(a - 1, g) == p - 1
    ensures odd % 2 == 1 && Times(p, x) + Times(c, g) - x == Times(g, odd)
  {
    hide Times;
    odd := Times(a, x) - x + c;
    OddMultipleParity(a, x);
    DisplacementProduct(a, c, x, g);
    assert p == Times(a - 1, g) + 1;
  }

  lemma DisplacementProduct(a: int, c: int, x: int, g: int)
    ensures Times(Times(a - 1, g) + 1, x) + Times(c, g) - x == Times(g, Times(a, x) - x + c)
  {
    assert ((a - 1) * g + 1) * x == (a * g) * x - g * x + x;
    assert g * (a * x - x + c) == (a * g) * x - g * x + c * g;
  }

  /** A state recurs only after a multiple of 2^k steps. */
  lemma OrbitReturns(a: nat, c: nat, k: nat, x: nat, n: nat)
    requires FullPeriodParameters(a, c) && x < Pow2(k)
    ensures Orbit(a, c, Pow2(k), x, n) == x <==> Divides(k, n)
  {
    hide Orbit, Pow, Geometric, Times, Pow2;
    var m, g := Pow2(k), Geometric(a, n);
    var q := OrbitClosedForm(a, c, m, x, n);
    GeometricTelescopes(a, n);
    var odd := Displacement(a, c, x, Pow(a, n), g);
    OddFactorCancels(k, g, odd);
    GeometricDivisibility(a, n, k);
    DividesMultiple(k, q);
    var d := Orbit(a, c, m, x, n) - x;
    assert d == Times(g, odd) - Times(m, q);
    DividesSmall(k, d);
    if Divides(k, Times(g, odd)) {
      DividesDifference(k, Times(g, odd), Times(m, q));
    }
  }

  lemma {:induction false} OrbitComposes(a: nat, c: nat, m: nat, x: nat, i: nat, j: nat)
    requires x < m
    ensures Orbit(a, c, m, Orbit(a, c, m, x, i), j) == Orbit(a, c, m, x, i + j)
  {
    hide Next;
    if j > 0 {
      OrbitComposes(a, c, m, x, i, j - 1);
    }
  }

  lemma OrbitDistinct(a: nat, c: nat, k: nat, x: nat, i: nat, j: nat)
    requires FullPeriodParameters(a, c) && x < Pow2(k)
    requires i < j && j - i < Pow2(k)
    ensures Orbit(a, c, Pow2(k), x, i) != Orbit(a, c, Pow2(k), x, j)
  {
    hide Orbit;
    OrbitComposes(a, c, Pow2(k), x, i, j - i);
    OrbitReturns(a, c, k, Orbit(a, c, Pow2(k), x, i), j - i);
    DividesSmall(k, j - i);
  }

  // ---- Every residue is reached ------------------------------------------------------------

  function Below(n: nat): (r: set<nat>)
    ensures forall i: nat :: i in r <==> i < n
  {
    if n == 0 then {} else Below(n - 1) + {n - 1}
  }

  lemma {:induction false} BelowSize(n: nat)
    ensures |Below(n)| == n
  {
    if n > 0 {
      BelowSize(n - 1);
      var smaller := Below(n - 1);
      assert n - 1 !in smaller;
      assert |smaller + {n - 1}| == |smaller| + 1;
    }
  }

  ghost function Visited(a: nat, c: nat, m: nat, x: nat, n: nat): set<nat>
    requires x < m
  {
    if n == 0 then {} else Visited(a, c, m, x, n - 1) + {Orbit(a, c, m, x, n - 1)}
  }

  lemma {:induction false} VisitedIndex(a: nat, c: nat, m: nat, x: nat, n: nat, y: nat) returns (i: nat)
    requires x < m && y in Visited(a, c, m, x, n)
    ensures i < n && Orbit(a, c, m, x, i) == y
  {
    hide Orbit;
    if y == Orbit(a, c, m, x, n - 1) {
      i := n - 1;
    } else {
      i := VisitedIndex(a, c, m, x, n - 1, y);
    }
  }

  lemma {:induction false} VisitedSize(a: nat, c: nat, k: nat, x: nat, n: nat)
    requires FullPeriodParameters(a, c) && x < Pow2(k) && n <= Pow2(k)
    ensures |Visited(a, c, Pow2(k), x, n)| == n
    ensures forall y :: y in Visited(a, c, Pow2(k), x, n) ==> y in Below(Pow2(k))
  {
    hide Orbit, Pow2, Below;
    if n > 0 {
      VisitedSize(a, c, k, x, n - 1);
      var y := Orbit(a, c, Pow2(k), x, n - 1);
      if y in Visited(a, c, Pow2(k), x, n - 1) {
        var i := VisitedIndex(a, c, Pow2(k), x, n - 1, y);
        OrbitDistinct(a, c, k, x, i, n - 1);
      }
      assert y !in Visited(a, c, Pow2(k), x, n - 1);
    }
  }

  lemma SubsetOfSameSize<T>(s: set<T>, t: set<T>)
    requires s <= t && |s| == |t|
    ensures s == t
  {
    var rest := t - s;
    assert t == s + rest;
    assert |t| == |s| + |rest|;
  }

  /** Full period: from any state, any residue is reached within one cycle. */
  lemma OrbitReaches(a: nat, c: nat, k: nat, x: nat, y: nat) returns (n: nat)
    requires FullPeriodParameters(a, c) && x < Pow2(k) && y < Pow2(k)
    ensures n < Pow2(k) && Orbit(a, c, Pow2(k), x, n) == y
  {
    hide Orbit;
    var m := Pow2(k);
    var v := Visited(a, c, m, x, m);
    VisitedSize(a, c, k, x, m);
    BelowSize(m);
    SubsetOfSameSize(v, Below(m));
    n := VisitedIndex(a, c, m, x, m, y);
  }
}
