/**
 * Common factors of a quadruplet (app-p.py, lines 8-19): the gcd of several values as a
 * left fold of the two-argument gcd, the primitivity test, and the reduction of a
 * quadruplet to its primitive form together with the factor removed.
 */
module Primitive {
  import opened Wrappers
  import opened Quadruplets

  function Abs(x: int): nat { if x < 0 then -x else x }

  /** Python's math.gcd: Euclid's algorithm on the magnitudes, with gcd(0, 0) = 0. */
  function Gcd(x: int, y: int): nat
    decreases Abs(y)
  {
    if y == 0 then Abs(x) else Gcd(y, Abs(x) % Abs(y))
  }

  /** functools.reduce(gcd, xs): gcd(...gcd(gcd(xs[0], xs[1]), xs[2])..., xs[|xs|-1]). */
  function GcdMultiple(xs: seq<int>): (g: int)
    requires |xs| > 0
    ensures |xs| >= 2 ==> g >= 0
  {
    if |xs| == 1 then xs[0] else Gcd(GcdMultiple(xs[..|xs| - 1]), xs[|xs| - 1])
  }

  function Components(q: Quad): seq<int> { [q.a, q.b, q.c, q.d] }

  /** find_gcd_multiple(a, b, c, d) */
  function CommonFactor(q: Quad): nat {
    GcdMultiple(Components(q))
  }

  /** is_primitive_solution(a, b, c, d) */
  predicate IsPrimitive(q: Quad) {
    CommonFactor(q) == 1
  }

  const Zero := Quad(0, 0, 0, 0)

  predicate Divides(k: int, x: int)
    requires k > 0
  {
    x % k == 0
  }

  predicate DividesAll(k: int, q: Quad)
    requires k > 0
  {
    Divides(k, q.a) && Divides(k, q.b) && Divides(k, q.c) && Divides(k, q.d)
  }

  /** A quadruplet divided by its common factor, and that factor. */
  datatype Reduction = Reduction(p: Quad, commonFactor: nat)

  /**
   * get_primitive_form(a, b, c, d). The divisions are exact, so Python's floor division
   * and Dafny's Euclidean division agree. For the all-zero tuple the common factor is 0
   * and the source divides by zero: None.
   */
  function GetPrimitiveForm(q: Quad): Option<Reduction> {
    var g := CommonFactor(q);
    if g == 0 then None
    else Some(Reduction(Quad(q.a / g, q.b / g, q.c / g, q.d / g), g))
  }

  // ---------------------------------------------------------------------------------
  // Divisibility

  lemma MultipleIsDivisible(k: int, m: int)
    requires k > 0
    ensures Divides(k, k * m)
  {
    var u := k * m;
    var t := m - u / k;
    assert u == k * (u / k) + u % k;
    assert k * t == u % k;
    ProductBounds(k, t);
  }

  lemma DividesCombination(k: int, x: int, y: int, t: int)
    requires k > 0 && Divides(k, x) && Divides(k, y)
    ensures Divides(k, x - t * y)
  {
    var p, r := x / k, y / k;
    assert x == k * p;
    assert y == k * r;
    assert x - t * y == k * (p - t * r);
    MultipleIsDivisible(k, p - t * r);
  }

  lemma DividesAbs(k: int, x: int)
    requires k > 0
    ensures Divides(k, x) <==> Divides(k, Abs(x))
  {
    MultipleIsDivisible(k, 0);
    if Divides(k, x) {
      DividesCombination(k, 0, x, 1);
    }
    if Divides(k, -x) {
      DividesCombination(k, 0, -x, 1);
    }
  }

  lemma DividesItself(k: int)
    requires k > 0
    ensures Divides(k, k)
  {
    MultipleIsDivisible(k, 1);
  }

  // ---------------------------------------------------------------------------------
  // gcd

  lemma {:induction false} GcdZero(x: int, y: int)
    ensures Gcd(x, y) == 0 <==> x == 0 && y == 0
    decreases Abs(y)
  {
    if y != 0 {
      GcdZero(y, Abs(x) % Abs(y));
    }
  }

  /** For a divisor k of y, k divides x % y exactly when it divides x. */
  lemma DividesRemainder(k: int, x: nat, y: nat)
    requires k > 0 && y > 0 && Divides(k, y)
    ensures Divides(k, x % y) <==> Divides(k, x)
  {
    var t, r := x / y, x % y;
    assert x == t * y + r;
    if Divides(k, x) {
      DividesCombination(k, x, y, t);
      assert x - t * y == r;
    }
    if Divides(k, r) {
      DividesCombination(k, r, y, -t);
      assert r - (-t) * y == x;
    }
  }

  /** The divisors of gcd(x, y) are exactly the common divisors of x and y. */
  lemma {:induction false} GcdCommonDivisors(x: int, y: int, k: int)
    requires k > 0
    ensures Divides(k, Gcd(x, y)) <==> Divides(k, x) && Divides(k, y)
    decreases Abs(y)
  {
    DividesAbs(k, x);
    if y == 0 {
      MultipleIsDivisible(k, 0);
    } else {
      GcdCommonDivisors(y, Abs(x) % Abs(y), k);
      DividesAbs(k, y);
      if Divides(k, y) {
        DividesRemainder(k, Abs(x), Abs(y));
      }
    }
  }

  lemma CommonFactorUnfold(q: Quad)
    ensures CommonFactor(q) == Gcd(Gcd(Gcd(q.a, q.b), q.c), q.d)
  {
    var s1, s2, s3, s4 := [q.a], [q.a, q.b], [q.a, q.b, q.c], Components(q);
    assert s2[..1] == s1 && s3[..2] == s2 && s4[..3] == s3;
    assert GcdMultiple(s2) == Gcd(q.a, q.b);
    assert GcdMultiple(s3) == Gcd(GcdMultiple(s2), q.c);
    assert GcdMultiple(s4) == Gcd(GcdMultiple(s3), q.d);
  }

  /** The divisors of the common factor are exactly the common divisors of the four values. */
  lemma CommonFactorDivisors(q: Quad, k: int)
    requires k > 0
    ensures Divides(k, CommonFactor(q)) <==> DividesAll(k, q)
  {
    CommonFactorUnfold(q);
    GcdCommonDivisors(q.a, q.b, k);
    GcdCommonDivisors(Gcd(q.a, q.b), q.c, k);
    GcdCommonDivisors(Gcd(Gcd(q.a, q.b), q.c), q.d, k);
  }

  lemma CommonFactorZero(q: Quad)
    ensures CommonFactor(q) == 0 <==> q == Zero
  {
    CommonFactorUnfold(q);
    GcdZero(q.a, q.b);
    GcdZero(Gcd(q.a, q.b), q.c);
    GcdZero(Gcd(Gcd(q.a, q.b), q.c), q.d);
  }

  /** The common factor divides all four values (unless they are all zero). */
  lemma CommonFactorDividesAll(q: Quad)
    requires q != Zero
    ensures CommonFactor(q) > 0 && DividesAll(CommonFactor(q), q)
  {
    CommonFactorZero(q);
    DividesItself(CommonFactor(q));
    CommonFactorDivisors(q, CommonFactor(q));
  }

  /** is_primitive_solution holds exactly when no integer above 1 divides all four values. */
  lemma PrimitiveIffNoCommonDivisor(q: Quad)
    ensures IsPrimitive(q) <==> q != Zero && forall k :: k > 1 ==> !DividesAll(k, q)
  {
    CommonFactorZero(q);
    if IsPrimitive(q) {
      forall k | k > 1
        ensures !DividesAll(k, q)
      {
        CommonFactorDivisors(q, k);
      }
    }
    if q != Zero {
      CommonFactorDividesAll(q);
    }
  }

  // ---------------------------------------------------------------------------------
  // Primitive form

  /**
   * Round trip: the reduction fails only for the all-zero tuple; otherwise its factor is
   * the common factor and multiplying back by it restores the original quadruplet.
   */
  lemma PrimitiveFormRoundTrip(q: Quad)
    ensures GetPrimitiveForm(q).None? <==> q == Zero
    ensures GetPrimitiveForm(q).Some? ==>
      var r := GetPrimitiveForm(q).value;
      r.commonFactor == CommonFactor(q) && Scale(r.p, r.commonFactor) == q
  {
    CommonFactorZero(q);
    if q != Zero {
      var g := CommonFactor(q);
      CommonFactorDividesAll(q);
      assert q.a == g * (q.a / g);
      assert q.b == g * (q.b / g);
      assert q.c == g * (q.c / g);
      assert q.d == g * (q.d / g);
    }
  }

  /** A factor h with g * (h * t) == g for positive g and h must be 1. */
  lemma UnitFactor(g: int, h: int, t: int)
    requires g > 0 && h > 0 && g == g * (h * t)
    ensures h == 1
  {
    MultiplyByPositive(g, h * t, 1);
    ProductBounds(h, t);
  }

  /** The reduced quadruplet is primitive. */
  lemma PrimitiveFormIsPrimitive(q: Quad)
    requires q != Zero
    ensures GetPrimitiveForm(q).Some? && IsPrimitive(GetPrimitiveForm(q).value.p)
  {
    PrimitiveFormRoundTrip(q);
    var r := GetPrimitiveForm(q).value;
    var p, g := r.p, r.commonFactor;
    CommonFactorZero(q);
    assert p != Zero;
    CommonFactorDividesAll(p);
    var h := CommonFactor(p);
    ScaledCommonDivisor(p, g, h);
    CommonFactorDivisors(q, g * h);
    DivisorOfItself(g, h);
  }

  /** When h divides every component of p, g * h divides every component of g * p. */
  lemma ScaledCommonDivisor(p: Quad, g: int, h: int)
    requires g > 0 && h > 0 && DividesAll(h, p)
    ensures g * h > 0 && DividesAll(g * h, Scale(p, g))
  {
    ScaledDivisor(g, h, p.a);
    ScaledDivisor(g, h, p.b);
    ScaledDivisor(g, h, p.c);
    ScaledDivisor(g, h, p.d);
  }

  /** If g * h divides g, for positive g and h, then h is 1. */
  lemma DivisorOfItself(g: int, h: int)
    requires g > 0 && h > 0 && g * h > 0 && Divides(g * h, g)
    ensures h == 1
  {
    var t := g / (g * h);
    assert g == (g * h) * t;
    assert g == g * (h * t);
    UnitFactor(g, h, t);
  }

  lemma ProductOfPositives(g: int, h: int)
    requires g > 0 && h > 0
    ensures g * h > 0
  {
    ProductBounds(g, h);
  }

  lemma ScaledDivisor(g: int, h: int, x: int)
    requires g > 0 && h > 0 && Divides(h, x)
    ensures g * h > 0 && Divides(g * h, g * x)
  {
    ProductOfPositives(g, h);
    assert x == h * (x / h);
    assert g * x == (g * h) * (x / h);
    MultipleIsDivisible(g * h, x / h);
  }

  /** A primitive quadruplet is its own primitive form, with factor 1. */
  lemma PrimitiveFormOfPrimitive(q: Quad)
    requires IsPrimitive(q)
    ensures GetPrimitiveForm(q) == Some(Reduction(q, 1))
  {
  }

  /**
   * Reducing a solution gives a primitive solution; when all four values are positive the
   * reduced values are positive too.
   */
  lemma PrimitiveFormOfSolution(q: Quad)
    requires IsSolution(q)
    ensures GetPrimitiveForm(q).Some?
    ensures IsSolution(GetPrimitiveForm(q).value.p) && IsPrimitive(GetPrimitiveForm(q).value.p)
  {
    assert q != Zero;
    PrimitiveFormRoundTrip(q);
    PrimitiveFormIsPrimitive(q);
    var r := GetPrimitiveForm(q).value;
    CommonFactorZero(q);
    ScaleSolution(r.p, r.commonFactor);
  }
}
