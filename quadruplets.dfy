/**
 * Cube quadruplets (a, b, c, d) with a^3 + b^3 + c^3 = d^3 and d > a > b > c > 0,
 * and the arithmetic facts about cubes that every search in the model relies on.
 * Integers are unbounded, as Python's are, so no width is modelled.
 */
module Quadruplets {

  /** A candidate quadruplet, in the source's tuple order (a, b, c, d). */
  datatype Quad = Quad(a: int, b: int, c: int, d: int)

  /** Why a search rejects its parameters before doing any work. */
  datatype InputError =
    | AnchorOrGapNotPositive   // "Both 'a' and 'n' must be positive integers"
    | RangeBoundNotPositive    // "All values must be positive integers"

  function Cube(x: int): int { x * x * x }

  /** The cube equation, in the form a^3 + b^3 + c^3 = d^3. */
  predicate Equation(q: Quad) {
    Cube(q.a) + Cube(q.b) + Cube(q.c) == Cube(q.d)
  }

  /** The ordering constraint d > a > b > c > 0 (which makes the four values distinct). */
  predicate Ordered(q: Quad) {
    q.d > q.a > q.b > q.c > 0
  }

  predicate IsSolution(q: Quad) {
    Equation(q) && Ordered(q)
  }

  /** q is a solution found for anchor a and gap n, that is with d = a + n. */
  predicate SolutionFor(q: Quad, a: int, n: int) {
    q.a == a && q.d == a + n && IsSolution(q)
  }

  /** Componentwise multiplication by a factor. */
  function Scale(q: Quad, f: int): Quad {
    Quad(f * q.a, f * q.b, f * q.c, f * q.d)
  }

  predicate NoDuplicates(s: seq<Quad>) {
    forall i, j :: 0 <= i < j < |s| ==> s[i] != s[j]
  }

  lemma CubeOfNegation(x: int)
    ensures Cube(-x) == -Cube(x)
  {
  }

  lemma CubeIncreasingOnNaturals(x: int, y: int)
    requires 0 <= x < y
    ensures Cube(x) < Cube(y)
  {
    assert x * x <= y * y by {
      assert x * x <= x * y;
      assert x * y <= y * y;
    }
    assert x * x * x <= y * y * x;
    assert y * y * x < y * y * y by {
      assert y * y > 0;
    }
  }

  /** Cubing is strictly increasing on all integers. */
  lemma CubeIncreasing(x: int, y: int)
    requires x < y
    ensures Cube(x) < Cube(y)
  {
    if 0 <= x {
      CubeIncreasingOnNaturals(x, y);
    } else if y <= 0 {
      CubeIncreasingOnNaturals(-y, -x);
      CubeOfNegation(x);
      CubeOfNegation(y);
    } else {
      CubeIncreasingOnNaturals(0, -x);
      CubeOfNegation(x);
      CubeIncreasingOnNaturals(0, y);
    }
  }

  /** Cubes compare as their roots do; in particular cubing is injective. */
  lemma CubeOrder(x: int, y: int)
    ensures x < y <==> Cube(x) < Cube(y)
    ensures x == y <==> Cube(x) == Cube(y)
  {
    if x < y {
      CubeIncreasing(x, y);
    } else if y < x {
      CubeIncreasing(y, x);
    }
  }

  lemma CubePositive(x: int)
    ensures x > 0 <==> Cube(x) > 0
  {
    CubeOrder(0, x);
  }

  lemma CubeOfProduct(f: int, x: int)
    ensures Cube(f * x) == Cube(f) * Cube(x)
  {
    calc {
      Cube(f * x);
      (f * x) * (f * x) * (f * x);
      { assert (f * x) * (f * x) == (f * f) * (x * x); }
      (f * f) * (x * x) * (f * x);
      (f * f * f) * (x * x * x);
    }
  }

  /** How a product with a positive factor k compares with k. */
  lemma ProductBounds(k: int, m: int)
    requires k > 0
    ensures m >= 1 ==> k * m >= k
    ensures m <= -1 ==> k * m <= -k
    ensures m == 0 ==> k * m == 0
  {
    if m >= 1 {
      assert k * m == k * (m - 1) + k;
      assert k * (m - 1) >= 0;
    } else if m <= -1 {
      assert k * m == -(k * (-m - 1)) - k;
      assert k * (-m - 1) >= 0;
    }
  }

  lemma MultiplyByPositive(k: int, x: int, y: int)
    requires k > 0
    ensures k * x == k * y <==> x == y
    ensures k * x < k * y <==> x < y
  {
    if x < y {
      assert k * y - k * x == k * (y - x);
      ProductBounds(k, y - x);
    } else if y < x {
      assert k * x - k * y == k * (x - y);
      ProductBounds(k, x - y);
    }
  }

  /**
   * Homogeneity of the cube equation: scaling by a positive factor keeps a solution a
   * solution, and only solutions scale to solutions.
   */
  lemma ScaleSolution(q: Quad, f: int)
    requires f > 0
    ensures IsSolution(Scale(q, f)) <==> IsSolution(q)
  {
    ScaleEquation(q, f);
    ScaleOrdered(q, f);
  }

  /** Both sides of the equation are multiplied by f^3, which is positive. */
  lemma ScaleEquation(q: Quad, f: int)
    requires f > 0
    ensures Equation(Scale(q, f)) <==> Equation(q)
  {
    var k := Cube(f);
    var lhs := Cube(q.a) + Cube(q.b) + Cube(q.c);
    CubeOfProduct(f, q.a);
    CubeOfProduct(f, q.b);
    CubeOfProduct(f, q.c);
    CubeOfProduct(f, q.d);
    CubePositive(f);
    assert k * Cube(q.a) + k * Cube(q.b) + k * Cube(q.c) == k * lhs;
    MultiplyByPositive(k, lhs, Cube(q.d));
  }

  /** Multiplying by a positive factor keeps every comparison of the ordering. */
  lemma ScaleOrdered(q: Quad, f: int)
    requires f > 0
    ensures Ordered(Scale(q, f)) <==> Ordered(q)
  {
    MultiplyByPositive(f, q.a, q.d);
    MultiplyByPositive(f, q.b, q.a);
    MultiplyByPositive(f, q.c, q.b);
    MultiplyByPositive(f, 0, q.c);
  }

  /**
   * The equation alone forces d > a whenever b and c are positive: b^3 + c^3 > 0 means
   * d^3 > a^3.
   */
  lemma EquationForcesGap(q: Quad)
    requires Equation(q) && q.b > 0 && q.c > 0
    ensures q.d > q.a
  {
    CubePositive(q.b);
    CubePositive(q.c);
    CubeOrder(q.a, q.d);
  }
}
