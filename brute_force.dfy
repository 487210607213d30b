/**
 * The exhaustive search find_cube_quadruplets(a, n) of quadrapulets.py (lines 1-12): a
 * double loop over b from a - 1 down to 2 and c from b - 1 down to 1 that keeps every pair
 * with b^3 + c^3 = (a + n)^3 - a^3. It validates nothing and has no iteration cap, so it
 * serves as the reference the cube-root search is compared with.
 */
module BruteForce {
  import opened Quadruplets
  import opened CubeRoot
  import opened SingleSearch

  /** The pairs found for one b while c runs from b - 1 down to lo, in order. */
  function CScan(a: int, n: int, b: int, lo: int): seq<Quad>
    decreases b - lo
  {
    if lo >= b then []
    else
      var d := a + n;
      CScan(a, n, b, lo + 1)
        + (if Cube(b) + Cube(lo) == Cube(d) - Cube(a) then [Quad(a, b, lo, d)] else [])
  }

  /** The tuples found while b runs from a - 1 down to lo, in order. */
  function BScan(a: int, n: int, lo: int): seq<Quad>
    decreases a - lo
  {
    if lo >= a then [] else BScan(a, n, lo + 1) + CScan(a, n, lo, 1)
  }

  /** The list find_cube_quadruplets(a, n) returns. */
  function BruteSpec(a: int, n: int): seq<Quad> {
    BScan(a, n, 2)
  }

  method FindCubeQuadruplets(a: int, n: int) returns (results: seq<Quad>)
    ensures results == BruteSpec(a, n)
    ensures a <= 2 ==> results == []
    ensures forall q :: q in results ==> SolutionFor(q, a, n)
  {
    var d := a + n;
    var target := Cube(d) - Cube(a);
    results := [];
    var b := a - 1;
    while b > 1
      invariant b <= a - 1 && (b >= 1 || b == a - 1)
      invariant results == BScan(a, n, b + 1)
      decreases b
    {
      var c := b - 1;
      while c > 0
        invariant 0 <= c <= b - 1
        invariant results == BScan(a, n, b + 1) + CScan(a, n, b, c + 1)
        decreases c
      {
        if Cube(b) + Cube(c) == target {
          results := results + [Quad(a, b, c, d)];
        }
        c := c - 1;
      }
      b := b - 1;
    }
    BruteSound(a, n);
  }

  // ---------------------------------------------------------------------------------
  // Soundness, completeness, order

  lemma {:induction false} CScanSound(a: int, n: int, b: int, lo: int)
    requires lo >= 1
    ensures forall q :: q in CScan(a, n, b, lo) ==>
      q.a == a && q.b == b && q.d == a + n && lo <= q.c < b && Equation(q)
    decreases b - lo
  {
    if lo < b {
      CScanSound(a, n, b, lo + 1);
    }
  }

  lemma {:induction false} BScanSound(a: int, n: int, lo: int)
    requires lo >= 2
    ensures forall q :: q in BScan(a, n, lo) ==> SolutionFor(q, a, n) && lo <= q.b
    decreases a - lo
  {
    if lo < a {
      BScanSound(a, n, lo + 1);
      CScanSound(a, n, lo, 1);
      forall q | q in CScan(a, n, lo, 1)
        ensures SolutionFor(q, a, n)
      {
        EquationForcesGap(q);
      }
    }
  }

  /**
   * Every returned tuple is a solution with d = a + n; in particular d > a, which the
   * function never checks: b^3 + c^3 > 0 forces it.
   */
  lemma BruteSound(a: int, n: int)
    ensures forall q :: q in BruteSpec(a, n) ==> SolutionFor(q, a, n)
  {
    BScanSound(a, n, 2);
  }

  lemma {:induction false} CScanComplete(a: int, n: int, b: int, lo: int, q: Quad)
    requires q.a == a && q.b == b && q.d == a + n && Equation(q) && lo <= q.c < b
    ensures q in CScan(a, n, b, lo)
    decreases b - lo
  {
    if q.c != lo {
      CScanComplete(a, n, b, lo + 1, q);
    }
  }

  lemma {:induction false} BScanComplete(a: int, n: int, lo: int, q: Quad)
    requires SolutionFor(q, a, n) && lo <= q.b
    ensures q in BScan(a, n, lo)
    decreases a - lo
  {
    if q.b == lo {
      CScanComplete(a, n, lo, 1, q);
    } else {
      BScanComplete(a, n, lo + 1, q);
    }
  }

  /** Completeness: every (b, c) with a > b > c > 0 and b^3 + c^3 = d^3 - a^3 is reported. */
  lemma BruteComplete(a: int, n: int, b: int, c: int)
    requires a > b > c > 0 && Cube(b) + Cube(c) == Cube(a + n) - Cube(a)
    ensures Quad(a, b, c, a + n) in BruteSpec(a, n)
  {
    var q := Quad(a, b, c, a + n);
    EquationForcesGap(q);
    BScanComplete(a, n, 2, q);
  }

  /** Results come in descending b, and for equal b in descending c. */
  predicate DescendingBThenC(s: seq<Quad>) {
    forall i, j :: 0 <= i < j < |s| ==> s[i].b > s[j].b || (s[i].b == s[j].b && s[i].c > s[j].c)
  }

  lemma {:induction false} CScanDescending(a: int, n: int, b: int, lo: int)
    requires lo >= 1
    ensures DescendingBThenC(CScan(a, n, b, lo))
    decreases b - lo
  {
    if lo < b {
      CScanDescending(a, n, b, lo + 1);
      CScanSound(a, n, b, lo + 1);
      var rest := CScan(a, n, b, lo + 1);
      var s := CScan(a, n, b, lo);
      forall i, j | 0 <= i < j < |s|
        ensures s[i].b > s[j].b || (s[i].b == s[j].b && s[i].c > s[j].c)
      {
        if j >= |rest| {
          assert s[i] in rest;
        }
      }
    }
  }

  lemma {:induction false} BScanDescending(a: int, n: int, lo: int)
    requires lo >= 2
    ensures DescendingBThenC(BScan(a, n, lo))
    decreases a - lo
  {
    if lo < a {
      BScanDescending(a, n, lo + 1);
      BScanSound(a, n, lo + 1);
      CScanDescending(a, n, lo, 1);
      CScanSound(a, n, lo, 1);
      var rest := BScan(a, n, lo + 1);
      var row := CScan(a, n, lo, 1);
      var s := rest + row;
      forall i, j | 0 <= i < j < |s|
        ensures s[i].b > s[j].b || (s[i].b == s[j].b && s[i].c > s[j].c)
      {
        if i >= |rest| {
          assert s[i] == row[i - |rest|] && s[j] == row[j - |rest|];
        } else if j >= |rest| {
          assert s[i] in rest && s[j] in row;
        }
      }
    }
  }

  lemma BruteOrdered(a: int, n: int)
    ensures DescendingBThenC(BruteSpec(a, n)) && NoDuplicates(BruteSpec(a, n))
  {
    BScanDescending(a, n, 2);
  }

  // ---------------------------------------------------------------------------------
  // Equivalence with the cube-root search

  /**
   * For one b, the c-loop finds the single c the exact guess proposes, if that c is below
   * b and reconstructs the needed cube.
   */
  lemma {:induction false} CScanIsGuess(a: int, n: int, b: int, lo: int, guess: int -> int)
    requires ExactOnCubes(guess) && lo >= 1
    ensures
      var needed := (Cube(a + n) - Cube(a)) - Cube(b);
      var c := guess(needed);
      CScan(a, n, b, lo) ==
        if needed > 0 && lo <= c < b && Cube(c) == needed then [Quad(a, b, c, a + n)] else []
    decreases b - lo
  {
    if lo < b {
      CScanIsGuess(a, n, b, lo + 1, guess);
      var needed := (Cube(a + n) - Cube(a)) - Cube(b);
      if Cube(lo) == needed {
        CubePositive(lo);
        assert guess(Cube(lo)) == lo;
      } else if needed > 0 && Cube(guess(needed)) == needed {
        assert guess(needed) != lo;
      }
    }
  }

  lemma ProbeIsCScan(a: int, n: int, b: int, guess: int -> int)
    requires ExactOnCubes(guess) && a > 0 && n > 0 && 1 <= b < a
    ensures Probe(a, n, b, guess) == CScan(a, n, b, 1)
  {
    CScanIsGuess(a, n, b, 1, guess);
  }

  lemma {:induction false} ScanIsBScan(a: int, n: int, guess: int -> int, lo: int)
    requires ExactOnCubes(guess) && a > 0 && n > 0 && 2 <= lo <= a
    ensures Scan(a, n, guess, a - 1, lo) == BScan(a, n, lo)
    decreases a - lo
  {
    if lo < a {
      ScanIsBScan(a, n, guess, lo + 1);
      ProbeIsCScan(a, n, lo, guess);
    }
  }

  /**
   * With a guess that is exact on perfect cubes and a cap of at least a - 1, the
   * cube-root search returns exactly the brute-force list, in the same order.
   */
  lemma SearchMatchesBruteForce(a: int, n: int, cap: nat, guess: int -> int)
    requires ExactOnCubes(guess) && a > 0 && n > 0 && a - 1 <= cap
    ensures SearchSpec(a, n, cap, guess).quads == BruteSpec(a, n)
  {
    if a >= 2 {
      ScanIsBScan(a, n, guess, 2);
      assert Probe(a, n, 1, guess) == [];
    }
  }
}
