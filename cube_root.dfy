/**
 * Cube-root candidates. The source guesses c as round(needed ** (1/3)) in floating point
 * (app.py, lines 68-69) and then confirms c^3 == needed with exact integers. The model
 * takes the guess as a parameter `guess: int -> int`: soundness of the searches holds for
 * every guess, completeness for every guess that is exact on perfect cubes. Cbrt, the
 * exact integer cube root, is such a guess.
 */
module CubeRoot {
  import opened Quadruplets

  /** The guess returns c whenever it is given the cube of a positive c. */
  ghost predicate ExactOnCubes(guess: int -> int) {
    forall c :: c > 0 ==> guess(Cube(c)) == c
  }

  lemma CubeAtLeastRoot(m: int)
    requires m >= 1
    ensures Cube(m) >= m
  {
    ProductBounds(m, m);
    ProductBounds(m * m, m);
  }

  /** The largest r in [0, hi] with r^3 <= x. */
  function CbrtBelow(x: int, hi: nat): (r: nat)
    requires 0 <= x < Cube(hi + 1)
    ensures Cube(r) <= x < Cube(r + 1)
    decreases hi
  {
    if Cube(hi) <= x then hi else CbrtBelow(x, hi - 1)
  }

  /** The exact floor cube root of a non-negative x; 0 for negative x. */
  function Cbrt(x: int): (r: int)
    ensures x >= 0 ==> r >= 0 && Cube(r) <= x < Cube(r + 1)
  {
    if x <= 0 then 0
    else
      CubeAtLeastRoot(x + 1);
      CbrtBelow(x, x)
  }

  lemma CbrtIsExactOnCubes()
    ensures ExactOnCubes(Cbrt)
  {
    forall c | c > 0
      ensures Cbrt(Cube(c)) == c
    {
      CubePositive(c);
      var r := Cbrt(Cube(c));
      CubeOrder(c, r);
      CubeOrder(c, r + 1);
    }
  }
}
