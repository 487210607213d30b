/**
 * The single-point search find_cube_quadruplets_improved (app.py, lines 5-111): fix
 * d = a + n and the target d^3 - a^3, walk b down from a - 1 under an iteration cap, ask
 * the candidate generator for c, and keep (a, b, c, d) only when c^3 reconstructs
 * target - b^3 exactly and d > a > b > c > 0.
 */
module SingleSearch {
  import opened Wrappers
  import opened Quadruplets
  import opened CubeRoot

  /** Replacement for a non-positive max_iterations (app.py, line 13). */
  const DefaultMaxIterations := 10000

  function EffectiveCap(maxIterations: int): nat {
    if maxIterations > 0 then maxIterations else DefaultMaxIterations
  }

  /**
   * The tuples found, the number of times the loop counter was incremented, and whether
   * the loop stopped at the cap ("Search stopped after ... iterations").
   */
  datatype Search = Search(quads: seq<Quad>, iterations: nat, capHit: bool)

  /**
   * What one value of b contributes (app.py, lines 55-80): at most one tuple. The guards
   * b >= a, b >= d and the comparisons of c with a and d are kept although the loop bounds
   * make them redundant.
   */
  function Probe(a: int, n: int, b: int, guess: int -> int): seq<Quad> {
    var d := a + n;
    var needed := (Cube(d) - Cube(a)) - Cube(b);
    if b >= a || b >= d then []
    else if needed <= 0 then []
    else
      var c := guess(needed);
      if Cube(c) == needed
         && c > 0 && c < b && c < a && c < d && c != a && c != b && c != d
         && Cube(a) + Cube(b) + Cube(c) - Cube(d) == 0
      then [Quad(a, b, c, d)]
      else []
  }

  /** The tuples found while b runs from hi down to lo, in the order they are found. */
  function Scan(a: int, n: int, guess: int -> int, hi: int, lo: int): seq<Quad>
    decreases hi - lo + 1
  {
    if lo > hi then [] else Scan(a, n, guess, hi, lo + 1) + Probe(a, n, lo, guess)
  }

  /** The last b examined before the cap stops the loop (1 when it never does). */
  function LowestB(a: int, cap: nat): int {
    if a - 1 > cap then a - cap else 1
  }

  /** The outcome of the b-loop for anchor a, gap n and a positive cap. */
  function SearchSpec(a: int, n: int, cap: nat, guess: int -> int): Search {
    var over := a - 1 > cap;
    Search(Scan(a, n, guess, a - 1, LowestB(a, cap)),
           if over then cap + 1 else if a >= 1 then a - 1 else 0,
           over)
  }

  predicate DescendingB(s: seq<Quad>) {
    forall i, j :: 0 <= i < j < |s| ==> s[i].b > s[j].b
  }

  // ---------------------------------------------------------------------------------
  // The loop

  /** The b-loop (app.py, lines 34-80; repeated with the same logic for each cell at app.py, lines 163-192). */
  method SearchLoop(a: int, n: int, cap: nat, guess: int -> int) returns (s: Search)
    ensures s == SearchSpec(a, n, cap, guess)
    ensures s.capHit <==> a - 1 > cap
    ensures s.capHit ==> s.iterations == cap + 1
    ensures forall q :: q in s.quads ==> SolutionFor(q, a, n)
    ensures DescendingB(s.quads)
  {
    var d := a + n;
    var targetSum := Cube(d) - Cube(a);
    var quads: seq<Quad> := [];
    var iterations: nat := 0;
    var capHit := false;
    var b := a - 1;
    while b > 0
      invariant b <= a - 1 && (b >= 0 || b == a - 1)
      invariant iterations == a - 1 - b <= cap
      invariant quads == Scan(a, n, guess, a - 1, b + 1)
      decreases b
    {
      iterations := iterations + 1;
      if iterations > cap {
        capHit := true;
        break;
      }
      var found := TryB(a, n, b, targetSum, guess);
      quads := quads + found;
      b := b - 1;
    }
    s := Search(quads, iterations, capHit);
    ScanSound(a, n, guess, a - 1, LowestB(a, cap));
    ScanDescending(a, n, guess, a - 1, LowestB(a, cap));
  }

  /**
   * The body of the b-loop after the cap test (app.py, lines 55-80): what one b contributes.
   * It follows Probe step by step and exists to keep the loop's proof small; the promises
   * about a single b are ProbeSound and ProbeFinds.
   */
  method TryB(a: int, n: int, b: int, targetSum: int, guess: int -> int) returns (found: seq<Quad>)
    requires targetSum == Cube(a + n) - Cube(a)
    ensures found == Probe(a, n, b, guess)
  {
    var d := a + n;
    found := [];
    if b < a && b < d {
      var cCubedNeeded := targetSum - Cube(b);
      if cCubedNeeded > 0 {
        var c := guess(cCubedNeeded);
        if Cube(c) == cCubedNeeded {
          if c > 0 && c < b && c < a && c < d && c != a && c != b && c != d {
            if Cube(a) + Cube(b) + Cube(c) - Cube(d) == 0 {
              found := [Quad(a, b, c, d)];
            }
          }
        }
      }
    }
  }

  /** find_cube_quadruplets_improved(a, n, max_iterations) */
  method FindCubeQuadrupletsImproved(a: int, n: int, maxIterations: int, guess: int -> int)
    returns (r: Result<Search, InputError>)
    ensures a <= 0 || n <= 0 ==> r == Err(AnchorOrGapNotPositive)
    ensures a > 0 && n > 0 ==> r == Ok(SearchSpec(a, n, EffectiveCap(maxIterations), guess))
    ensures r.Ok? ==> forall q :: q in r.value.quads ==> SolutionFor(q, a, n)
    ensures r.Ok? ==> DescendingB(r.value.quads) && NoDuplicates(r.value.quads)
  {
    if a <= 0 || n <= 0 {
      return Err(AnchorOrGapNotPositive);
    }
    var s := SearchLoop(a, n, EffectiveCap(maxIterations), guess);
    DescendingHasNoDuplicates(s.quads);
    r := Ok(s);
  }

  // ---------------------------------------------------------------------------------
  // Soundness, order and completeness

  /** Each b contributes at most one tuple, and what it contributes is a solution for (a, n). */
  lemma ProbeSound(a: int, n: int, b: int, guess: int -> int)
    ensures |Probe(a, n, b, guess)| <= 1
    ensures forall q :: q in Probe(a, n, b, guess) ==> SolutionFor(q, a, n) && q.b == b
  {
    var p := Probe(a, n, b, guess);
    if p != [] {
      EquationForcesGap(p[0]);
    }
  }

  lemma {:induction false} ScanSound(a: int, n: int, guess: int -> int, hi: int, lo: int)
    ensures forall q :: q in Scan(a, n, guess, hi, lo) ==> SolutionFor(q, a, n) && lo <= q.b <= hi
    decreases hi - lo + 1
  {
    if lo <= hi {
      ScanSound(a, n, guess, hi, lo + 1);
      ProbeSound(a, n, lo, guess);
    }
  }

  /** Tuples are found in strictly descending b. */
  lemma {:induction false} ScanDescending(a: int, n: int, guess: int -> int, hi: int, lo: int)
    ensures DescendingB(Scan(a, n, guess, hi, lo))
    decreases hi - lo + 1
  {
    if lo <= hi {
      var rest := Scan(a, n, guess, hi, lo + 1);
      var p := Probe(a, n, lo, guess);
      ScanDescending(a, n, guess, hi, lo + 1);
      ScanSound(a, n, guess, hi, lo + 1);
      ProbeSound(a, n, lo, guess);
      var s := rest + p;
      forall i, j | 0 <= i < j < |s|
        ensures s[i].b > s[j].b
      {
        if j >= |rest| {
          assert s[i] in rest && s[j] in p;
        }
      }
    }
  }

  lemma DescendingHasNoDuplicates(s: seq<Quad>)
    requires DescendingB(s)
    ensures NoDuplicates(s)
  {
  }

  /** A guess that is exact on perfect cubes makes b = q.b produce exactly q. */
  lemma ProbeFinds(a: int, n: int, guess: int -> int, q: Quad)
    requires ExactOnCubes(guess) && SolutionFor(q, a, n)
    ensures Probe(a, n, q.b, guess) == [q]
  {
    CubePositive(q.c);
    assert guess(Cube(q.c)) == q.c;
  }

  lemma {:induction false} ScanComplete(a: int, n: int, guess: int -> int, hi: int, lo: int, q: Quad)
    requires ExactOnCubes(guess) && SolutionFor(q, a, n) && lo <= q.b <= hi
    ensures q in Scan(a, n, guess, hi, lo)
    decreases hi - lo + 1
  {
    if q.b == lo {
      ProbeFinds(a, n, guess, q);
    } else {
      ScanComplete(a, n, guess, hi, lo + 1, q);
    }
  }

  /**
   * With a guess exact on perfect cubes, the search returns exactly the solutions for
   * (a, n) whose b lies in the part of the range the cap lets it examine; when
   * a - 1 <= cap that is every solution.
   */
  lemma SearchCharacterization(a: int, n: int, cap: nat, guess: int -> int)
    requires a > 0 && n > 0 && ExactOnCubes(guess)
    ensures forall q :: q in SearchSpec(a, n, cap, guess).quads <==>
      SolutionFor(q, a, n) && q.b >= LowestB(a, cap)
    ensures a - 1 <= cap ==>
      forall q :: q in SearchSpec(a, n, cap, guess).quads <==> SolutionFor(q, a, n)
  {
    var lo := LowestB(a, cap);
    ScanSound(a, n, guess, a - 1, lo);
    forall q | SolutionFor(q, a, n) && q.b >= lo
      ensures q in SearchSpec(a, n, cap, guess).quads
    {
      ScanComplete(a, n, guess, a - 1, lo, q);
    }
  }

  /**
   * The classic 3^3 + 4^3 + 5^3 = 6^3 in the search's ordering: anchor 5 and gap 1 find
   * (5, 4, 3, 6) and nothing else.
   */
  lemma FiveOneFindsClassicSolution(cap: nat, guess: int -> int)
    requires ExactOnCubes(guess) && cap >= 4
    ensures SearchSpec(5, 1, cap, guess).quads == [Quad(5, 4, 3, 6)]
  {
    assert guess(Cube(3)) == 3 && guess(Cube(4)) == 4;
    var c := guess(83);
    CubeOrder(c, 4);
    CubeOrder(c, 5);
    assert Probe(5, 1, 2, guess) == [];
    assert Probe(5, 1, 1, guess) == [];
  }
}
