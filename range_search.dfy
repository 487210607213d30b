/**
 * The grid search find_cube_quadruplets_range (app.py, lines 114-222): reject non-positive
 * bounds, swap reversed bounds, then run the b-loop of the single search for every (a, n)
 * in row-major order and concatenate what each combination finds.
 */
module RangeSearch {
  import opened Wrappers
  import opened Quadruplets
  import opened CubeRoot
  import opened SingleSearch
  import opened Grids

  /** Replacement for a non-positive max_iterations_per_combo (app.py, line 121). */
  const DefaultMaxIterationsPerCombo := 5000

  datatype RangeResult = RangeResult(quads: seq<Quad>, combinationsTested: nat, combinationsWithSolutions: nat)

  function Low(x: int, y: int): int { if x > y then y else x }
  function High(x: int, y: int): int { if x > y then x else y }

  /** The list one combination contributes: the b-loop's tuples for that (a, n). */
  function CellSearch(cap: nat, guess: int -> int): (int, int) -> seq<Quad> {
    (a, n) => SearchSpec(a, n, cap, guess).quads
  }

  function RangeSpec(aStart: int, aEnd: int, nStart: int, nEnd: int, maxIterationsPerCombo: int,
                     guess: int -> int): Result<RangeResult, InputError>
  {
    if aStart <= 0 || aEnd <= 0 || nStart <= 0 || nEnd <= 0 then Err(RangeBoundNotPositive)
    else
      var aLo, aHi := Low(aStart, aEnd), High(aStart, aEnd);
      var nLo, nHi := Low(nStart, nEnd), High(nStart, nEnd);
      var cap := if maxIterationsPerCombo > 0 then maxIterationsPerCombo else DefaultMaxIterationsPerCombo;
      var cell := CellSearch(cap, guess);
      Ok(RangeResult(Grid(aLo, aHi, nLo, nHi, cell),
                     CellCount(aLo, aHi, nLo, nHi),
                     NonEmptyCells(aLo, aHi, nLo, nHi, cell)))
  }

  /** find_cube_quadruplets_range(a_start, a_end, n_start, n_end, max_iterations_per_combo) */
  method FindCubeQuadrupletsRange(aStart: int, aEnd: int, nStart: int, nEnd: int,
                                  maxIterationsPerCombo: int, guess: int -> int)
    returns (r: Result<RangeResult, InputError>)
    ensures r == RangeSpec(aStart, aEnd, nStart, nEnd, maxIterationsPerCombo, guess)
    ensures r.Ok? ==> forall q :: q in r.value.quads ==>
      IsSolution(q) && InWindow(q, Low(aStart, aEnd), High(aStart, aEnd), Low(nStart, nEnd), High(nStart, nEnd))
    ensures r.Ok? ==> NoDuplicates(r.value.quads)
    ensures r.Ok? ==>
      r.value.combinationsTested
        == (High(aStart, aEnd) - Low(aStart, aEnd) + 1) * (High(nStart, nEnd) - Low(nStart, nEnd) + 1)
  {
    if aStart <= 0 || aEnd <= 0 || nStart <= 0 || nEnd <= 0 {
      return Err(RangeBoundNotPositive);
    }
    var aLo, aHi := aStart, aEnd;
    if aLo > aHi {
      aLo, aHi := aHi, aLo;
    }
    var nLo, nHi := nStart, nEnd;
    if nLo > nHi {
      nLo, nHi := nHi, nLo;
    }
    var cap: nat := if maxIterationsPerCombo > 0 then maxIterationsPerCombo else DefaultMaxIterationsPerCombo;
    var allQuadruplets, combinationsTested, combinationsWithSolutions := Sweep(aLo, aHi, nLo, nHi, cap, guess);
    r := Ok(RangeResult(allQuadruplets, combinationsTested, combinationsWithSolutions));
    RangeSound(aLo, aHi, nLo, nHi, cap, guess);
    CellCountIsProduct(aLo, aHi, nLo, nHi);
  }

  /** The nested a/n loops of app.py, lines 151-192, over normalised bounds. */
  method Sweep(aLo: int, aHi: int, nLo: int, nHi: int, cap: nat, guess: int -> int)
    returns (allQuadruplets: seq<Quad>, combinationsTested: nat, combinationsWithSolutions: nat)
    ensures allQuadruplets == Grid(aLo, aHi, nLo, nHi, CellSearch(cap, guess))
    ensures combinationsTested == CellCount(aLo, aHi, nLo, nHi)
    ensures combinationsWithSolutions == NonEmptyCells(aLo, aHi, nLo, nHi, CellSearch(cap, guess))
  {
    ghost var cell := CellSearch(cap, guess);
    allQuadruplets, combinationsTested, combinationsWithSolutions := [], 0, 0;
    var a := aLo;
    while a <= aHi
      invariant a <= aHi + 1 || a == aLo
      invariant allQuadruplets == Grid(aLo, a - 1, nLo, nHi, cell)
      invariant combinationsTested == CellCount(aLo, a - 1, nLo, nHi)
      invariant combinationsWithSolutions == NonEmptyCells(aLo, a - 1, nLo, nHi, cell)
      decreases aHi - a
    {
      var row, tested, withSolutions := SweepRow(a, nLo, nHi, cap, guess);
      allQuadruplets := allQuadruplets + row;
      combinationsTested := combinationsTested + tested;
      combinationsWithSolutions := combinationsWithSolutions + withSolutions;
      a := a + 1;
    }
  }

  /** The inner n loop for one value of a (app.py, lines 152-192). */
  method SweepRow(a: int, nLo: int, nHi: int, cap: nat, guess: int -> int)
    returns (row: seq<Quad>, tested: nat, withSolutions: nat)
    ensures row == Row(a, nLo, nHi, CellSearch(cap, guess))
    ensures tested == (if nHi < nLo then 0 else nHi - nLo + 1)
    ensures withSolutions == NonEmptyInRow(a, nLo, nHi, CellSearch(cap, guess))
  {
    ghost var cell := CellSearch(cap, guess);
    row, tested, withSolutions := [], 0, 0;
    var n := nLo;
    while n <= nHi
      invariant n <= nHi + 1 || n == nLo
      invariant row == Row(a, nLo, n - 1, cell)
      invariant tested == n - nLo
      invariant withSolutions == NonEmptyInRow(a, nLo, n - 1, cell)
      decreases nHi - n
    {
      tested := tested + 1;
      var s := SearchLoop(a, n, cap, guess);
      var foundForThisCombo := s.quads;
      assert foundForThisCombo == cell(a, n);
      if foundForThisCombo != [] {
        withSolutions := withSolutions + 1;
      }
      row := row + foundForThisCombo;
      n := n + 1;
    }
  }

  lemma CellSearchSound(aLo: int, aHi: int, nLo: int, nHi: int, cap: nat, guess: int -> int)
    ensures CellsSound(aLo, aHi, nLo, nHi, CellSearch(cap, guess))
    ensures forall a, n :: NoDuplicates(CellSearch(cap, guess)(a, n))
  {
    forall a, n
      ensures (forall q :: q in SearchSpec(a, n, cap, guess).quads ==> SolutionFor(q, a, n))
      ensures NoDuplicates(SearchSpec(a, n, cap, guess).quads)
    {
      ScanSound(a, n, guess, a - 1, LowestB(a, cap));
      ScanDescending(a, n, guess, a - 1, LowestB(a, cap));
      DescendingHasNoDuplicates(SearchSpec(a, n, cap, guess).quads);
    }
  }

  /**
   * Every tuple of the sweep is a solution whose anchor and gap lie in the window, and no
   * tuple is repeated.
   */
  lemma RangeSound(aLo: int, aHi: int, nLo: int, nHi: int, cap: nat, guess: int -> int)
    ensures forall q :: q in Grid(aLo, aHi, nLo, nHi, CellSearch(cap, guess)) ==>
      IsSolution(q) && InWindow(q, aLo, aHi, nLo, nHi)
    ensures NoDuplicates(Grid(aLo, aHi, nLo, nHi, CellSearch(cap, guess)))
  {
    CellSearchSound(aLo, aHi, nLo, nHi, cap, guess);
    GridSound(aLo, aHi, nLo, nHi, CellSearch(cap, guess));
    GridNoDuplicates(aLo, aHi, nLo, nHi, CellSearch(cap, guess));
  }

  /**
   * With a guess exact on perfect cubes and a cap no smaller than aHi - 1, the sweep
   * reports every solution whose anchor and gap lie in the window.
   */
  lemma RangeComplete(aLo: int, aHi: int, nLo: int, nHi: int, cap: nat, guess: int -> int, q: Quad)
    requires ExactOnCubes(guess) && aHi - 1 <= cap
    requires IsSolution(q) && InWindow(q, aLo, aHi, nLo, nHi) && nLo > 0
    ensures q in Grid(aLo, aHi, nLo, nHi, CellSearch(cap, guess))
  {
    var a, n := q.a, q.d - q.a;
    SearchCharacterization(a, n, cap, guess);
    assert q in CellSearch(cap, guess)(a, n);
    GridContainsCells(aLo, aHi, nLo, nHi, CellSearch(cap, guess), a, n, q);
  }

  /** Reversed bounds give the same outcome as the bounds in order. */
  lemma RangeSwapInvariant(aStart: int, aEnd: int, nStart: int, nEnd: int, maxIterationsPerCombo: int,
                           guess: int -> int)
    ensures RangeSpec(aEnd, aStart, nStart, nEnd, maxIterationsPerCombo, guess)
         == RangeSpec(aStart, aEnd, nStart, nEnd, maxIterationsPerCombo, guess)
    ensures RangeSpec(aStart, aEnd, nEnd, nStart, maxIterationsPerCombo, guess)
         == RangeSpec(aStart, aEnd, nStart, nEnd, maxIterationsPerCombo, guess)
  {
  }

  /**
   * combinations_with_solutions never exceeds combinations_tested, and is zero exactly
   * when no quadruplet was found.
   */
  lemma RangeCounts(aStart: int, aEnd: int, nStart: int, nEnd: int, maxIterationsPerCombo: int,
                    guess: int -> int)
    requires RangeSpec(aStart, aEnd, nStart, nEnd, maxIterationsPerCombo, guess).Ok?
    ensures var r := RangeSpec(aStart, aEnd, nStart, nEnd, maxIterationsPerCombo, guess).value;
      r.combinationsWithSolutions <= r.combinationsTested
      && (r.combinationsWithSolutions == 0 <==> r.quads == [])
  {
    var aLo, aHi := Low(aStart, aEnd), High(aStart, aEnd);
    var nLo, nHi := Low(nStart, nEnd), High(nStart, nEnd);
    var cap := if maxIterationsPerCombo > 0 then maxIterationsPerCombo else DefaultMaxIterationsPerCombo;
    var cell := CellSearch(cap, guess);
    NonEmptyCellsZero(aLo, aHi, nLo, nHi, cell);
    NonEmptyCellsAtMost(aLo, aHi, nLo, nHi, cell);
    CellCountIsProduct(aLo, aHi, nLo, nHi);
  }

  lemma {:induction false} NonEmptyInRowAtMost(a: int, nLo: int, nHi: int, cell: (int, int) -> seq<Quad>)
    requires nLo <= nHi + 1
    ensures NonEmptyInRow(a, nLo, nHi, cell) <= nHi - nLo + 1
    decreases nHi - nLo + 1
  {
    if nLo <= nHi {
      NonEmptyInRowAtMost(a, nLo, nHi - 1, cell);
    }
  }

  lemma {:induction false} NonEmptyCellsAtMost(aLo: int, aHi: int, nLo: int, nHi: int, cell: (int, int) -> seq<Quad>)
    requires aLo <= aHi + 1 && nLo <= nHi + 1
    ensures NonEmptyCells(aLo, aHi, nLo, nHi, cell) <= (aHi - aLo + 1) * (nHi - nLo + 1)
    decreases aHi - aLo + 1
  {
    if aLo <= aHi {
      NonEmptyCellsAtMost(aLo, aHi - 1, nLo, nHi, cell);
      NonEmptyInRowAtMost(aHi, nLo, nHi, cell);
      assert (aHi - aLo + 1) * (nHi - nLo + 1) == (aHi - 1 - aLo + 1) * (nHi - nLo + 1) + (nHi - nLo + 1);
    }
  }
}
