/**
 * The range search with factor analysis, find_cube_quadruplets_range_with_factors
 * (app-p.py, lines 251-349). In focus mode, phase 1 runs the factor search with
 * max_factor 1 on every (a, n) of the window and keeps each new primitive tuple (in both
 * all_quadruplets and primitive_solutions); phase 2 scales every primitive by
 * 2 .. max_factor and keeps the multiples that are new and whose anchor and gap lie in the
 * window. Otherwise the lists of the factor search with max_factor are concatenated.
 */
module FactorRange {
  import opened Wrappers
  import opened Quadruplets
  import opened Primitive
  import opened CubeRoot
  import opened SingleSearch
  import opened Grids
  import opened Families
  import opened FactorSearch
  import opened RangeSearch

  /** Replacement for a non-positive max_factor in the range search (app-p.py, line 260). */
  const DefaultRangeMaxFactor := 3

  /** all_quadruplets and primitive_solutions (the latter stays empty outside focus mode). */
  datatype FactorRangeResult = FactorRangeResult(quads: seq<Quad>, primitives: seq<Quad>)

  /** The list a combination contributes: what the factor search returns for it. */
  function FactorCell(cap: nat, maxFactor: int, guess: int -> int): (int, int) -> seq<Quad> {
    (a, n) => FactorQuads(a, n, cap, true, maxFactor, guess)
  }

  /**
   * cell gives, for every combination, the list of the factor search with these settings.
   * The loops below are proved against such a cell; the trigger keeps the search itself
   * out of their proofs.
   */
  ghost predicate IsFactorCell(cell: (int, int) -> seq<Quad>, cap: nat, maxFactor: int, guess: int -> int) {
    forall a, n {:trigger FactorQuads(a, n, cap, true, maxFactor, guess)} ::
      cell(a, n) == FactorQuads(a, n, cap, true, maxFactor, guess)
  }

  lemma FactorCellIsFactorCell(cap: nat, maxFactor: int, guess: int -> int)
    ensures IsFactorCell(FactorCell(cap, maxFactor, guess), cap, maxFactor, guess)
  {
  }

  /** Appending x when it is primitive and not already kept (app-p.py, lines 296-298). */
  function KeepPrimitive(acc: seq<Quad>, x: Quad): seq<Quad> {
    if IsPrimitive(x) && x !in acc then acc + [x] else acc
  }

  /** The kept list after offering the tuples of s in order. */
  function KeepPrimitives(acc: seq<Quad>, s: seq<Quad>): seq<Quad>
    decreases |s|
  {
    if s == [] then acc else KeepPrimitive(KeepPrimitives(acc, s[..|s| - 1]), s[|s| - 1])
  }

  function FactorRangeSpec(aStart: int, aEnd: int, nStart: int, nEnd: int, maxIterationsPerCombo: int,
                           focusOnPrimitives: bool, maxFactor: int, guess: int -> int)
    : Result<FactorRangeResult, InputError>
  {
    if aStart <= 0 || aEnd <= 0 || nStart <= 0 || nEnd <= 0 then Err(RangeBoundNotPositive)
    else
      var aLo, aHi := Low(aStart, aEnd), High(aStart, aEnd);
      var nLo, nHi := Low(nStart, nEnd), High(nStart, nEnd);
      var cap := if maxIterationsPerCombo > 0 then maxIterationsPerCombo else DefaultMaxIterationsPerCombo;
      var maxF := if maxFactor > 0 then maxFactor else DefaultRangeMaxFactor;
      if focusOnPrimitives then
        var prims := KeepPrimitives([], Grid(aLo, aHi, nLo, nHi, FactorCell(cap, 1, guess)));
        Ok(FactorRangeResult(Gen(prims, prims, maxF, Bounded(aLo, aHi, nLo, nHi)), prims))
      else
        Ok(FactorRangeResult(Grid(aLo, aHi, nLo, nHi, FactorCell(cap, maxF, guess)), []))
  }

  // ---------------------------------------------------------------------------------
  // The loops

  /**
   * find_cube_quadruplets_range_with_factors(a_start, a_end, n_start, n_end,
   * max_iterations_per_combo, focus_on_primitives, max_factor)
   */
  method FindCubeQuadrupletsRangeWithFactors(aStart: int, aEnd: int, nStart: int, nEnd: int,
                                             maxIterationsPerCombo: int, focusOnPrimitives: bool,
                                             maxFactor: int, guess: int -> int)
    returns (r: Result<FactorRangeResult, InputError>)
    ensures r == FactorRangeSpec(aStart, aEnd, nStart, nEnd, maxIterationsPerCombo, focusOnPrimitives, maxFactor, guess)
  {
    if aStart <= 0 || aEnd <= 0 || nStart <= 0 || nEnd <= 0 {
      return Err(RangeBoundNotPositive);
    }
    var aLo, aHi := aStart, aEnd;
    if aLo > aHi {
      aLo, aHi := aHi, aLo;
    }
    var nLo, nHi := nStart, nEnd;
    if nLo > nHi {
      nLo, nHi := nHi, nLo;
    }
    var cap: nat := if maxIterationsPerCombo > 0 then maxIterationsPerCombo else DefaultMaxIterationsPerCombo;
    var maxF := if maxFactor > 0 then maxFactor else DefaultRangeMaxFactor;
    var allQuadruplets: seq<Quad>;
    var primitiveSolutions: seq<Quad>;
    if focusOnPrimitives {
      FactorCellIsFactorCell(cap, 1, guess);
      allQuadruplets, primitiveSolutions := PrimitivesPhase(aLo, aHi, nLo, nHi, cap, guess, FactorCell(cap, 1, guess));
      if primitiveSolutions != [] {
        allQuadruplets := Generate(allQuadruplets, primitiveSolutions, maxF, Bounded(aLo, aHi, nLo, nHi));
      }
    } else {
      FactorCellIsFactorCell(cap, maxF, guess);
      allQuadruplets := StandardSweep(aLo, aHi, nLo, nHi, cap, maxF, guess, FactorCell(cap, maxF, guess));
      primitiveSolutions := [];
    }
    r := Ok(FactorRangeResult(allQuadruplets, primitiveSolutions));
  }

  /** Phase 1 (app-p.py, lines 289-298): both lists receive the same primitive tuples. */
  method PrimitivesPhase(aLo: int, aHi: int, nLo: int, nHi: int, cap: nat, guess: int -> int,
                         ghost cell: (int, int) -> seq<Quad>)
    returns (allQuadruplets: seq<Quad>, primitiveSolutions: seq<Quad>)
    requires aLo > 0 && nLo > 0 && cap > 0 && IsFactorCell(cell, cap, 1, guess)
    ensures allQuadruplets == primitiveSolutions == KeepPrimitives([], Grid(aLo, aHi, nLo, nHi, cell))
  {
    allQuadruplets, primitiveSolutions := [], [];
    var a := aLo;
    while a <= aHi
      invariant a <= aHi + 1 || a == aLo
      invariant allQuadruplets == primitiveSolutions == KeepPrimitives([], Grid(aLo, a - 1, nLo, nHi, cell))
      decreases aHi - a
    {
      allQuadruplets, primitiveSolutions := PrimitivesRow(a, nLo, nHi, cap, guess, cell, allQuadruplets, primitiveSolutions);
      KeepGridStep(aLo, a, nLo, nHi, cell);
      a := a + 1;
    }
  }

  /** One row of phase 1: the n loop for a fixed a. */
  method PrimitivesRow(a: int, nLo: int, nHi: int, cap: nat, guess: int -> int,
                       ghost cell: (int, int) -> seq<Quad>, all0: seq<Quad>, prims0: seq<Quad>)
    returns (allQuadruplets: seq<Quad>, primitiveSolutions: seq<Quad>)
    requires a > 0 && nLo > 0 && cap > 0 && all0 == prims0 && IsFactorCell(cell, cap, 1, guess)
    ensures allQuadruplets == primitiveSolutions == KeepPrimitives(all0, Row(a, nLo, nHi, cell))
  {
    allQuadruplets, primitiveSolutions := all0, prims0;
    var n := nLo;
    while n <= nHi
      invariant n <= nHi + 1 || n == nLo
      invariant allQuadruplets == primitiveSolutions == KeepPrimitives(all0, Row(a, nLo, n - 1, cell))
      decreases nHi - n
    {
      allQuadruplets, primitiveSolutions := PrimitivesCell(a, n, cap, guess, cell, allQuadruplets, primitiveSolutions);
      KeepRowStep(all0, a, nLo, n, cell);
      n := n + 1;
    }
  }

  /** One combination of phase 1 (app-p.py, lines 291-298). */
  method PrimitivesCell(a: int, n: int, cap: nat, guess: int -> int, ghost cell: (int, int) -> seq<Quad>,
                        all0: seq<Quad>, prims0: seq<Quad>)
    returns (allQuadruplets: seq<Quad>, primitiveSolutions: seq<Quad>)
    requires a > 0 && n > 0 && cap > 0 && all0 == prims0 && IsFactorCell(cell, cap, 1, guess)
    ensures allQuadruplets == primitiveSolutions == KeepPrimitives(all0, cell(a, n))
  {
    var res := FindCubeQuadrupletsWithFactors(a, n, cap, true, 1, guess);
    var foundQuadruplets := res.value.quads;
    allQuadruplets, primitiveSolutions := KeepNewPrimitives(all0, prims0, foundQuadruplets);
  }

  /** The loop over one combination's tuples (app-p.py, lines 295-298). */
  method KeepNewPrimitives(all0: seq<Quad>, prims0: seq<Quad>, foundQuadruplets: seq<Quad>)
    returns (allQuadruplets: seq<Quad>, primitiveSolutions: seq<Quad>)
    requires all0 == prims0
    ensures allQuadruplets == primitiveSolutions == KeepPrimitives(all0, foundQuadruplets)
  {
    allQuadruplets, primitiveSolutions := all0, prims0;
    for i := 0 to |foundQuadruplets|
      invariant allQuadruplets == primitiveSolutions == KeepPrimitives(all0, foundQuadruplets[..i])
    {
      var quad := foundQuadruplets[i];
      if IsPrimitive(quad) && quad !in allQuadruplets {
        allQuadruplets := allQuadruplets + [quad];
        primitiveSolutions := primitiveSolutions + [quad];
      }
      assert foundQuadruplets[..i + 1][..i] == foundQuadruplets[..i];
    }
    assert foundQuadruplets[..|foundQuadruplets|] == foundQuadruplets;
  }

  /** The mode without primitive focus (app-p.py, lines 329-334). */
  method StandardSweep(aLo: int, aHi: int, nLo: int, nHi: int, cap: nat, maxF: int, guess: int -> int,
                       ghost cell: (int, int) -> seq<Quad>)
    returns (allQuadruplets: seq<Quad>)
    requires aLo > 0 && nLo > 0 && cap > 0 && maxF > 0 && IsFactorCell(cell, cap, maxF, guess)
    ensures allQuadruplets == Grid(aLo, aHi, nLo, nHi, cell)
  {
    allQuadruplets := [];
    var a := aLo;
    while a <= aHi
      invariant a <= aHi + 1 || a == aLo
      invariant allQuadruplets == Grid(aLo, a - 1, nLo, nHi, cell)
      decreases aHi - a
    {
      var row := StandardRow(a, nLo, nHi, cap, maxF, guess, cell);
      allQuadruplets := allQuadruplets + row;
      a := a + 1;
    }
  }

  method StandardRow(a: int, nLo: int, nHi: int, cap: nat, maxF: int, guess: int -> int,
                     ghost cell: (int, int) -> seq<Quad>)
    returns (row: seq<Quad>)
    requires a > 0 && nLo > 0 && cap > 0 && maxF > 0 && IsFactorCell(cell, cap, maxF, guess)
    ensures row == Row(a, nLo, nHi, cell)
  {
    row := [];
    var n := nLo;
    while n <= nHi
      invariant n <= nHi + 1 || n == nLo
      invariant row == Row(a, nLo, n - 1, cell)
      decreases nHi - n
    {
      var foundQuadruplets := StandardCell(a, n, cap, maxF, guess, cell);
      row := row + foundQuadruplets;
      n := n + 1;
    }
  }

  /** One combination without primitive focus (app-p.py, lines 331-334). */
  method StandardCell(a: int, n: int, cap: nat, maxF: int, guess: int -> int, ghost cell: (int, int) -> seq<Quad>)
    returns (foundQuadruplets: seq<Quad>)
    requires a > 0 && n > 0 && cap > 0 && maxF > 0 && IsFactorCell(cell, cap, maxF, guess)
    ensures foundQuadruplets == cell(a, n)
  {
    var res := FindCubeQuadrupletsWithFactors(a, n, cap, true, maxF, guess);
    foundQuadruplets := res.value.quads;
  }

  // ---------------------------------------------------------------------------------
  // Keeping new primitives

  /** Offering s and then t is offering s + t. */
  lemma {:induction false} KeepPrimitivesAppend(acc: seq<Quad>, s: seq<Quad>, t: seq<Quad>)
    ensures KeepPrimitives(KeepPrimitives(acc, s), t) == KeepPrimitives(acc, s + t)
    decreases |t|
  {
    if t == [] {
      assert s + t == s;
    } else {
      var init, x := t[..|t| - 1], t[|t| - 1];
      KeepPrimitivesAppend(acc, s, init);
      assert (s + t)[..|s + t| - 1] == s + init;
      assert (s + t)[|s + t| - 1] == x;
    }
  }

  /** Offering one more cell of a row. */
  lemma KeepRowStep(acc: seq<Quad>, a: int, nLo: int, n: int, cell: (int, int) -> seq<Quad>)
    requires nLo <= n
    ensures KeepPrimitives(KeepPrimitives(acc, Row(a, nLo, n - 1, cell)), cell(a, n))
         == KeepPrimitives(acc, Row(a, nLo, n, cell))
  {
    KeepPrimitivesAppend(acc, Row(a, nLo, n - 1, cell), cell(a, n));
  }

  /** Offering one more row of the grid. */
  lemma KeepGridStep(aLo: int, a: int, nLo: int, nHi: int, cell: (int, int) -> seq<Quad>)
    requires aLo <= a
    ensures KeepPrimitives(KeepPrimitives([], Grid(aLo, a - 1, nLo, nHi, cell)), Row(a, nLo, nHi, cell))
         == KeepPrimitives([], Grid(aLo, a, nLo, nHi, cell))
  {
    KeepPrimitivesAppend([], Grid(aLo, a - 1, nLo, nHi, cell), Row(a, nLo, nHi, cell));
  }

  /**
   * The kept list starts with acc, has no repeats when acc has none, and holds exactly the
   * tuples of acc and the primitive tuples of s.
   */
  lemma {:induction false} KeepPrimitivesProperties(acc: seq<Quad>, s: seq<Quad>)
    ensures IsPrefix(acc, KeepPrimitives(acc, s))
    ensures NoDuplicates(acc) ==> NoDuplicates(KeepPrimitives(acc, s))
    ensures forall x :: x in KeepPrimitives(acc, s) <==> x in acc || (x in s && IsPrimitive(x))
    decreases |s|
  {
    if s == [] {
      assert acc[..|acc|] == acc;
    } else {
      var init, x := s[..|s| - 1], s[|s| - 1];
      assert s == init + [x];
      var prev := KeepPrimitives(acc, init);
      KeepPrimitivesProperties(acc, init);
      if IsPrimitive(x) && x !in prev {
        assert (prev + [x])[..|prev|] == prev;
        if NoDuplicates(acc) {
          NoDuplicatesConcat(prev, [x]);
        }
      }
      PrefixTransitive(acc, prev, KeepPrimitives(acc, s));
    }
  }

  /** On a list without repeats, keeping new primitives is filtering the primitives. */
  lemma {:induction false} KeepPrimitivesOfDistinct(s: seq<Quad>)
    requires NoDuplicates(s)
    ensures KeepPrimitives([], s) == Primitives(s)
    decreases |s|
  {
    if s != [] {
      var init, x := s[..|s| - 1], s[|s| - 1];
      assert s == init + [x];
      assert NoDuplicates(init) by {
        forall i, j | 0 <= i < j < |init| ensures init[i] != init[j] {
          assert init[i] == s[i] && init[j] == s[j];
        }
      }
      KeepPrimitivesOfDistinct(init);
      PrimitivesMembers(init);
      assert x !in init;
    }
  }

  // ---------------------------------------------------------------------------------
  // Properties

  /**
   * Phase 1 asks for max_factor 1, so every combination contributes exactly its plain
   * single-search list: the primitive solutions are the primitive tuples of the plain range
   * search over the same window, in the same order.
   */
  lemma PhaseOneIsPlainRange(aLo: int, aHi: int, nLo: int, nHi: int, cap: nat, guess: int -> int)
    ensures Grid(aLo, aHi, nLo, nHi, FactorCell(cap, 1, guess)) == Grid(aLo, aHi, nLo, nHi, CellSearch(cap, guess))
    ensures KeepPrimitives([], Grid(aLo, aHi, nLo, nHi, FactorCell(cap, 1, guess)))
         == Primitives(Grid(aLo, aHi, nLo, nHi, CellSearch(cap, guess)))
  {
    forall a, n | aLo <= a <= aHi && nLo <= n <= nHi
      ensures FactorCell(cap, 1, guess)(a, n) == CellSearch(cap, guess)(a, n)
    {
      NoScalingBelowTwo(a, n, cap, true, 1, guess);
    }
    GridCongruence(aLo, aHi, nLo, nHi, FactorCell(cap, 1, guess), CellSearch(cap, guess));
    RangeSound(aLo, aHi, nLo, nHi, cap, guess);
    KeepPrimitivesOfDistinct(Grid(aLo, aHi, nLo, nHi, CellSearch(cap, guess)));
  }

  /**
   * Focus mode: all_quadruplets has no repeats, starts with primitive_solutions, every
   * primitive solution is primitive, and every entry is a solution whose anchor and gap
   * lie in the (normalised) window; the entries after the primitives are multiples of them.
   */
  lemma FocusModeProperties(aStart: int, aEnd: int, nStart: int, nEnd: int, maxIterationsPerCombo: int,
                            maxFactor: int, guess: int -> int)
    requires FactorRangeSpec(aStart, aEnd, nStart, nEnd, maxIterationsPerCombo, true, maxFactor, guess).Ok?
    ensures var r := FactorRangeSpec(aStart, aEnd, nStart, nEnd, maxIterationsPerCombo, true, maxFactor, guess).value;
      var maxF := if maxFactor > 0 then maxFactor else DefaultRangeMaxFactor;
      var aLo, aHi, nLo, nHi := Low(aStart, aEnd), High(aStart, aEnd), Low(nStart, nEnd), High(nStart, nEnd);
      && NoDuplicates(r.quads)
      && IsPrefix(r.primitives, r.quads)
      && (forall p :: p in r.primitives ==> IsPrimitive(p))
      && (forall q :: q in r.quads ==> IsSolution(q) && InWindow(q, aLo, aHi, nLo, nHi))
      && (forall q :: q in r.quads ==>
            q in r.primitives || exists p, f :: p in r.primitives && 2 <= f <= maxF && q == Scale(p, f))
      && (forall p, f :: p in r.primitives && 2 <= f <= maxF && InWindow(Scale(p, f), aLo, aHi, nLo, nHi) ==>
            Scale(p, f) in r.quads)
  {
    var aLo, aHi := Low(aStart, aEnd), High(aStart, aEnd);
    var nLo, nHi := Low(nStart, nEnd), High(nStart, nEnd);
    var cap := if maxIterationsPerCombo > 0 then maxIterationsPerCombo else DefaultMaxIterationsPerCombo;
    var maxF := if maxFactor > 0 then maxFactor else DefaultRangeMaxFactor;
    var w := Bounded(aLo, aHi, nLo, nHi);
    var grid := Grid(aLo, aHi, nLo, nHi, CellSearch(cap, guess));
    PhaseOneIsPlainRange(aLo, aHi, nLo, nHi, cap, guess);
    var prims := Primitives(grid);
    RangeSound(aLo, aHi, nLo, nHi, cap, guess);
    PrimitivesMembers(grid);
    PrimitivesNoDuplicates(grid);
    GenProperties(prims, prims, maxF, w);
    GenSound(prims, prims, maxF, w);
    forall q | q in Gen(prims, prims, maxF, w)
      ensures InWindow(q, aLo, aHi, nLo, nHi)
      ensures q in prims || exists p, f :: p in prims && 2 <= f <= maxF && q == Scale(p, f)
    {
      if q !in prims {
        var p, f :| p in prims && 2 <= f <= maxF && q == Scale(p, f) && Admits(w, q);
      }
    }
    forall p, f | p in prims && 2 <= f <= maxF && InWindow(Scale(p, f), aLo, aHi, nLo, nHi)
      ensures Scale(p, f) in Gen(prims, prims, maxF, w)
    {
      assert Admits(w, Scale(p, f));
      assert Generated(Scale(p, f), prims, maxF, w);
    }
  }

  /**
   * With a guess exact on perfect cubes and a cap no smaller than the largest a - 1, the
   * primitive solutions of focus mode are exactly the primitive solutions in the window.
   */
  lemma FocusModeFindsEveryPrimitive(aStart: int, aEnd: int, nStart: int, nEnd: int, maxIterationsPerCombo: int,
                                     maxFactor: int, guess: int -> int, q: Quad)
    requires FactorRangeSpec(aStart, aEnd, nStart, nEnd, maxIterationsPerCombo, true, maxFactor, guess).Ok?
    requires ExactOnCubes(guess)
    requires High(aStart, aEnd) - 1 <= (if maxIterationsPerCombo > 0 then maxIterationsPerCombo else DefaultMaxIterationsPerCombo)
    ensures var r := FactorRangeSpec(aStart, aEnd, nStart, nEnd, maxIterationsPerCombo, true, maxFactor, guess).value;
      q in r.primitives <==>
        IsSolution(q) && IsPrimitive(q) && InWindow(q, Low(aStart, aEnd), High(aStart, aEnd), Low(nStart, nEnd), High(nStart, nEnd))
  {
    var aLo, aHi := Low(aStart, aEnd), High(aStart, aEnd);
    var nLo, nHi := Low(nStart, nEnd), High(nStart, nEnd);
    var cap := if maxIterationsPerCombo > 0 then maxIterationsPerCombo else DefaultMaxIterationsPerCombo;
    var grid := Grid(aLo, aHi, nLo, nHi, CellSearch(cap, guess));
    PhaseOneIsPlainRange(aLo, aHi, nLo, nHi, cap, guess);
    RangeSound(aLo, aHi, nLo, nHi, cap, guess);
    PrimitivesMembers(grid);
    if IsSolution(q) && InWindow(q, aLo, aHi, nLo, nHi) {
      RangeComplete(aLo, aHi, nLo, nHi, cap, guess, q);
    }
  }

  /** Without primitive focus the list is the sweep of the factor searches, all solutions. */
  lemma StandardModeSound(aStart: int, aEnd: int, nStart: int, nEnd: int, maxIterationsPerCombo: int,
                          maxFactor: int, guess: int -> int)
    requires FactorRangeSpec(aStart, aEnd, nStart, nEnd, maxIterationsPerCombo, false, maxFactor, guess).Ok?
    ensures var r := FactorRangeSpec(aStart, aEnd, nStart, nEnd, maxIterationsPerCombo, false, maxFactor, guess).value;
      r.primitives == [] && forall q :: q in r.quads ==> IsSolution(q)
  {
    var aLo, aHi := Low(aStart, aEnd), High(aStart, aEnd);
    var nLo, nHi := Low(nStart, nEnd), High(nStart, nEnd);
    var cap := if maxIterationsPerCombo > 0 then maxIterationsPerCombo else DefaultMaxIterationsPerCombo;
    var maxF := if maxFactor > 0 then maxFactor else DefaultRangeMaxFactor;
    var cell := FactorCell(cap, maxF, guess);
    forall a, n, q | aLo <= a <= aHi && nLo <= n <= nHi && q in cell(a, n)
      ensures IsSolution(q)
    {
      FactorSearchContents(a, n, cap, true, maxF, guess);
    }
    StandardGridSound(aLo, aHi, nLo, nHi, cell);
  }

  lemma {:induction false} StandardGridSound(aLo: int, aHi: int, nLo: int, nHi: int, cell: (int, int) -> seq<Quad>)
    requires forall a, n, q :: aLo <= a <= aHi && nLo <= n <= nHi && q in cell(a, n) ==> IsSolution(q)
    ensures forall q :: q in Grid(aLo, aHi, nLo, nHi, cell) ==> IsSolution(q)
    decreases aHi - aLo + 1
  {
    if aLo <= aHi {
      StandardGridSound(aLo, aHi - 1, nLo, nHi, cell);
      StandardRowSound(aHi, nLo, nHi, cell);
    }
  }

  lemma {:induction false} StandardRowSound(a: int, nLo: int, nHi: int, cell: (int, int) -> seq<Quad>)
    requires forall n, q :: nLo <= n <= nHi && q in cell(a, n) ==> IsSolution(q)
    ensures forall q :: q in Row(a, nLo, nHi, cell) ==> IsSolution(q)
    decreases nHi - nLo + 1
  {
    if nLo <= nHi {
      StandardRowSound(a, nLo, nHi - 1, cell);
    }
  }

  /**
   * Without primitive focus the scaled tuples are not held to the window: searching only
   * a = 5, n = 1 returns (10, 8, 6, 12) and (15, 12, 9, 18), whose gaps are 2 and 3.
   */
  lemma StandardModeLeavesWindow(maxIterationsPerCombo: int, guess: int -> int)
    requires ExactOnCubes(guess) && maxIterationsPerCombo >= 4
    ensures FactorRangeSpec(5, 5, 1, 1, maxIterationsPerCombo, false, 3, guess).value.quads
         == [Quad(5, 4, 3, 6), Quad(10, 8, 6, 12), Quad(15, 12, 9, 18)]
    ensures !InWindow(Quad(10, 8, 6, 12), 5, 5, 1, 1)
  {
    FiveOneWithFactors(maxIterationsPerCombo, guess);
    var cell := FactorCell(maxIterationsPerCombo, 3, guess);
    assert Grid(5, 5, 1, 1, cell) == Grid(5, 4, 1, 1, cell) + Row(5, 1, 1, cell);
    assert Row(5, 1, 1, cell) == Row(5, 1, 0, cell) + cell(5, 1);
  }

  /** Reversed bounds give the same outcome as the bounds in order. */
  lemma FactorRangeSwapInvariant(aStart: int, aEnd: int, nStart: int, nEnd: int, maxIterationsPerCombo: int,
                                 focusOnPrimitives: bool, maxFactor: int, guess: int -> int)
    ensures FactorRangeSpec(aEnd, aStart, nEnd, nStart, maxIterationsPerCombo, focusOnPrimitives, maxFactor, guess)
         == FactorRangeSpec(aStart, aEnd, nStart, nEnd, maxIterationsPerCombo, focusOnPrimitives, maxFactor, guess)
  {
  }
}
