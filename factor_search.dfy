/**
 * The single search with common-factor analysis, find_cube_quadruplets_with_factors
 * (app-p.py, lines 105-249): the b-loop of the plain single search, then (when factor
 * analysis is on) every found tuple filed under its primitive form, the primitive ones
 * collected, and each primitive scaled by 2 .. max_factor into the result list.
 */
module FactorSearch {
  import opened Wrappers
  import opened Quadruplets
  import opened Primitive
  import opened CubeRoot
  import opened SingleSearch
  import opened Families

  /** Replacement for a non-positive max_factor (app-p.py, line 112). */
  const DefaultMaxFactor := 5

  function EffectiveMaxFactor(maxFactor: int): nat {
    if maxFactor > 0 then maxFactor else DefaultMaxFactor
  }

  /** The returned list, the primitive solutions, the families and the loop's counters. */
  datatype FactorResult = FactorResult(
    quads: seq<Quad>,
    primitives: seq<Quad>,
    families: map<Quad, seq<Member>>,
    iterations: nat,
    capHit: bool)

  /** The tuple list returned for anchor a and gap n: the b-loop's tuples, then the generated multiples. */
  function FactorQuads(a: int, n: int, cap: nat, includeFactors: bool, maxFactor: int, guess: int -> int): seq<Quad> {
    var direct := SearchSpec(a, n, cap, guess).quads;
    if includeFactors then Gen(direct, Primitives(direct), maxFactor, Unbounded) else direct
  }

  /** The outcome for anchor a, gap n, a positive cap and a maximal scaling factor. */
  function FactorSpec(a: int, n: int, cap: nat, includeFactors: bool, maxFactor: int, guess: int -> int): FactorResult {
    var s := SearchSpec(a, n, cap, guess);
    var quads := FactorQuads(a, n, cap, includeFactors, maxFactor, guess);
    if includeFactors then
      FactorResult(quads, Primitives(s.quads), FileAll(s.quads), s.iterations, s.capHit)
    else
      FactorResult(quads, [], map[], s.iterations, s.capHit)
  }

  /**
   * find_cube_quadruplets_with_factors(a, n, max_iterations, include_factors, max_factor).
   * The b-loop is the one of the plain single search; the filing that the source does as
   * each tuple is found is done here in a pass over the found tuples, in the same order.
   */
  method FindCubeQuadrupletsWithFactors(a: int, n: int, maxIterations: int, includeFactors: bool,
                                        maxFactor: int, guess: int -> int)
    returns (r: Result<FactorResult, InputError>)
    ensures a <= 0 || n <= 0 ==> r == Err(AnchorOrGapNotPositive)
    ensures a > 0 && n > 0 ==>
      r == Ok(FactorSpec(a, n, EffectiveCap(maxIterations), includeFactors, EffectiveMaxFactor(maxFactor), guess))
  {
    if a <= 0 || n <= 0 {
      return Err(AnchorOrGapNotPositive);
    }
    var cap := EffectiveCap(maxIterations);
    var maxF := EffectiveMaxFactor(maxFactor);
    var s := SearchLoop(a, n, cap, guess);
    var found := s.quads;
    var quadruplets := found;
    var primitiveSolutions: seq<Quad> := [];
    var factorFamilies: map<Quad, seq<Member>> := map[];
    if includeFactors {
      primitiveSolutions, factorFamilies := FileFamilies(found);
      if primitiveSolutions != [] {
        quadruplets := Generate(quadruplets, primitiveSolutions, maxF, Unbounded);
      }
    }
    r := Ok(FactorResult(quadruplets, primitiveSolutions, factorFamilies, s.iterations, s.capHit));
  }

  /**
   * The filing done for each found tuple (app-p.py, lines 171-185): a primitive tuple is
   * collected and is its own key; any other tuple is keyed by its reduction, which the
   * source computes by dividing by the common factor (a non-zero tuple is required).
   */
  method FileFamilies(found: seq<Quad>) returns (primitiveSolutions: seq<Quad>, factorFamilies: map<Quad, seq<Member>>)
    requires forall q :: q in found ==> q != Zero
    ensures primitiveSolutions == Primitives(found)
    ensures factorFamilies == FileAll(found)
  {
    primitiveSolutions, factorFamilies := [], map[];
    for i := 0 to |found|
      invariant primitiveSolutions == Primitives(found[..i])
      invariant factorFamilies == FileAll(found[..i])
    {
      assert found[i] in found;
      primitiveSolutions, factorFamilies := FileOne(primitiveSolutions, factorFamilies, found[i]);
      assert found[..i + 1][..i] == found[..i];
    }
    assert found[..|found|] == found;
  }

  /** Filing one found tuple (app-p.py, lines 172-185). */
  method FileOne(prims0: seq<Quad>, families0: map<Quad, seq<Member>>, q: Quad)
    returns (primitiveSolutions: seq<Quad>, factorFamilies: map<Quad, seq<Member>>)
    requires q != Zero
    ensures primitiveSolutions == prims0 + (if IsPrimitive(q) then [q] else [])
    ensures factorFamilies == File(families0, q)
  {
    PrimitiveFormRoundTrip(q);
    primitiveSolutions, factorFamilies := prims0, families0;
    var commonFactor := CommonFactor(q);
    var key;
    if commonFactor == 1 {
      primitiveSolutions := primitiveSolutions + [q];
      key := q;
    } else {
      key := GetPrimitiveForm(q).value.p;
    }
    if key !in factorFamilies {
      factorFamilies := factorFamilies[key := []];
    }
    factorFamilies := factorFamilies[key := factorFamilies[key] + [Member(q, commonFactor)]];
  }

  // ---------------------------------------------------------------------------------
  // Properties

  /**
   * What the returned list holds: the directly found tuples first (each a solution with
   * anchor a and gap n), then only multiples f * p, 2 <= f <= max_factor, of found
   * primitives p, whose gap is f * n; every entry is a solution and none is repeated.
   */
  lemma FactorSearchContents(a: int, n: int, cap: nat, includeFactors: bool, maxFactor: int, guess: int -> int)
    ensures var direct := SearchSpec(a, n, cap, guess).quads;
      var r := FactorSpec(a, n, cap, includeFactors, maxFactor, guess);
      && IsPrefix(direct, r.quads)
      && NoDuplicates(r.quads)
      && (forall q :: q in r.quads ==> IsSolution(q))
      && (forall q :: q in r.quads ==>
            SolutionFor(q, a, n) ||
            exists p, f :: p in r.primitives && 2 <= f <= maxFactor && q == Scale(p, f) && q.d - q.a == f * n)
  {
    var direct := SearchSpec(a, n, cap, guess).quads;
    ScanSound(a, n, guess, a - 1, LowestB(a, cap));
    ScanDescending(a, n, guess, a - 1, LowestB(a, cap));
    DescendingHasNoDuplicates(direct);
    if includeFactors {
      GenerationContents(direct, a, n, maxFactor);
    } else {
      assert direct[..|direct|] == direct;
    }
  }

  /** The generation step on the b-loop's tuples, which are distinct solutions for (a, n). */
  lemma GenerationContents(direct: seq<Quad>, a: int, n: int, maxFactor: int)
    requires NoDuplicates(direct)
    requires forall q :: q in direct ==> SolutionFor(q, a, n)
    ensures var prims := Primitives(direct);
      var quads := Gen(direct, prims, maxFactor, Unbounded);
      && IsPrefix(direct, quads)
      && NoDuplicates(quads)
      && (forall q :: q in quads ==> IsSolution(q))
      && (forall q :: q in quads ==>
            SolutionFor(q, a, n) ||
            exists p, f :: p in prims && 2 <= f <= maxFactor && q == Scale(p, f) && q.d - q.a == f * n)
  {
    var prims := Primitives(direct);
    var quads := Gen(direct, prims, maxFactor, Unbounded);
    PrimitivesMembers(direct);
    GenProperties(direct, prims, maxFactor, Unbounded);
    GenSound(direct, prims, maxFactor, Unbounded);
    forall q | q in quads && !SolutionFor(q, a, n)
      ensures exists p, f :: p in prims && 2 <= f <= maxFactor && q == Scale(p, f) && q.d - q.a == f * n
    {
      var p, f :| p in prims && 2 <= f <= maxFactor && q == Scale(p, f) && Admits(Unbounded, q);
      MultipleGap(p, f, n);
    }
  }

  /** A multiple f * p of a tuple with gap n has gap f * n. */
  lemma MultipleGap(p: Quad, f: int, n: int)
    requires p.d - p.a == n
    ensures Scale(p, f).d - Scale(p, f).a == f * n
  {
    ScaledGap(p, f);
  }

  /**
   * The primitive solutions are exactly the found tuples that are primitive, with no
   * repeats; the families are well formed, hold every found tuple under its primitive
   * form with its common factor, and (all found tuples sharing the anchor a) have one
   * member each.
   */
  lemma FactorSearchFamilies(a: int, n: int, cap: nat, maxFactor: int, guess: int -> int)
    requires a > 0
    ensures var direct := SearchSpec(a, n, cap, guess).quads;
      var r := FactorSpec(a, n, cap, true, maxFactor, guess);
      && (forall x :: x in r.primitives <==> x in direct && IsPrimitive(x))
      && NoDuplicates(r.primitives)
      && WellFiled(r.families)
      && (forall q :: q in direct ==> FamilyKey(q) in r.families && Member(q, CommonFactor(q)) in r.families[FamilyKey(q)])
      && (forall k :: k in r.families ==> |r.families[k]| == 1)
  {
    var direct := SearchSpec(a, n, cap, guess).quads;
    ScanSound(a, n, guess, a - 1, LowestB(a, cap));
    ScanDescending(a, n, guess, a - 1, LowestB(a, cap));
    DescendingHasNoDuplicates(direct);
    PrimitivesMembers(direct);
    PrimitivesNoDuplicates(direct);
    FileAllMembers(direct);
    FileAllWellFiled(direct);
    SingleAnchorFamiliesAreSingletons(direct, a);
  }

  /** Without factor analysis, or with max_factor 1, only the directly found tuples are returned. */
  lemma NoScalingBelowTwo(a: int, n: int, cap: nat, includeFactors: bool, maxFactor: int, guess: int -> int)
    requires !includeFactors || maxFactor < 2
    ensures FactorSpec(a, n, cap, includeFactors, maxFactor, guess).quads == SearchSpec(a, n, cap, guess).quads
  {
    if includeFactors {
      var direct := SearchSpec(a, n, cap, guess).quads;
      GenWithoutFactors(direct, Primitives(direct), maxFactor, Unbounded);
    }
  }

  /** When a - 1 and a - 2 are too small to reach d^3 - a^3, no (b, c) can work. */
  lemma NoSolutionForSmallAnchor(a: int, n: int)
    requires a >= 2 && Cube(a - 1) + Cube(a - 2) < Cube(a + n) - Cube(a)
    ensures forall q :: !SolutionFor(q, a, n)
  {
    forall q | SolutionFor(q, a, n)
      ensures false
    {
      CubeOrder(q.b, a - 1);
      CubeOrder(q.c, a - 2);
    }
  }

  lemma NoMembersMeansEmpty(s: seq<Quad>)
    ensures (forall q :: q !in s) ==> s == []
  {
    if s != [] {
      assert s[0] in s;
    }
  }

  /** A search whose (a, n) has no solution finds nothing, whatever the guess and the factors. */
  lemma FindsNothingWithoutSolutions(a: int, n: int, cap: nat, includeFactors: bool, maxFactor: int, guess: int -> int)
    requires forall q :: !SolutionFor(q, a, n)
    ensures FactorSpec(a, n, cap, includeFactors, maxFactor, guess).quads == []
  {
    var direct := SearchSpec(a, n, cap, guess).quads;
    ScanSound(a, n, guess, a - 1, LowestB(a, cap));
    NoMembersMeansEmpty(direct);
    assert Primitives([]) == [];
    GenProperties([], [], maxFactor, Unbounded);
  }

  /**
   * The three cases of the in-app known-solutions test (app-p.py, lines 519-529, searched
   * with 15000 iterations and max_factor 3) find nothing at all; in particular (6, 3) does
   * not yield (6, 8, 10, 9), whose b exceeds a.
   */
  lemma KnownTestsFindNothing(guess: int -> int)
    ensures FactorSpec(6, 3, 15000, true, 3, guess).quads == []
    ensures FactorSpec(15, 18, 15000, true, 3, guess).quads == []
    ensures FactorSpec(3, 3, 15000, true, 3, guess).quads == []
  {
    NoSolutionForSmallAnchor(6, 3);
    FindsNothingWithoutSolutions(6, 3, 15000, true, 3, guess);
    NoSolutionForSmallAnchor(15, 18);
    FindsNothingWithoutSolutions(15, 18, 15000, true, 3, guess);
    NoSolutionForSmallAnchor(3, 3);
    FindsNothingWithoutSolutions(3, 3, 15000, true, 3, guess);
  }

  lemma ClassicIsPrimitive()
    ensures IsPrimitive(Quad(5, 4, 3, 6))
  {
    assert Gcd(5, 4) == 1 by {
      assert Gcd(1, 0) == 1;
      assert Gcd(4, 1) == 1;
    }
    assert Gcd(1, 3) == 1 by {
      assert Gcd(3, 1) == 1;
    }
    assert Gcd(1, 6) == 1 by {
      assert Gcd(6, 1) == 1;
    }
    CommonFactorUnfold(Quad(5, 4, 3, 6));
  }

  /**
   * For a = 5 and n = 1 the search finds (5, 4, 3, 6), which is primitive, and the
   * guard of line 217 lets its multiples by 2 and 3 through although their gaps are 2 and
   * 3, not n = 1.
   */
  lemma FiveOneWithFactors(cap: nat, guess: int -> int)
    requires ExactOnCubes(guess) && cap >= 4
    ensures FactorSpec(5, 1, cap, true, 3, guess).quads ==
      [Quad(5, 4, 3, 6), Quad(10, 8, 6, 12), Quad(15, 12, 9, 18)]
    ensures FactorSpec(5, 1, cap, true, 3, guess).primitives == [Quad(5, 4, 3, 6)]
  {
    var q := Quad(5, 4, 3, 6);
    FiveOneFindsClassicSolution(cap, guess);
    ClassicIsPrimitive();
    assert Primitives([q]) == [q] by {
      assert [q][..0] == [];
    }
    assert Gen([q], [q], 3, Unbounded) == ScaleUpTo([q], q, 3, Unbounded) by {
      assert [q][..0] == [];
    }
  }
}
