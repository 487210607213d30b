/**
 * Stand-alone checks of a literal quadruplet (app.py, lines 225-318): the exact equation
 * d^3 - a^3 = b^3 + c^3, its alternative form, the four ordering checks evaluated one by
 * one, and the known-solutions table.
 */
module Verification {
  import opened Quadruplets

  /** What verify_equation_step_by_step reports, without its text. */
  datatype Report =
    | Rejected
    | NotSatisfied(leftSide: int, rightSide: int, difference: nat)
    | Satisfied(altMatch: bool, dGreaterA: bool, aGreaterB: bool, bGreaterC: bool,
                cPositive: bool, allSatisfied: bool)

  predicate AllPositive(q: Quad) {
    q.a > 0 && q.b > 0 && q.c > 0 && q.d > 0
  }

  /** verify_equation_step_by_step(a, b, c, d) */
  method VerifyEquationStepByStep(q: Quad) returns (r: Report)
    ensures r.Rejected? <==> !AllPositive(q)
    ensures AllPositive(q) ==> (r.Satisfied? <==> Equation(q))
    ensures r.NotSatisfied? ==>
      r.leftSide == Cube(q.d) - Cube(q.a) && r.rightSide == Cube(q.b) + Cube(q.c)
      && r.difference > 0 && (r.difference == r.leftSide - r.rightSide || r.difference == r.rightSide - r.leftSide)
    ensures r.Satisfied? ==> r.altMatch
    ensures r.Satisfied? ==>
      r.dGreaterA == (q.d > q.a) && r.aGreaterB == (q.a > q.b) && r.bGreaterC == (q.b > q.c)
      && r.cPositive == (q.c > 0)
    ensures r.Satisfied? ==> (r.allSatisfied <==> IsSolution(q))
  {
    if !AllPositive(q) {
      return Rejected;
    }
    var aCubed, bCubed, cCubed, dCubed := Cube(q.a), Cube(q.b), Cube(q.c), Cube(q.d);
    var leftSide := dCubed - aCubed;
    var rightSide := bCubed + cCubed;
    if leftSide == rightSide {
      var altCheck := aCubed + bCubed + cCubed;
      var constraints := [q.d > q.a, q.a > q.b, q.b > q.c, q.c > 0];
      var allSatisfied := true;
      for i := 0 to |constraints|
        invariant allSatisfied <==> forall j :: 0 <= j < i ==> constraints[j]
      {
        if !constraints[i] {
          allSatisfied := false;
        }
      }
      r := Satisfied(altCheck == dCubed, constraints[0], constraints[1], constraints[2],
                     constraints[3], allSatisfied);
    } else {
      var difference := if leftSide >= rightSide then leftSide - rightSide else rightSide - leftSide;
      r := NotSatisfied(leftSide, rightSide, difference);
    }
  }

  /**
   * The source's own example (3, 4, 5, 6): the equation holds, and so do d > a and c > 0,
   * but in this order a > b and b > c fail, so not every constraint is satisfied.
   */
  method CheckClassicExample() returns (r: Report)
    ensures r == Satisfied(true, true, false, false, true, false)
  {
    r := VerifyEquationStepByStep(Quad(3, 4, 5, 6));
  }

  /** The hard-coded table of test_known_solutions. */
  const KnownQuadruplets: seq<Quad> := [Quad(3, 4, 5, 6), Quad(1, 12, 1, 12), Quad(87, 117, 44, 138)]

  /** test_known_solutions: one "Valid"/"Invalid" verdict per table entry. */
  method TestKnownSolutions() returns (valid: seq<bool>)
    ensures |valid| == |KnownQuadruplets|
    ensures forall i :: 0 <= i < |valid| ==>
      valid[i] == (Cube(KnownQuadruplets[i].d) - Cube(KnownQuadruplets[i].a)
                   == Cube(KnownQuadruplets[i].b) + Cube(KnownQuadruplets[i].c))
    ensures valid == [true, false, false]
  {
    valid := [];
    for i := 0 to |KnownQuadruplets|
      invariant |valid| == i
      invariant forall j :: 0 <= j < i ==>
        valid[j] == (Cube(KnownQuadruplets[j].d) - Cube(KnownQuadruplets[j].a)
                     == Cube(KnownQuadruplets[j].b) + Cube(KnownQuadruplets[j].c))
    {
      var q := KnownQuadruplets[i];
      var left := Cube(q.d) - Cube(q.a);
      var right := Cube(q.b) + Cube(q.c);
      valid := valid + [left == right];
    }
  }
}
