# Cube quadruplets finder, modelled in Dafny

The repository looks for positive integer quadruplets (a, b, c, d) with
a³ + b³ + c³ = d³, d = a + n and d > a > b > c > 0, in one of four ways:

- The single search fixes a and n. It walks b down from a − 1 under an iteration cap and
  keeps (a, b, c, d) when the integer c guessed from ∛(d³ − a³ − b³) makes c³ exact.
- The range search runs the single search over a grid of a and n values.
- The factor-analysis variants add the gcd of each tuple, its primitive form, families of
  tuples with the same primitive form, and multiples of the primitive tuples.
- A brute-force double loop over b and c.

The repository also has a step-by-step check of a given tuple and the counts on the summary
sheet of the spreadsheet export.

The model keeps the source's structure, module by module:

- `Quadruplets`: the tuple type, the equation, the ordering, and the facts about cubes.
- `Primitive`: `find_gcd_multiple`, `is_primitive_solution` and `get_primitive_form`, as
  functions.
- `CubeRoot`: an exact integer cube root.
- `SingleSearch`: `find_cube_quadruplets_improved`, as a method with the b-loop.
- `BruteForce`: `find_cube_quadruplets` of `quadrapulets.py`, as a method with the double loop.
- `Verification`: `verify_equation_step_by_step` and `test_known_solutions`.
- `Grids` and `RangeSearch`: `find_cube_quadruplets_range`, as nested loops.
- `Families` and `FactorSearch`: `find_cube_quadruplets_with_factors`.
- `FactorRange`: `find_cube_quadruplets_range_with_factors`.
- `ExportSummary`: the counts of `export_to_excel`.

Every `for` loop of the core is a method proved against a specification function over
the inputs. The `reduce` fold of `find_gcd_multiple` and the counting comprehensions of
`export_to_excel` are modelled as functions. The functions are folds over the part already done, so each loop invariant reads
"accumulator == specification of the prefix". The properties are lemmas about those
functions.

The only floating-point value in the searches is the guess `round(x ** (1/3))`. It becomes
a parameter `guess: int -> int`:

- Soundness is proved for every guess.
- Completeness is proved for every guess that is exact on perfect cubes (`ExactOnCubes`).
  `CubeRoot.Cbrt` is one such guess.

The acceptance tests `abs(...) < 1e-10` compare Python integers, so they are modelled as
exact equality. Integers are unbounded, as in Python.

Behaviour of the code that the model makes explicit:

- **The (3, 4, 5, 6) example.** (3, 4, 5, 6), the first entry of the known-solutions table
  (app.py:300), satisfies the equation. In the order (a, b, c, d), though, the checks a > b
  and b > c fail (`CheckClassicExample`).
- **The guard at app-p.py:217.** Its comment says it checks d = a + n, but the guard is an
  identity (`ScaledGap`). So the factor search returns multiples f·p whose gap is f·n, not
  n (`FactorSearchContents`, `FiveOneWithFactors`).
- **The two range modes.** In focus mode, phase 2 keeps only multiples inside the a/n
  window. The mode without focus keeps whatever each factor search returns, so tuples
  outside the window can appear (`StandardModeLeavesWindow`).
- **The in-app known-solutions test** (app-p.py:517-541) finds nothing for any of its
  three cases, whatever the guess (`KnownTestsFindNothing`). Its comment expecting
  (6, 8, 10, 9) for (6, 3) does not hold, because b = 8 exceeds a = 6.
- **The table of test_known_solutions.** (1, 12, 1, 12) and (87, 117, 44, 138) fail the
  exact check (`TestKnownSolutions`).

## Model

| member | source | states |
|---|---|---|
| Quadruplets.CubeOrder | app.py:72 | cubing is strictly increasing and injective, so the exact test c³ = needed admits at most one c |
| Quadruplets.ScaleSolution | app-p.py:213-225 | for a factor f > 0, f·q is a solution exactly when q is (the equation is homogeneous and the ordering is kept) |
| Quadruplets.EquationForcesGap | app.py:9 | a tuple satisfying the equation with b, c > 0 has d > a |
| Primitive.GcdZero | app-p.py:8-10 | gcd(x, y) is 0 exactly when both arguments are 0 |
| Primitive.GcdCommonDivisors | app-p.py:8-10 | k > 0 divides gcd(x, y) exactly when it divides both x and y |
| Primitive.CommonFactorDivisors | app-p.py:8-10 | k > 0 divides find_gcd_multiple(a, b, c, d) exactly when it divides all four values |
| Primitive.CommonFactorZero | app-p.py:8-10 | the common factor is 0 exactly for the all-zero tuple |
| Primitive.PrimitiveIffNoCommonDivisor | app-p.py:12-14 | is_primitive_solution holds exactly when the tuple is not all zero and no k > 1 divides all four values |
| Primitive.PrimitiveFormRoundTrip | app-p.py:16-19 | get_primitive_form fails (division by zero) exactly for the all-zero tuple; otherwise it returns the gcd as the factor, and the factor times the reduced tuple is the original tuple |
| Primitive.PrimitiveFormIsPrimitive | app-p.py:16-19 | the reduced tuple of a non-zero tuple is primitive |
| Primitive.PrimitiveFormOfPrimitive | app-p.py:12-19 | a primitive tuple is its own primitive form, with factor 1 |
| Primitive.PrimitiveFormOfSolution | app-p.py:16-19 | reducing a solution gives a primitive solution |
| CubeRoot.Cbrt | app.py:68-69 | the integer replacement for the float guess: for x ≥ 0 it returns r ≥ 0 with r³ ≤ x < (r+1)³ |
| CubeRoot.CbrtIsExactOnCubes | app.py:68-69 | that replacement returns c for c³ whenever c > 0, which is what completeness needs |
| SingleSearch.SearchLoop | app.py:34-80 | the b-loop returns the tuples of b = a−1 down to the last b the cap allows. The cap is hit exactly when a − 1 exceeds it, and then the counter ends at cap + 1. Every tuple has anchor a, d = a + n, the exact equation and d > a > b > c > 0, and the tuples come in strictly descending b |
| SingleSearch.TryB | app.py:55-80 | the body of the b-loop after the cap test computes exactly what that b contributes |
| SingleSearch.FindCubeQuadrupletsImproved | app.py:5-111 | non-positive a or n gives the error and no list. A non-positive max_iterations becomes 10000. Otherwise the result is the b-loop's outcome: sound, descending in b, no duplicates |
| SingleSearch.ProbeSound | app.py:55-80 | one value of b contributes at most one tuple, and it is a solution for (a, n) with that b |
| SingleSearch.ScanSound | app.py:42-80 | every tuple found while b runs from hi down to lo is a solution for (a, n) with lo ≤ b ≤ hi |
| SingleSearch.ScanDescending | app.py:42-80 | the tuples come in strictly descending b |
| SingleSearch.DescendingHasNoDuplicates | app.py:42-80 | a list strictly descending in b has no repeated tuple |
| SingleSearch.ProbeFinds | app.py:61-80 | with a guess exact on cubes, a solution with a given b is exactly what that b contributes |
| SingleSearch.ScanComplete | app.py:42-80 | with an exact guess, every solution with b in [lo, hi] is found |
| SingleSearch.SearchCharacterization | app.py:40-80 | with an exact guess, a tuple is returned exactly when it is a solution for (a, n) whose b is at least the last b the cap allows. When a − 1 ≤ cap, that means exactly when it is a solution |
| SingleSearch.FiveOneFindsClassicSolution | app.py:42-80 | for a = 5, n = 1 and a cap of at least 4, the search returns exactly (5, 4, 3, 6) |
| BruteForce.FindCubeQuadruplets | quadrapulets.py:1-12 | the double loop returns the fold of its iterations: empty when a ≤ 2, and every entry is a solution for (a, n) |
| BruteForce.BruteSound | quadrapulets.py:2-10 | every returned tuple has anchor a, d = a + n, b³ + c³ = d³ − a³ and d > a > b > c ≥ 1 (d > a because b³ + c³ > 0) |
| BruteForce.BruteComplete | quadrapulets.py:7-10 | every pair a > b > c > 0 with b³ + c³ = d³ − a³ appears in the result |
| BruteForce.BruteOrdered | quadrapulets.py:7-10 | results are in descending b, then descending c, with no duplicates |
| BruteForce.ProbeIsCScan | app.py:55-80 | with an exact guess, what one b contributes in the cube-root search equals the brute-force inner loop for that b |
| BruteForce.ScanIsBScan | app.py:42-80 | with an exact guess, the cube-root b-loop equals the brute-force outer loop over the same b values |
| BruteForce.SearchMatchesBruteForce | quadrapulets.py:7-10 | with an exact guess and a cap of at least a − 1, the single search and the brute force return the same list |
| Verification.VerifyEquationStepByStep | app.py:225-292 | it rejects the tuple exactly when some value is non-positive. It reports the equation satisfied exactly when d³ − a³ = b³ + c³. If not satisfied, it gives both sides and their positive absolute difference. If satisfied, the alternative form matches, each ordering check equals its own comparison, and all_satisfied holds exactly when d > a > b > c > 0 |
| Verification.CheckClassicExample | app.py:258-286 | for (3, 4, 5, 6) the equation and the alternative form hold, d > a and c > 0 hold, a > b and b > c fail, so not all constraints are satisfied |
| Verification.TestKnownSolutions | app.py:295-318 | one verdict per table entry, equal to the exact check: valid, invalid, invalid |
| Grids.CellCountIsProduct | app.py:134-153 | the number of cells the sweep visits is (a_end − a_start + 1)·(n_end − n_start + 1) |
| Grids.GridSound | app.py:151-192 | if every cell lists solutions for its own (a, n), every tuple of the sweep is a solution inside the window |
| Grids.GridContainsCells | app.py:151-192 | every tuple of every cell of the window is in the concatenation |
| Grids.GridNoDuplicates | app.py:151-192 | cells without repeats that hold only tuples of their own (a, n) concatenate without repeats |
| Grids.NonEmptyCellsZero | app.py:194-196 | no cell has solutions exactly when the concatenation is empty |
| RangeSearch.FindCubeQuadrupletsRange | app.py:114-222 | any non-positive bound gives the error. Otherwise the result is the row-major concatenation of the per-(a, n) b-loops over the normalised window. Every entry is a solution inside the window, there are no duplicates, and combinations_tested is the product of the range sizes |
| RangeSearch.Sweep | app.py:151-196 | the nested a/n loops produce the concatenation, the count of cells visited, and the count of cells with a solution |
| RangeSearch.SweepRow | app.py:152-196 | one value of a: the concatenation of its cells in ascending n, the number of cells and the number of non-empty cells |
| RangeSearch.CellSearchSound | app.py:163-192 | each cell's list holds solutions for that (a, n), without repeats |
| RangeSearch.RangeSound | app.py:151-192 | every tuple of the sweep is a solution inside the window, and none is repeated |
| RangeSearch.RangeComplete | app.py:151-192 | with an exact guess and a cap ≥ a_end − 1, every solution inside the window is reported |
| RangeSearch.RangeSwapInvariant | app.py:128-132 | reversed bounds give the same outcome as ordered ones |
| RangeSearch.RangeCounts | app.py:148-196 | combinations_with_solutions ≤ combinations_tested, and it is 0 exactly when no tuple was found |
| RangeSearch.NonEmptyCellsAtMost | app.py:194-196 | at most one cell with solutions is counted per cell visited |
| Families.FamilyKeyScalesBack | app-p.py:172-182 | a tuple's family key is primitive and, times the tuple's common factor, gives the tuple back; a primitive tuple is its own key |
| Families.FileAllMembers | app-p.py:181-185 | every found tuple is in the family of its key, with its common factor, and every family member is a found tuple filed under its own key |
| Families.FileAllWellFiled | app-p.py:171-185 | every family key is primitive, every family is non-empty, and each member is its key times the member's common factor |
| Families.SameKeySameAnchor | app-p.py:181-185 | two tuples with the same anchor a > 0 and the same family key are equal |
| Families.SingleAnchorFamiliesAreSingletons | app-p.py:140-185 | in one single search every family has exactly one member |
| Families.PrimitivesMembers | app-p.py:175-176 | primitive_solutions holds exactly the found tuples that are primitive |
| Families.PrimitivesNoDuplicates | app-p.py:175-176 | primitive_solutions has no repeats when the found list has none |
| Families.ExtendProperties | app-p.py:219-221 | appending only absent, admitted tuples keeps the list as a prefix, keeps it free of repeats, and adds exactly that tuple |
| Families.ScaleUpToProperties | app-p.py:213-221 | trying the factors 2..f on p keeps the list as a prefix and free of repeats, and adds exactly the admitted multiples p·2..p·f |
| Families.GenProperties | app-p.py:209-221 | family generation keeps the found list as a prefix and free of repeats, and the result holds exactly the found tuples and the admitted multiples f·p, 2 ≤ f ≤ max_factor |
| Families.GenSound | app-p.py:209-225 | every generated tuple is a solution when the primitives are |
| Families.GenWithoutFactors | app-p.py:213 | with max_factor < 2 nothing is generated |
| Families.ScaledGap | app-p.py:217 | the guard new_d == new_a + factor·(prim_d − prim_a) always holds |
| Families.Generate | app-p.py:209-225 | the generation loops (primitives in order, factors ascending, membership test) compute the generation function |
| FactorSearch.FindCubeQuadrupletsWithFactors | app-p.py:105-249 | non-positive a or n gives the error. Non-positive max_iterations and max_factor become 10000 and 5. Otherwise the result is the b-loop, then the filing and the family generation when factor analysis is on |
| FactorSearch.FileFamilies | app-p.py:171-185 | the filing loop builds exactly the primitive list and the family map of the found tuples |
| FactorSearch.FileOne | app-p.py:172-185 | filing one non-zero tuple appends it to the primitive list exactly when it is primitive, and appends it with its common factor to the family of its key, creating the family when it is new |
| FactorSearch.FactorSearchContents | app-p.py:140-228 | the directly found tuples come first. Every entry is a solution, and no entry repeats. Each entry is either a solution for (a, n) or f·p for a found primitive p and 2 ≤ f ≤ max_factor, with gap f·n |
| FactorSearch.FactorSearchFamilies | app-p.py:171-185 | the primitives are exactly the primitive found tuples, without repeats. The families are well formed, hold every found tuple, and have one member each |
| FactorSearch.NoScalingBelowTwo | app-p.py:204-213 | without factor analysis, or with max_factor 1, the result is exactly the b-loop's list |
| FactorSearch.NoSolutionForSmallAnchor | app-p.py:140-168 | if (a−1)³ + (a−2)³ < d³ − a³, no (b, c) can satisfy the equation for (a, n) |
| FactorSearch.FindsNothingWithoutSolutions | app-p.py:140-228 | when (a, n) has no solution the returned list is empty, whatever the guess and the factors |
| FactorSearch.KnownTestsFindNothing | app-p.py:517-541 | the in-app test cases (6, 3), (15, 18) and (3, 3), with 15000 iterations and max_factor 3, return no tuple for any guess |
| FactorSearch.ClassicIsPrimitive | app-p.py:8-10 | a worked instance used by FiveOneWithFactors: gcd(5, 4, 3, 6) is 1, so (5, 4, 3, 6) is filed as primitive |
| FactorSearch.FiveOneWithFactors | app-p.py:204-225 | for a = 5, n = 1 with an exact guess and max_factor 3, the list is (5,4,3,6), (10,8,6,12), (15,12,9,18), and the primitive list is (5,4,3,6) |
| FactorRange.FindCubeQuadrupletsRangeWithFactors | app-p.py:251-349 | any non-positive bound gives the error. Bounds are swapped into order, and non-positive iterations and max_factor become 5000 and 3. Focus mode runs phase 1 and then phase 2. The other mode concatenates the factor searches |
| FactorRange.PrimitivesPhase | app-p.py:288-298 | phase 1 leaves all_quadruplets and primitive_solutions equal, and both hold the new primitive tuples of the sweep of factor searches with max_factor 1 |
| FactorRange.PrimitivesRow | app-p.py:290-298 | one value of a in phase 1 |
| FactorRange.PrimitivesCell | app-p.py:291-298 | one (a, n) in phase 1: call the factor search, then keep its new primitive tuples |
| FactorRange.KeepNewPrimitives | app-p.py:295-298 | the loop over one combination's tuples appends each primitive tuple not yet kept, to both lists |
| FactorRange.StandardSweep | app-p.py:326-334 | the mode without focus concatenates the factor searches in row-major order |
| FactorRange.StandardRow | app-p.py:330-334 | one value of a of that mode |
| FactorRange.StandardCell | app-p.py:331-334 | one (a, n) of that mode returns the factor search's list |
| FactorRange.KeepPrimitivesAppend | app-p.py:289-298 | keeping new primitives from s and then t is the same as from s + t |
| FactorRange.KeepPrimitivesProperties | app-p.py:295-298 | the kept list extends the old one, stays free of repeats, and holds exactly the old tuples and the primitive offered ones |
| FactorRange.KeepPrimitivesOfDistinct | app-p.py:295-298 | on a list without repeats, the membership test never rejects, and keeping is filtering |
| FactorRange.PhaseOneIsPlainRange | app-p.py:289-298 | with max_factor 1 each combination adds only its b-loop's tuples, so phase 1 yields the primitive tuples of the plain range search, in order |
| FactorRange.FocusModeProperties | app-p.py:285-324 | all_quadruplets has no repeats and starts with primitive_solutions, whose entries are all primitive. Every entry is a solution inside the window. Every entry after the primitives is f·p for a kept primitive p and 2 ≤ f ≤ max_factor, and conversely every such multiple inside the window is in the list |
| FactorRange.FocusModeFindsEveryPrimitive | app-p.py:288-298 | with an exact guess and enough iterations, primitive_solutions holds exactly the primitive solutions inside the window |
| FactorRange.StandardModeSound | app-p.py:326-334 | outside focus mode every entry is a solution and primitive_solutions stays empty |
| FactorRange.StandardModeLeavesWindow | app-p.py:326-334 | outside focus mode, the window a = 5, n = 1 yields (10,8,6,12) and (15,12,9,18), whose gaps lie outside the window |
| FactorRange.FactorRangeSwapInvariant | app-p.py:267-270 | reversed bounds give the same outcome as ordered ones |
| ExportSummary.ExportCountsProperties | app-p.py:62-91 | nothing is exported exactly for an empty list. Otherwise primitive + scaled = total, there are between 1 and total distinct common factors, and scaled is 0 exactly when every tuple is primitive |
| ExportSummary.PrimitivePlusScaled | app-p.py:88-90 | every tuple counts as primitive or as scaled, never both |
| ExportSummary.ScaledMembers | app-p.py:90 | the scaled tuples are exactly the non-primitive ones |
| ExportSummary.CommonFactorsAtMost | app-p.py:91 | there are at most as many distinct common factors as tuples |

## Left out

- The Gradio interfaces (`create_improved_interface` in both app files), their button wiring and their state: presentation only.
- All result text: the progress lines, the emoji reports, the per-tuple verification text and the summaries. The model returns structured results.
- `create_results_dataframe`, the DataFrame and ExcelWriter parts of `export_to_excel`, `update_results_table` and `download_excel_file`: foreign-library and file I/O. Only the summary counts are modelled.
- The averages of a and d and the progress percentage: floating-point formatting. The min/max quadruplet strings are formatting of Python tuple order.
- The `int(...)` coercions inside `try/except`: inputs are already integers.
- The demo run and prints at quadrapulets.py:14-25.
- SearchLoop: the float guess `round(x ** (1/3))` is a parameter, so its IEEE rounding and OverflowError on huge values are not modelled. Completeness (`SearchCharacterization`, `RangeComplete`, `SearchMatchesBruteForce`, `FocusModeFindsEveryPrimitive`) is stated only for guesses exact on perfect cubes, such as `CubeRoot.Cbrt`.
- FindCubeQuadrupletsWithFactors: the source files each tuple as the b-loop finds it. The model files the found tuples in one pass after the loop, in the same order, which gives the same lists and map.
- Families.FileAll: the families are a map. The insertion order that the source's dict keeps, and uses only when printing, is not modelled.
- FileFamilies: for the all-zero tuple the source would divide by zero. The method requires non-zero tuples, which every search produces.
- FactorRange.StandardModeSound: no freedom from repeats is claimed outside focus mode, because the source does no de-duplication there.
