/**
 * The row-major sweep shared by the range searches (app.py, lines 151-192, and app-p.py,
 * lines 289-334): a ascending in the outer loop, n ascending in the inner loop, and the
 * per-combination lists concatenated in that order.
 */
module Grids {
  import opened Quadruplets

  /** The lists of the cells (a, nLo) .. (a, nHi), concatenated. */
  function Row(a: int, nLo: int, nHi: int, cell: (int, int) -> seq<Quad>): seq<Quad>
    decreases nHi - nLo + 1
  {
    if nHi < nLo then [] else Row(a, nLo, nHi - 1, cell) + cell(a, nHi)
  }

  /** The rows aLo .. aHi, concatenated. */
  function Grid(aLo: int, aHi: int, nLo: int, nHi: int, cell: (int, int) -> seq<Quad>): seq<Quad>
    decreases aHi - aLo + 1
  {
    if aHi < aLo then [] else Grid(aLo, aHi - 1, nLo, nHi, cell) + Row(aHi, nLo, nHi, cell)
  }

  /** How many cells of a row have a non-empty list. */
  function NonEmptyInRow(a: int, nLo: int, nHi: int, cell: (int, int) -> seq<Quad>): nat
    decreases nHi - nLo + 1
  {
    if nHi < nLo then 0
    else NonEmptyInRow(a, nLo, nHi - 1, cell) + (if cell(a, nHi) != [] then 1 else 0)
  }

  /** How many cells of the grid have a non-empty list. */
  function NonEmptyCells(aLo: int, aHi: int, nLo: int, nHi: int, cell: (int, int) -> seq<Quad>): nat
    decreases aHi - aLo + 1
  {
    if aHi < aLo then 0
    else NonEmptyCells(aLo, aHi - 1, nLo, nHi, cell) + NonEmptyInRow(aHi, nLo, nHi, cell)
  }

  /** The number of cells visited by the sweep, one row at a time. */
  function CellCount(aLo: int, aHi: int, nLo: int, nHi: int): nat
    decreases aHi - aLo + 1
  {
    if aHi < aLo then 0 else CellCount(aLo, aHi - 1, nLo, nHi) + (if nHi < nLo then 0 else nHi - nLo + 1)
  }

  /** The sweep visits (aHi - aLo + 1) * (nHi - nLo + 1) cells. */
  lemma {:induction false} CellCountIsProduct(aLo: int, aHi: int, nLo: int, nHi: int)
    requires aLo <= aHi + 1 && nLo <= nHi + 1
    ensures CellCount(aLo, aHi, nLo, nHi) == (aHi - aLo + 1) * (nHi - nLo + 1)
    decreases aHi - aLo + 1
  {
    if aLo <= aHi {
      CellCountIsProduct(aLo, aHi - 1, nLo, nHi);
      assert (aHi - aLo + 1) * (nHi - nLo + 1) == (aHi - 1 - aLo + 1) * (nHi - nLo + 1) + (nHi - nLo + 1);
    }
  }

  /** Every tuple of cell (a, n) is a solution with anchor a and gap n. */
  ghost predicate CellsSound(aLo: int, aHi: int, nLo: int, nHi: int, cell: (int, int) -> seq<Quad>) {
    forall a, n, q :: aLo <= a <= aHi && nLo <= n <= nHi && q in cell(a, n) ==> SolutionFor(q, a, n)
  }

  /** The anchor and the gap of q lie inside the searched ranges. */
  predicate InWindow(q: Quad, aLo: int, aHi: int, nLo: int, nHi: int) {
    aLo <= q.a <= aHi && nLo <= q.d - q.a <= nHi
  }

  lemma {:induction false} RowSound(a: int, nLo: int, nHi: int, cell: (int, int) -> seq<Quad>, aLo: int, aHi: int)
    requires CellsSound(aLo, aHi, nLo, nHi, cell) && aLo <= a <= aHi
    ensures forall q :: q in Row(a, nLo, nHi, cell) ==> IsSolution(q) && q.a == a && InWindow(q, aLo, aHi, nLo, nHi)
    decreases nHi - nLo + 1
  {
    if nLo <= nHi {
      assert CellsSound(aLo, aHi, nLo, nHi - 1, cell);
      RowSound(a, nLo, nHi - 1, cell, aLo, aHi);
    }
  }

  /** Every tuple of the sweep is a solution whose anchor and gap lie in the window. */
  lemma {:induction false} GridSound(aLo: int, aHi: int, nLo: int, nHi: int, cell: (int, int) -> seq<Quad>)
    requires CellsSound(aLo, aHi, nLo, nHi, cell)
    ensures forall q :: q in Grid(aLo, aHi, nLo, nHi, cell) ==> IsSolution(q) && InWindow(q, aLo, aHi, nLo, nHi)
    decreases aHi - aLo + 1
  {
    if aLo <= aHi {
      GridSound(aLo, aHi - 1, nLo, nHi, cell);
      RowSound(aHi, nLo, nHi, cell, aLo, aHi);
    }
  }

  /** Every tuple of every cell in the window appears in the sweep. */
  lemma {:induction false} GridContainsCells(aLo: int, aHi: int, nLo: int, nHi: int, cell: (int, int) -> seq<Quad>, a: int, n: int, q: Quad)
    requires aLo <= a <= aHi && nLo <= n <= nHi && q in cell(a, n)
    ensures q in Grid(aLo, aHi, nLo, nHi, cell)
    decreases aHi - aLo + 1
  {
    if a < aHi {
      GridContainsCells(aLo, aHi - 1, nLo, nHi, cell, a, n, q);
    } else {
      RowContainsCell(a, nLo, nHi, cell, n, q);
    }
  }

  lemma {:induction false} RowContainsCell(a: int, nLo: int, nHi: int, cell: (int, int) -> seq<Quad>, n: int, q: Quad)
    requires nLo <= n <= nHi && q in cell(a, n)
    ensures q in Row(a, nLo, nHi, cell)
    decreases nHi - nLo + 1
  {
    if n < nHi {
      RowContainsCell(a, nLo, nHi - 1, cell, n, q);
    }
  }

  lemma NoDuplicatesConcat(s: seq<Quad>, t: seq<Quad>)
    requires NoDuplicates(s) && NoDuplicates(t)
    requires forall x :: x in s ==> x !in t
    ensures NoDuplicates(s + t)
  {
    var u := s + t;
    forall i, j | 0 <= i < j < |u|
      ensures u[i] != u[j]
    {
      if i < |s| && j >= |s| {
        assert u[i] in s && u[j] in t;
      } else if i >= |s| {
        assert u[i] == t[i - |s|] && u[j] == t[j - |s|];
      }
    }
  }

  /**
   * No tuple is repeated in the sweep although no de-duplication is done across cells:
   * tuples of different cells differ in their anchor or their gap.
   */
  lemma {:induction false} GridNoDuplicates(aLo: int, aHi: int, nLo: int, nHi: int, cell: (int, int) -> seq<Quad>)
    requires CellsSound(aLo, aHi, nLo, nHi, cell)
    requires forall a, n :: aLo <= a <= aHi && nLo <= n <= nHi ==> NoDuplicates(cell(a, n))
    ensures NoDuplicates(Grid(aLo, aHi, nLo, nHi, cell))
    decreases aHi - aLo + 1
  {
    if aLo <= aHi {
      GridNoDuplicates(aLo, aHi - 1, nLo, nHi, cell);
      GridSound(aLo, aHi - 1, nLo, nHi, cell);
      RowNoDuplicates(aHi, nLo, nHi, cell, aLo, aHi);
      RowSound(aHi, nLo, nHi, cell, aLo, aHi);
      NoDuplicatesConcat(Grid(aLo, aHi - 1, nLo, nHi, cell), Row(aHi, nLo, nHi, cell));
    }
  }

  lemma {:induction false} RowNoDuplicates(a: int, nLo: int, nHi: int, cell: (int, int) -> seq<Quad>, aLo: int, aHi: int)
    requires CellsSound(aLo, aHi, nLo, nHi, cell) && aLo <= a <= aHi
    requires forall a', n :: aLo <= a' <= aHi && nLo <= n <= nHi ==> NoDuplicates(cell(a', n))
    ensures NoDuplicates(Row(a, nLo, nHi, cell))
    decreases nHi - nLo + 1
  {
    if nLo <= nHi {
      assert CellsSound(aLo, aHi, nLo, nHi - 1, cell);
      RowNoDuplicates(a, nLo, nHi - 1, cell, aLo, aHi);
      RowSound(a, nLo, nHi - 1, cell, aLo, aHi);
      NoDuplicatesConcat(Row(a, nLo, nHi - 1, cell), cell(a, nHi));
    }
  }

  /** The count of non-empty cells is zero exactly when the sweep found nothing. */
  lemma {:induction false} NonEmptyCellsZero(aLo: int, aHi: int, nLo: int, nHi: int, cell: (int, int) -> seq<Quad>)
    ensures NonEmptyCells(aLo, aHi, nLo, nHi, cell) == 0 <==> Grid(aLo, aHi, nLo, nHi, cell) == []
    decreases aHi - aLo + 1
  {
    if aLo <= aHi {
      NonEmptyCellsZero(aLo, aHi - 1, nLo, nHi, cell);
      NonEmptyInRowZero(aHi, nLo, nHi, cell);
    }
  }

  lemma {:induction false} NonEmptyInRowZero(a: int, nLo: int, nHi: int, cell: (int, int) -> seq<Quad>)
    ensures NonEmptyInRow(a, nLo, nHi, cell) == 0 <==> Row(a, nLo, nHi, cell) == []
    decreases nHi - nLo + 1
  {
    if nLo <= nHi {
      NonEmptyInRowZero(a, nLo, nHi - 1, cell);
    }
  }

  /** Two cell functions that agree on every cell of the window give the same sweep. */
  lemma {:induction false} GridCongruence(aLo: int, aHi: int, nLo: int, nHi: int,
                                          cell: (int, int) -> seq<Quad>, cell': (int, int) -> seq<Quad>)
    requires forall a, n :: aLo <= a <= aHi && nLo <= n <= nHi ==> cell(a, n) == cell'(a, n)
    ensures Grid(aLo, aHi, nLo, nHi, cell) == Grid(aLo, aHi, nLo, nHi, cell')
    decreases aHi - aLo + 1
  {
    if aLo <= aHi {
      GridCongruence(aLo, aHi - 1, nLo, nHi, cell, cell');
      RowCongruence(aHi, nLo, nHi, cell, cell');
    }
  }

  lemma {:induction false} RowCongruence(a: int, nLo: int, nHi: int,
                                         cell: (int, int) -> seq<Quad>, cell': (int, int) -> seq<Quad>)
    requires forall n :: nLo <= n <= nHi ==> cell(a, n) == cell'(a, n)
    ensures Row(a, nLo, nHi, cell) == Row(a, nLo, nHi, cell')
    decreases nHi - nLo + 1
  {
    if nLo <= nHi {
      RowCongruence(a, nLo, nHi - 1, cell, cell');
    }
  }
}
