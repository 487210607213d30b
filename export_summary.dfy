/**
 * The counts on the summary sheet of export_to_excel (app-p.py, lines 62-103): nothing is
 * exported for an empty list; otherwise the total, the number of primitive and of scaled
 * tuples, and the number of distinct common factors.
 */
module ExportSummary {
  import opened Wrappers
  import opened Quadruplets
  import opened Primitive
  import opened Families

  datatype Summary = Summary(total: nat, primitive: nat, scaled: nat, uniqueCommonFactors: nat)

  /** The tuples of qs that are not primitive, in order. */
  function Scaled(qs: seq<Quad>): seq<Quad>
    decreases |qs|
  {
    if qs == [] then []
    else Scaled(qs[..|qs| - 1]) + (if IsPrimitive(qs[|qs| - 1]) then [] else [qs[|qs| - 1]])
  }

  /** The set of common factors of the tuples of qs. */
  function CommonFactors(qs: seq<Quad>): set<nat> {
    set q | q in qs :: CommonFactor(q)
  }

  /** The summary counts; None when there is nothing to export. */
  function ExportCounts(qs: seq<Quad>): Option<Summary> {
    if qs == [] then None
    else Some(Summary(|qs|, |Primitives(qs)|, |Scaled(qs)|, |CommonFactors(qs)|))
  }

  /** Every tuple is counted either as primitive or as scaled. */
  lemma {:induction false} PrimitivePlusScaled(qs: seq<Quad>)
    ensures |Primitives(qs)| + |Scaled(qs)| == |qs|
    decreases |qs|
  {
    if qs != [] {
      PrimitivePlusScaled(qs[..|qs| - 1]);
    }
  }

  /** Appending a tuple adds at most one common factor. */
  lemma CommonFactorsOfSnoc(qs: seq<Quad>, x: Quad)
    ensures CommonFactors(qs + [x]) == CommonFactors(qs) + {CommonFactor(x)}
  {
    forall g | g in CommonFactors(qs + [x])
      ensures g in CommonFactors(qs) + {CommonFactor(x)}
    {
      var q :| q in qs + [x] && g == CommonFactor(q);
      if q != x {
        assert q in qs;
      }
    }
  }

  /** There are never more distinct common factors than tuples. */
  lemma {:induction false} CommonFactorsAtMost(qs: seq<Quad>)
    ensures |CommonFactors(qs)| <= |qs|
    decreases |qs|
  {
    if qs != [] {
      var init := qs[..|qs| - 1];
      assert qs == init + [qs[|qs| - 1]];
      CommonFactorsAtMost(init);
      CommonFactorsOfSnoc(init, qs[|qs| - 1]);
    }
  }

  /**
   * The summary exists exactly for a non-empty list; then primitive + scaled == total,
   * there is at least one and at most total distinct common factors, and the list is all
   * primitive exactly when no tuple is scaled.
   */
  lemma ExportCountsProperties(qs: seq<Quad>)
    ensures ExportCounts(qs).None? <==> qs == []
    ensures ExportCounts(qs).Some? ==>
      var s := ExportCounts(qs).value;
      && s.primitive + s.scaled == s.total == |qs|
      && 1 <= s.uniqueCommonFactors <= s.total
      && (s.scaled == 0 <==> forall q :: q in qs ==> IsPrimitive(q))
  {
    if qs != [] {
      PrimitivePlusScaled(qs);
      CommonFactorsAtMost(qs);
      PrimitivesMembers(qs);
      assert CommonFactor(qs[0]) in CommonFactors(qs);
      if |Scaled(qs)| == 0 {
        assert |Primitives(qs)| == |qs|;
        AllPrimitiveWhenFilterKeepsAll(qs);
      } else {
        ScaledMembers(qs);
        assert Scaled(qs)[0] in Scaled(qs);
      }
    }
  }

  /** Scaled keeps exactly the tuples of qs that are not primitive. */
  lemma {:induction false} ScaledMembers(qs: seq<Quad>)
    ensures forall x :: x in Scaled(qs) <==> x in qs && !IsPrimitive(x)
    decreases |qs|
  {
    if qs != [] {
      var init := qs[..|qs| - 1];
      assert qs == init + [qs[|qs| - 1]];
      ScaledMembers(init);
    }
  }

  /** When the primitive filter keeps as many tuples as there are, every tuple is primitive. */
  lemma {:induction false} AllPrimitiveWhenFilterKeepsAll(qs: seq<Quad>)
    requires |Primitives(qs)| == |qs|
    ensures forall q :: q in qs ==> IsPrimitive(q)
    decreases |qs|
  {
    if qs != [] {
      var init := qs[..|qs| - 1];
      assert qs == init + [qs[|qs| - 1]];
      PrimitivesAtMost(init);
      AllPrimitiveWhenFilterKeepsAll(init);
    }
  }

  lemma {:induction false} PrimitivesAtMost(qs: seq<Quad>)
    ensures |Primitives(qs)| <= |qs|
    decreases |qs|
  {
    if qs != [] {
      PrimitivesAtMost(qs[..|qs| - 1]);
    }
  }
}
