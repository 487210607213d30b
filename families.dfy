/**
 * Solution families (app-p.py, lines 171-185, 204-228 and 303-324): every found tuple is
 * filed under its primitive form together with its common factor, the primitive ones are
 * collected in order, and each primitive p is scaled by the factors 2 .. max_factor, a
 * scaled tuple being appended only when it is not yet in the list (and, in the range
 * search, only when its anchor and gap lie inside the searched window).
 */
module Families {
  import opened Wrappers
  import opened Quadruplets
  import opened Primitive
  import opened Grids

  // ---------------------------------------------------------------------------------
  // Filing found tuples by primitive form

  /** One entry of a family: the tuple and its common factor. */
  datatype Member = Member(q: Quad, factor: nat)

  /** The key under which a tuple is filed: itself when primitive, else its reduction. */
  function FamilyKey(q: Quad): Quad {
    if CommonFactor(q) == 1 then q
    else match GetPrimitiveForm(q)
      case Some(r) => r.p
      case None => q   // the all-zero tuple, which no search produces
  }

  /** Appending q to the family of its key, creating the family when it is new. */
  function File(families: map<Quad, seq<Member>>, q: Quad): map<Quad, seq<Member>> {
    var k := FamilyKey(q);
    families[k := (if k in families then families[k] else []) + [Member(q, CommonFactor(q))]]
  }

  /** The families after filing the tuples of qs in order. */
  function FileAll(qs: seq<Quad>): map<Quad, seq<Member>>
    decreases |qs|
  {
    if qs == [] then map[] else File(FileAll(qs[..|qs| - 1]), qs[|qs| - 1])
  }

  /** The primitive tuples of qs, in order. */
  function Primitives(qs: seq<Quad>): seq<Quad>
    decreases |qs|
  {
    if qs == [] then []
    else Primitives(qs[..|qs| - 1]) + (if IsPrimitive(qs[|qs| - 1]) then [qs[|qs| - 1]] else [])
  }

  /** Every key is primitive and every member is its key times the member's common factor. */
  ghost predicate WellFiled(families: map<Quad, seq<Member>>) {
    forall k :: k in families ==>
      IsPrimitive(k) && |families[k]| > 0 &&
      forall m :: m in families[k] ==> m.factor == CommonFactor(m.q) && m.q == Scale(k, m.factor)
  }

  /** The key of a non-zero tuple is primitive and scales back to the tuple. */
  lemma FamilyKeyScalesBack(q: Quad)
    requires q != Zero
    ensures IsPrimitive(FamilyKey(q)) && Scale(FamilyKey(q), CommonFactor(q)) == q
    ensures IsPrimitive(q) ==> FamilyKey(q) == q
  {
    PrimitiveFormRoundTrip(q);
    PrimitiveFormIsPrimitive(q);
    if IsPrimitive(q) {
      assert Scale(q, 1) == q;
    }
  }

  /**
   * Filing is exact: every tuple of qs sits in the family of its key with its common
   * factor, and every member of every family is a tuple of qs filed under its own key.
   */
  lemma {:induction false} FileAllMembers(qs: seq<Quad>)
    ensures forall q :: q in qs ==>
      FamilyKey(q) in FileAll(qs) && Member(q, CommonFactor(q)) in FileAll(qs)[FamilyKey(q)]
    ensures forall k :: k in FileAll(qs) ==>
      && |FileAll(qs)[k]| > 0
      && forall m :: m in FileAll(qs)[k] ==> m.q in qs && k == FamilyKey(m.q) && m.factor == CommonFactor(m.q)
    decreases |qs|
  {
    if qs != [] {
      var init, x := qs[..|qs| - 1], qs[|qs| - 1];
      assert qs == init + [x];
      FileAllMembers(init);
    }
  }

  /** Filing tuples none of which is all-zero (every solution) gives well-formed families. */
  lemma FileAllWellFiled(qs: seq<Quad>)
    requires forall q :: q in qs ==> q != Zero
    ensures WellFiled(FileAll(qs))
  {
    var fams: map<Quad, seq<Member>> := FileAll(qs);
    FileAllMembers(qs);
    forall k | k in fams
      ensures IsPrimitive(k) && |fams[k]| > 0
      ensures forall m :: m in fams[k] ==> m.factor == CommonFactor(m.q) && m.q == Scale(k, m.factor)
    {
      var m0 := fams[k][0];
      assert m0 in fams[k];
      FamilyKeyScalesBack(m0.q);
      forall m | m in fams[k]
        ensures m.factor == CommonFactor(m.q) && m.q == Scale(k, m.factor)
      {
        FamilyKeyScalesBack(m.q);
      }
    }
  }

  /** Two positive multiples of the same value that are equal and positive have equal factors. */
  lemma EqualMultiples(x: int, g: int, g': int)
    requires g > 0 && g' > 0 && g * x == g' * x && g * x > 0
    ensures g == g'
  {
    ProductBounds(g, x);
    MultiplyByPositive(x, g, g');
  }

  /** Two tuples with the same anchor a > 0 in the same family are equal. */
  lemma SameKeySameAnchor(q: Quad, q': Quad)
    requires q.a > 0 && q.a == q'.a && FamilyKey(q) == FamilyKey(q')
    ensures q == q'
  {
    assert q != Zero && q' != Zero;
    FamilyKeyScalesBack(q);
    FamilyKeyScalesBack(q');
    CommonFactorZero(q);
    CommonFactorZero(q');
    var k, g, g' := FamilyKey(q), CommonFactor(q), CommonFactor(q');
    assert Scale(k, g) == q && Scale(k, g') == q';
    EqualMultiples(k.a, g, g');
  }

  /**
   * In a single search every found tuple has the same anchor a > 0 and no tuple is found
   * twice, so each family has exactly one member.
   */
  lemma {:induction false} SingleAnchorFamiliesAreSingletons(qs: seq<Quad>, a: int)
    requires a > 0 && NoDuplicates(qs) && forall q :: q in qs ==> q.a == a
    ensures forall k :: k in FileAll(qs) ==> |FileAll(qs)[k]| == 1
    decreases |qs|
  {
    if qs != [] {
      var init, x := qs[..|qs| - 1], qs[|qs| - 1];
      assert qs == init + [x];
      assert NoDuplicates(init) by {
        forall i, j | 0 <= i < j < |init| ensures init[i] != init[j] {
          assert init[i] == qs[i] && init[j] == qs[j];
        }
      }
      SingleAnchorFamiliesAreSingletons(init, a);
      FileAllMembers(init);
      var k := FamilyKey(x);
      if k in FileAll(init) {
        var m := FileAll(init)[k][0];
        assert m in FileAll(init)[k];
        assert m.q in init;
        SameKeySameAnchor(m.q, x);
        assert false;
      }
    }
  }

  /** Primitives keeps exactly the primitive tuples of qs. */
  lemma {:induction false} PrimitivesMembers(qs: seq<Quad>)
    ensures forall x :: x in Primitives(qs) <==> x in qs && IsPrimitive(x)
    decreases |qs|
  {
    if qs != [] {
      var init := qs[..|qs| - 1];
      assert qs == init + [qs[|qs| - 1]];
      PrimitivesMembers(init);
    }
  }

  /** Primitives keeps a list free of duplicates. */
  lemma {:induction false} PrimitivesNoDuplicates(qs: seq<Quad>)
    requires NoDuplicates(qs)
    ensures NoDuplicates(Primitives(qs))
    decreases |qs|
  {
    if qs != [] {
      var init, x := qs[..|qs| - 1], qs[|qs| - 1];
      assert qs == init + [x];
      assert NoDuplicates(init) by {
        forall i, j | 0 <= i < j < |init| ensures init[i] != init[j] {
          assert init[i] == qs[i] && init[j] == qs[j];
        }
      }
      PrimitivesNoDuplicates(init);
      PrimitivesMembers(init);
      assert x !in init;
      NoDuplicatesConcat(Primitives(init), if IsPrimitive(x) then [x] else []);
    }
  }

  // ---------------------------------------------------------------------------------
  // Scaling primitives into families

  /** Where a scaled tuple may be added: anywhere, or inside the a/n window of a range search. */
  datatype Window = Unbounded | Bounded(aLo: int, aHi: int, nLo: int, nHi: int)

  predicate Admits(w: Window, q: Quad) {
    match w
    case Unbounded => true
    case Bounded(aLo, aHi, nLo, nHi) => InWindow(q, aLo, aHi, nLo, nHi)
  }

  /** Appending x when the window admits it and it is not already in the list. */
  function Extend(qs: seq<Quad>, x: Quad, w: Window): seq<Quad> {
    if Admits(w, x) && x !in qs then qs + [x] else qs
  }

  /** The list after trying the factors 2 .. f on p, in ascending order. */
  function ScaleUpTo(qs: seq<Quad>, p: Quad, f: int, w: Window): seq<Quad>
    decreases f
  {
    if f < 2 then qs else Extend(ScaleUpTo(qs, p, f - 1, w), Scale(p, f), w)
  }

  /** The list after scaling every primitive of prims, in order, by 2 .. maxFactor. */
  function Gen(qs: seq<Quad>, prims: seq<Quad>, maxFactor: int, w: Window): seq<Quad>
    decreases |prims|
  {
    if prims == [] then qs
    else ScaleUpTo(Gen(qs, prims[..|prims| - 1], maxFactor, w), prims[|prims| - 1], maxFactor, w)
  }

  predicate IsPrefix(s: seq<Quad>, t: seq<Quad>) {
    |s| <= |t| && t[..|s|] == s
  }

  /** x is f times a primitive of prims for some f in 2 .. maxFactor, and admitted. */
  ghost predicate Generated(x: Quad, prims: seq<Quad>, maxFactor: int, w: Window) {
    exists p, f :: p in prims && 2 <= f <= maxFactor && x == Scale(p, f) && Admits(w, x)
  }

  lemma PrefixTransitive(s: seq<Quad>, t: seq<Quad>, u: seq<Quad>)
    requires IsPrefix(s, t) && IsPrefix(t, u)
    ensures IsPrefix(s, u)
  {
    assert u[..|s|] == u[..|t|][..|s|];
  }

  lemma ExtendProperties(qs: seq<Quad>, x: Quad, w: Window)
    ensures IsPrefix(qs, Extend(qs, x, w))
    ensures forall y :: y in Extend(qs, x, w) <==> y in qs || (y == x && Admits(w, x))
    ensures NoDuplicates(qs) ==> NoDuplicates(Extend(qs, x, w))
  {
    if Admits(w, x) && x !in qs {
      assert (qs + [x])[..|qs|] == qs;
      if NoDuplicates(qs) {
        NoDuplicatesConcat(qs, [x]);
      }
    }
  }

  /**
   * Trying the factors 2 .. f on p keeps qs as a prefix, keeps the list free of
   * duplicates, and adds exactly the admitted multiples p * 2 .. p * f.
   */
  lemma {:induction false} ScaleUpToProperties(qs: seq<Quad>, p: Quad, f: int, w: Window)
    ensures IsPrefix(qs, ScaleUpTo(qs, p, f, w))
    ensures NoDuplicates(qs) ==> NoDuplicates(ScaleUpTo(qs, p, f, w))
    ensures forall y :: y in ScaleUpTo(qs, p, f, w) <==>
      y in qs || exists g :: 2 <= g <= f && y == Scale(p, g) && Admits(w, y)
    decreases f
  {
    if f < 2 {
      assert qs[..|qs|] == qs;
    } else {
      var prev := ScaleUpTo(qs, p, f - 1, w);
      ScaleUpToProperties(qs, p, f - 1, w);
      ExtendProperties(prev, Scale(p, f), w);
      PrefixTransitive(qs, prev, ScaleUpTo(qs, p, f, w));
      forall y | y in ScaleUpTo(qs, p, f, w)
        ensures y in qs || exists g :: 2 <= g <= f && y == Scale(p, g) && Admits(w, y)
      {
      }
    }
  }

  /**
   * Family generation keeps qs as a prefix, keeps the list free of duplicates, and the
   * result holds exactly the tuples of qs and the admitted multiples of the primitives.
   */
  lemma {:induction false} GenProperties(qs: seq<Quad>, prims: seq<Quad>, maxFactor: int, w: Window)
    ensures IsPrefix(qs, Gen(qs, prims, maxFactor, w))
    ensures NoDuplicates(qs) ==> NoDuplicates(Gen(qs, prims, maxFactor, w))
    ensures forall y :: y in Gen(qs, prims, maxFactor, w) <==> y in qs || Generated(y, prims, maxFactor, w)
    decreases |prims|
  {
    if prims == [] {
      assert qs[..|qs|] == qs;
    } else {
      var init, p := prims[..|prims| - 1], prims[|prims| - 1];
      assert prims == init + [p];
      var prev := Gen(qs, init, maxFactor, w);
      GenProperties(qs, init, maxFactor, w);
      ScaleUpToProperties(prev, p, maxFactor, w);
      PrefixTransitive(qs, prev, Gen(qs, prims, maxFactor, w));
      forall y | y in Gen(qs, prims, maxFactor, w)
        ensures y in qs || Generated(y, prims, maxFactor, w)
      {
        if y !in prev {
          var g :| 2 <= g <= maxFactor && y == Scale(p, g) && Admits(w, y);
          assert p in prims;
        }
      }
      forall y | Generated(y, prims, maxFactor, w)
        ensures y in Gen(qs, prims, maxFactor, w)
      {
        var p', g :| p' in prims && 2 <= g <= maxFactor && y == Scale(p', g) && Admits(w, y);
        if p' in init {
          assert Generated(y, init, maxFactor, w);
        } else {
          assert p' == p;
        }
      }
    }
  }

  /** Scaling by a positive factor keeps solutions solutions, so generation is sound. */
  lemma GenSound(qs: seq<Quad>, prims: seq<Quad>, maxFactor: int, w: Window)
    requires forall q :: q in qs ==> IsSolution(q)
    requires forall p :: p in prims ==> IsSolution(p)
    ensures forall y :: y in Gen(qs, prims, maxFactor, w) ==> IsSolution(y)
  {
    GenProperties(qs, prims, maxFactor, w);
    forall y | y in Gen(qs, prims, maxFactor, w)
      ensures IsSolution(y)
    {
      if y !in qs {
        var p, f :| p in prims && 2 <= f <= maxFactor && y == Scale(p, f) && Admits(w, y);
        ScaleSolution(p, f);
      }
    }
  }

  /** Factors below 2 generate nothing: the loop over range(2, max_factor + 1) is empty. */
  lemma {:induction false} GenWithoutFactors(qs: seq<Quad>, prims: seq<Quad>, maxFactor: int, w: Window)
    requires maxFactor < 2
    ensures Gen(qs, prims, maxFactor, w) == qs
    decreases |prims|
  {
    if prims != [] {
      GenWithoutFactors(qs, prims[..|prims| - 1], maxFactor, w);
    }
  }

  /**
   * The guard at app-p.py, line 217 always holds: the gap of f * p is f times the gap of p,
   * not the gap n that the search was asked for.
   */
  lemma ScaledGap(p: Quad, f: int)
    ensures Scale(p, f).d == Scale(p, f).a + f * (p.d - p.a)
  {
  }

  /** The generation loops of app-p.py, lines 209-225 and 307-324. */
  method Generate(qs: seq<Quad>, prims: seq<Quad>, maxFactor: int, w: Window) returns (r: seq<Quad>)
    ensures r == Gen(qs, prims, maxFactor, w)
  {
    r := qs;
    for i := 0 to |prims|
      invariant r == Gen(qs, prims[..i], maxFactor, w)
    {
      var p := prims[i];
      ghost var before := r;
      var factor := 2;
      while factor <= maxFactor
        invariant 2 <= factor && (factor <= maxFactor + 1 || factor == 2)
        invariant r == ScaleUpTo(before, p, factor - 1, w)
        decreases maxFactor - factor
      {
        var scaled := Scale(p, factor);
        ScaledGap(p, factor);
        if scaled.d == scaled.a + factor * (p.d - p.a) {
          if Admits(w, scaled) && scaled !in r {
            r := r + [scaled];
          }
        }
        factor := factor + 1;
      }
      assert r == ScaleUpTo(before, p, maxFactor, w);
      assert prims[..i + 1][..i] == prims[..i];
    }
    assert prims[..|prims|] == prims;
  }
}
