// The slicers the surface drives: Ray_gen, which cuts the intervals a ball
// of the tool's radius sweeps out of a held fibre, and SLi_gen, which
// collects where triangles cross one line and converts the crossings into
// intervals.  Their geometry (BallSlice, SliceTriangle, Convert) is not part
// of this model: each slicer carries it as a function it is given, and the
// model records what it is offered and merges what it returns.

module Slicers {
  import opened Maybe
  import opened Geom
  import opened Endpoints
  import opened Fibres
  import opened Weave

  /** What a slicer is offered: a vertex, an edge or a triangle, by its corner points. */
  datatype Prim = Vertex(p: P3) | Segment(p0: P3, p1: P3) | Facet(a: P3, b1: P3, b2: P3)

  /** A cut: the range reslo..reshi with the internal-cell-bound flag of each end. */
  datatype Cut = Cut(lo: real, blo: bool, hi: real, bhi: bool)

  /** A cut whose ends are in order, as the slicers return them. */
  type OrderedCut = c: Cut | c.lo <= c.hi witness Cut(0.0, false, 0.0, false)

  /** An interval whose ends are in order, as Convert returns them. */
  type Span = r: I1 | r.lo <= r.hi witness I1(0.0, 0.0)

  /** The list after merging every cut in turn. */
  function MergeCuts(ep: seq<B1>, cuts: seq<Option<OrderedCut>>): seq<B1> {
    if cuts == [] then ep
    else
      var e := MergeCuts(ep, cuts[..|cuts| - 1]);
      match cuts[|cuts| - 1]
      case Nothing => e
      case Just(c) => Merged(e, c.lo, c.blo, c.hi, c.bhi)
  }

  /** Some cut in the list covers x. */
  ghost predicate CutCovers(cuts: seq<Option<OrderedCut>>, x: real) {
    exists k :: 0 <= k < |cuts| && cuts[k].Just? && cuts[k].value.lo <= x <= cuts[k].value.hi
  }

  /**
    * Merging cuts keeps the list well formed and covers exactly what it
    * covered before together with every cut.
    */
  lemma {:induction false} MergeCutsUnion(ep: seq<B1>, cuts: seq<Option<OrderedCut>>, x: real)
    requires WellFormed(ep)
    ensures WellFormed(MergeCuts(ep, cuts))
    ensures Covers(MergeCuts(ep, cuts), x) <==> Covers(ep, x) || CutCovers(cuts, x)
  {
    if cuts != [] {
      var init := cuts[..|cuts| - 1];
      MergeCutsUnion(ep, init, x);
      CutCoversLast(cuts, x);
      var e := MergeCuts(ep, init);
      if cuts[|cuts| - 1].Just? {
        var c := cuts[|cuts| - 1].value;
        MergeUnion(e, c.lo, c.blo, c.hi, c.bhi);
      }
    }
  }

  /** A list of cuts covers x when the ones before the last do or the last one does. */
  lemma CutCoversLast(cuts: seq<Option<OrderedCut>>, x: real)
    requires cuts != []
    ensures CutCovers(cuts, x) <==>
              CutCovers(cuts[..|cuts| - 1], x) ||
              (cuts[|cuts| - 1].Just? && cuts[|cuts| - 1].value.lo <= x <= cuts[|cuts| - 1].value.hi)
  {
    var init := cuts[..|cuts| - 1];
    if CutCovers(init, x) {
      var k :| 0 <= k < |init| && init[k].Just? && init[k].value.lo <= x <= init[k].value.hi;
      assert cuts[k] == init[k];
    }
    if CutCovers(cuts, x) && !CutCovers(init, x) {
      var k :| 0 <= k < |cuts| && cuts[k].Just? && cuts[k].value.lo <= x <= cuts[k].value.hi;
      assert k == |cuts| - 1;
    }
  }

  /** What cut gives for each of a run of primitives on a fibre of family ft at wp, height z. */
  function CutsOf(cut: (Prim, FibreType, real, real) -> Option<OrderedCut>, prims: seq<Prim>,
                  ft: FibreType, wp: real, z: real): (r: seq<Option<OrderedCut>>)
    ensures |r| == |prims|
    ensures forall k :: 0 <= k < |prims| ==> r[k] == cut(prims[k], ft, wp, z)
  {
    if prims == [] then []
    else CutsOf(cut, prims[..|prims| - 1], ft, wp, z) + [cut(prims[|prims| - 1], ft, wp, z)]
  }

  /** The cuts of two runs of primitives, one after the other, are the cuts of the joined run. */
  lemma CutsOfAppend(cut: (Prim, FibreType, real, real) -> Option<OrderedCut>, p1: seq<Prim>, p2: seq<Prim>,
                     ft: FibreType, wp: real, z: real)
    ensures CutsOf(cut, p1 + p2, ft, wp, z) == CutsOf(cut, p1, ft, wp, z) + CutsOf(cut, p2, ft, wp, z)
  {
    var a, b, c := CutsOf(cut, p1 + p2, ft, wp, z), CutsOf(cut, p1, ft, wp, z), CutsOf(cut, p2, ft, wp, z);
    forall k | 0 <= k < |a| ensures a[k] == (b + c)[k] {
      if k < |p1| {
        assert (p1 + p2)[k] == p1[k];
      } else {
        assert (p1 + p2)[k] == p2[k - |p1|];
      }
    }
  }

  /** Merging one run of cuts and then another is merging the joined run. */
  lemma {:induction false} MergeCutsAppend(ep: seq<B1>, c1: seq<Option<OrderedCut>>, c2: seq<Option<OrderedCut>>)
    ensures MergeCuts(MergeCuts(ep, c1), c2) == MergeCuts(ep, c1 + c2)
    decreases |c2|
  {
    if c2 == [] {
      assert c1 + c2 == c1;
    } else {
      var init := c2[..|c2| - 1];
      MergeCutsAppend(ep, c1, init);
      assert (c1 + c2)[..|c1 + c2| - 1] == c1 + init;
      assert (c1 + c2)[|c1 + c2| - 1] == c2[|c2| - 1];
    }
  }

  /** The crossings a run of triangles adds on the line from p0 to p1. */
  function CrossingsOf(crossings: (P3, P3, Prim) -> seq<real>, p0: P3, p1: P3, prims: seq<Prim>): seq<real> {
    if prims == [] then []
    else CrossingsOf(crossings, p0, p1, prims[..|prims| - 1]) + crossings(p0, p1, prims[|prims| - 1])
  }

  /**
    * The ball-slice geometry with its result trimmed to the ray's range zrg:
    * from what is offered and the fibre's family, position and height to
    * the range cut, if any.
    */
  function Trimmed(geometry: (Prim, FibreType, real, real, I1) -> Option<OrderedCut>, zrg: I1)
    : (Prim, FibreType, real, real) -> Option<OrderedCut>
  {
    (pr: Prim, ft: FibreType, wp: real, z: real) => geometry(pr, ft, wp, z, zrg)
  }

  /**
    * Ray_gen: slices one held fibre at height z with a ball of radius
    * radball.  BallSlice's geometry, with TrimToZrg to the ray's range zrg,
    * is the function cut.
    */
  class RayGen {
    const radball: real
    /** The ray's range (NormRay_gen's zrg), which every result is trimmed to. */
    const zrg: I1
    const cut: (Prim, FibreType, real, real) -> Option<OrderedCut>
    var z: real
    /** The family of the held fibre. */
    var ftype: FibreType
    /** The held fibre (pfib). */
    var fib: Fibre
    /** The held fibre's extent (pfib->wrg). */
    var wrg: I1
    /** Everything offered since the fibre was held, in order. */
    ghost var offered: seq<Prim>

    /** Ray_gen(lradball, lwrg), with its geometry. */
    constructor (lradball: real, lwrg: I1, geometry: (Prim, FibreType, real, real, I1) -> Option<OrderedCut>)
      ensures radball == lradball && zrg == lwrg && cut == Trimmed(geometry, zrg)
      ensures fib == Fibre([], 0.0) && offered == []
    {
      radball := lradball;
      zrg := lwrg;
      cut := Trimmed(geometry, lwrg);
      z := 0.0;
      ftype := NoFibre;
      fib := Fibre([], 0.0);
      wrg := I1unit;
      offered := [];
    }

    /** Ray_gen::HoldFibre: takes the fibre of family lftype over lwrg to slice at height lz. */
    method HoldFibre(f: Fibre, lftype: FibreType, lwrg: I1, lz: real)
      modifies this`fib, this`ftype, this`wrg, this`z, this`offered
      ensures fib == f && ftype == lftype && wrg == lwrg && z == lz && offered == []
    {
      fib := f;
      ftype := lftype;
      wrg := lwrg;
      z := lz;
      offered := [];
    }

    /** Ray_gen::BallSlice: merges what the primitive cuts into the held fibre. */
    method BallSlice(pr: Prim)
      requires WellFormed(fib.ep)
      modifies this`fib, this`offered
      ensures offered == old(offered) + [pr]
      ensures fib.wp == old(fib.wp)
      ensures fib.ep == MergeCuts(old(fib.ep), [cut(pr, ftype, fib.wp, z)])
      ensures WellFormed(fib.ep)
    {
      var c := cut(pr, ftype, fib.wp, z);
      if c.Just? {
        var ep := MergeEndpoints(fib.ep, c.value.lo, c.value.blo, c.value.hi, c.value.bhi);
        fib := Fibre(ep, fib.wp);
      }
      offered := offered + [pr];
    }
  }

  /**
    * SLi_gen: slices triangles along the line from p0 to p1.  SliceTriangle
    * adds the crossings the function crossings gives; Convert turns the
    * crossings into intervals with the function convert.
    */
  class SLiGen {
    const crossings: (P3, P3, Prim) -> seq<real>
    const convert: (P3, P3, seq<real>, I1, I1, I1) -> seq<Span>
    var p0: P3
    var p1: P3
    /** The crossings found since the position was set. */
    var inter: seq<real>
    /** Every triangle offered since the position was set, in order. */
    ghost var offered: seq<Prim>

    constructor (lcrossings: (P3, P3, Prim) -> seq<real>, lconvert: (P3, P3, seq<real>, I1, I1, I1) -> seq<Span>)
      ensures crossings == lcrossings && convert == lconvert && inter == [] && offered == []
    {
      crossings := lcrossings;
      convert := lconvert;
      p0 := P3(0.0, 0.0, 0.0);
      p1 := P3(0.0, 0.0, 0.0);
      inter := [];
      offered := [];
    }

    /** SLi_gen::SetSlicePos: a new line, with no crossings yet. */
    method SetSlicePos(lp0: P3, lp1: P3)
      modifies this`p0, this`p1, this`inter, this`offered
      ensures p0 == lp0 && p1 == lp1 && inter == [] && offered == []
    {
      p0, p1 := lp0, lp1;
      inter := [];
      offered := [];
    }

    /** SLi_gen::SliceTriangle: adds where the triangle crosses the line. */
    method SliceTriangle(a: P3, b1: P3, b2: P3)
      modifies this`inter, this`offered
      ensures offered == old(offered) + [Facet(a, b1, b2)]
      ensures inter == old(inter) + crossings(p0, p1, Facet(a, b1, b2))
    {
      inter := inter + crossings(p0, p1, Facet(a, b1, b2));
      offered := offered + [Facet(a, b1, b2)];
    }

    /** SLi_gen::Convert: the intervals the crossings bound, within the ranges. */
    method Convert(xrg: I1, yrg: I1, zrg: I1) returns (res: seq<Span>)
      ensures res == convert(p0, p1, inter, xrg, yrg, zrg)
    {
      res := convert(p0, p1, inter, xrg, yrg, zrg);
    }
  }
}
