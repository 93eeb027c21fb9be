// SurfX: a triangulated surface as three arrays, with edges linking the
// triangles on their two sides and triangles pointing back at their three
// edges.  Pointers into the arrays are indices; a null pointer is -1.

module Surfaces {
  import opened Geom
  import opened Endpoints
  import opened Slicers

  /** edgeX: from vertex p0 to vertex p1, with the triangles on its right and left (or -1). */
  datatype EdgeX = EdgeX(p0: nat, p1: nat, tpR: int, tpL: int)

  /** triangX: the edges from corner a to b1, from a to b2 and from b1 to b2 (or -1). */
  datatype TriangX = TriangX(ab1: int, ab2: int, b12: int)

  /** A triangle with no edge linked yet. */
  const Unlinked := TriangX(-1, -1, -1)

  /** The edge joins vertices u and v, in either direction. */
  predicate Joins(e: EdgeX, u: nat, v: nat) {
    (e.p0 == u && e.p1 == v) || (e.p0 == v && e.p1 == u)
  }

  datatype SurfX = SurfX(vdX: seq<P3>, edX: seq<EdgeX>, trX: seq<TriangX>, gxrg: I1, gyrg: I1, gzrg: I1) {

    /** Every index points into its array; a triangle's slots may still be empty. */
    predicate Linked() {
      && (forall k :: 0 <= k < |edX| ==>
            edX[k].p0 < |vdX| && edX[k].p1 < |vdX| && -1 <= edX[k].tpR < |trX| && -1 <= edX[k].tpL < |trX|)
      && (forall t :: 0 <= t < |trX| ==>
            -1 <= trX[t].ab1 < |edX| && -1 <= trX[t].ab2 < |edX| && -1 <= trX[t].b12 < |edX|)
    }

    /** Linked, and every triangle has all three edges. */
    predicate Complete() {
      Linked() && forall t :: 0 <= t < |trX| ==> trX[t].ab1 >= 0 && trX[t].ab2 >= 0 && trX[t].b12 >= 0
    }

    /** Triangle t's slots hold edges that join its corners a, b1 and b2 as their names say. */
    predicate HasCorners(t: nat, a: nat, b1: nat, b2: nat)
      requires Complete() && t < |trX|
    {
      && Joins(edX[trX[t].ab1], a, b1)
      && Joins(edX[trX[t].ab2], a, b2)
      && Joins(edX[trX[t].b12], b1, b2)
    }

    /** triangX::ThirdPoint(): the end of ab1 that is not an end of b12. */
    function ThirdPoint(t: nat): (r: nat)
      requires Complete() && t < |trX|
      ensures r < |vdX|
      ensures r == edX[trX[t].ab1].p0 || r == edX[trX[t].ab1].p1
    {
      var ab1, b12 := edX[trX[t].ab1], edX[trX[t].b12];
      if ab1.p0 != b12.p0 && ab1.p0 != b12.p1 then ab1.p0 else ab1.p1
    }

    /**
      * triangX::ThirdPoint(pe): the corner off edge pe, which must be one of
      * the triangle's three edges.
      */
    function ThirdPointOff(t: nat, pe: nat): (r: nat)
      requires Complete() && t < |trX|
      requires pe == trX[t].ab1 || pe == trX[t].ab2 || pe == trX[t].b12
      ensures r < |vdX|
    {
      if pe == trX[t].b12 then ThirdPoint(t)
      else
        var b12, e := edX[trX[t].b12], edX[pe];
        if b12.p0 != e.p0 && b12.p0 != e.p1 then b12.p0 else b12.p1
    }

    /** The triangle as offered to a slicer: b12's ends, then the third point. */
    function Face(t: nat): Prim
      requires Complete() && t < |trX|
    {
      Facet(vdX[edX[trX[t].b12].p0], vdX[edX[trX[t].b12].p1], vdX[ThirdPoint(t)])
    }

    /** The vertices as offered, in array order. */
    function VertexPrims(n: nat): (r: seq<Prim>)
      requires n <= |vdX|
      ensures |r| == n && forall k :: 0 <= k < n ==> r[k] == Vertex(vdX[k])
    {
      if n == 0 then [] else VertexPrims(n - 1) + [Vertex(vdX[n - 1])]
    }

    /** The edges as offered, in array order. */
    function EdgePrims(n: nat): (r: seq<Prim>)
      requires Linked() && n <= |edX|
      ensures |r| == n && forall k :: 0 <= k < n ==> r[k] == Segment(vdX[edX[k].p0], vdX[edX[k].p1])
    {
      if n == 0 then [] else EdgePrims(n - 1) + [Segment(vdX[edX[n - 1].p0], vdX[edX[n - 1].p1])]
    }

    /** The triangles as offered, in array order. */
    function FacePrims(n: nat): (r: seq<Prim>)
      requires Complete() && n <= |trX|
      ensures |r| == n && forall k :: 0 <= k < n ==> r[k] == Face(k)
    {
      if n == 0 then [] else FacePrims(n - 1) + [Face(n - 1)]
    }

    /** Entry k of what SliceFibre offers: vertices first, then edges, then triangles. */
    function PrimAt(k: nat): Prim
      requires Complete() && k < |vdX| + |edX| + |trX|
    {
      if k < |vdX| then Vertex(vdX[k])
      else if k < |vdX| + |edX| then Segment(vdX[edX[k - |vdX|].p0], vdX[edX[k - |vdX|].p1])
      else Face(k - |vdX| - |edX|)
    }

    /** Everything SliceFibre offers, in the order it offers it. */
    function AllPrims(): (r: seq<Prim>)
      requires Complete()
      ensures |r| == |vdX| + |edX| + |trX|
      ensures forall k :: 0 <= k < |r| ==> r[k] == PrimAt(k)
    {
      seq(|vdX| + |edX| + |trX|, k requires 0 <= k < |vdX| + |edX| + |trX| => PrimAt(k))
    }
  }

  /** SliceFibre offers every vertex, then every edge, then every triangle, each in array order. */
  lemma AllPrimsInOrder(sx: SurfX)
    requires sx.Complete()
    ensures sx.AllPrims() == sx.VertexPrims(|sx.vdX|) + sx.EdgePrims(|sx.edX|) + sx.FacePrims(|sx.trX|)
  {
  }

  /**
    * On a triangle whose edges join its three distinct corners, ThirdPoint
    * is corner a, the one off b12.
    */
  lemma ThirdPointIsA(sx: SurfX, t: nat, a: nat, b1: nat, b2: nat)
    requires sx.Complete() && t < |sx.trX| && sx.HasCorners(t, a, b1, b2)
    requires a != b1 && a != b2 && b1 != b2
    ensures sx.ThirdPoint(t) == a
  {
  }

  /**
    * On such a triangle, ThirdPoint(pe) is the corner that pe does not
    * join, whichever of the three edges pe is.
    */
  lemma ThirdPointOffEdge(sx: SurfX, t: nat, a: nat, b1: nat, b2: nat, pe: nat)
    requires sx.Complete() && t < |sx.trX| && sx.HasCorners(t, a, b1, b2)
    requires a != b1 && a != b2 && b1 != b2
    requires pe == sx.trX[t].ab1 || pe == sx.trX[t].ab2 || pe == sx.trX[t].b12
    ensures var c := sx.ThirdPointOff(t, pe); c != sx.edX[pe].p0 && c != sx.edX[pe].p1
    ensures var c := sx.ThirdPointOff(t, pe); c == a || c == b1 || c == b2
  {
  }

  /**
    * Always true; as the only trigger of a quantifier it hides that
    * quantifier's body from every proof that does not mention Gate.
    */
  function Gate(k: nat): bool { true }

  /** SurfX::SliceFibre: offers every vertex, every edge and every triangle to the ball slicer. */
  method SliceFibre(sx: SurfX, rgen: RayGen)
    requires sx.Complete() && WellFormed(rgen.fib.ep)
    modifies rgen`fib, rgen`offered
    ensures rgen.offered == old(rgen.offered) + sx.AllPrims()
    ensures rgen.fib.wp == old(rgen.fib.wp)
    ensures rgen.fib.ep == MergeCuts(old(rgen.fib.ep), CutsOf(rgen.cut, sx.AllPrims(), rgen.ftype, rgen.fib.wp, rgen.z))
    ensures WellFormed(rgen.fib.ep)
  {
    ghost var o0, e0, wp, all := rgen.offered, rgen.fib.ep, rgen.fib.wp, sx.AllPrims();
    OfferedStart(rgen, all);
    OfferVertices(sx, rgen, o0, e0, wp, all);
    OfferEdges(sx, rgen, o0, e0, wp, all, |sx.vdX|);
    OfferFaces(sx, rgen, o0, e0, wp, all, |sx.vdX| + |sx.edX|);
    OfferedFacts(rgen, o0, e0, wp, all);
  }

  /** SliceFibre's first loop: every vertex, in array order. */
  method OfferVertices(sx: SurfX, rgen: RayGen, ghost o0: seq<Prim>, ghost e0: seq<B1>, ghost wp: real, ghost all: seq<Prim>)
    requires sx.Complete() && all == sx.AllPrims() && Offered(rgen, o0, e0, wp, all[..0])
    modifies rgen`fib, rgen`offered
    ensures Offered(rgen, o0, e0, wp, all[..|sx.vdX|])
  {
    var i := 0;
    while i < |sx.vdX|
      invariant 0 <= i <= |sx.vdX|
      invariant Offered(rgen, o0, e0, wp, all[..i])
    {
      OfferOne(rgen, Vertex(sx.vdX[i]), o0, e0, wp, all, i);
      i := i + 1;
    }
  }

  /** SliceFibre's second loop: every edge, in array order. */
  method OfferEdges(sx: SurfX, rgen: RayGen, ghost o0: seq<Prim>, ghost e0: seq<B1>, ghost wp: real, ghost all: seq<Prim>, ghost base: nat)
    requires sx.Linked() && base + |sx.edX| <= |all|
    requires forall k :: base <= k < base + |sx.edX| ==> all[k] == Segment(sx.vdX[sx.edX[k - base].p0], sx.vdX[sx.edX[k - base].p1])
    requires Offered(rgen, o0, e0, wp, all[..base])
    modifies rgen`fib, rgen`offered
    ensures Offered(rgen, o0, e0, wp, all[..base + |sx.edX|])
  {
    var i := 0;
    while i < |sx.edX|
      invariant 0 <= i <= |sx.edX|
      invariant Offered(rgen, o0, e0, wp, all[..base + i])
    {
      var e := sx.edX[i];
      OfferOne(rgen, Segment(sx.vdX[e.p0], sx.vdX[e.p1]), o0, e0, wp, all, base + i);
      i := i + 1;
    }
  }

  /** SliceFibre's third loop: every triangle, in array order. */
  method OfferFaces(sx: SurfX, rgen: RayGen, ghost o0: seq<Prim>, ghost e0: seq<B1>, ghost wp: real, ghost all: seq<Prim>, ghost base: nat)
    requires sx.Complete() && base + |sx.trX| <= |all|
    requires forall k :: base <= k < base + |sx.trX| ==> all[k] == sx.Face(k - base)
    requires Offered(rgen, o0, e0, wp, all[..base])
    modifies rgen`fib, rgen`offered
    ensures Offered(rgen, o0, e0, wp, all[..base + |sx.trX|])
    ensures base + |sx.trX| == |all| ==> Offered(rgen, o0, e0, wp, all)
  {
    var i := 0;
    while i < |sx.trX|
      invariant 0 <= i <= |sx.trX|
      invariant Offered(rgen, o0, e0, wp, all[..base + i])
    {
      var b12 := sx.edX[sx.trX[i].b12];
      var f := Facet(sx.vdX[b12.p0], sx.vdX[b12.p1], sx.vdX[sx.ThirdPoint(i)]);
      assert all[base + i] == f;
      OfferOne(rgen, f, o0, e0, wp, all, base + i);
      i := i + 1;
    }
    if base + |sx.trX| == |all| {
      assert all[..base + |sx.trX|] == all;
    }
  }

  /**
    * The ray generator has been offered the run done since it held the
    * list e0 at wp, and has merged every cut of the run into it.
    */
  ghost predicate Offered(rgen: RayGen, o0: seq<Prim>, e0: seq<B1>, wp: real, done: seq<Prim>)
    reads rgen`fib, rgen`offered, rgen`ftype, rgen`z
  {
    forall k: nat {:trigger Gate(k)} :: Gate(k) ==> OfferedNow(rgen, o0, e0, wp, done)
  }

  /** Offered's body, which the gate keeps out of the loops that only pass it on. */
  ghost predicate OfferedNow(rgen: RayGen, o0: seq<Prim>, e0: seq<B1>, wp: real, done: seq<Prim>)
    reads rgen`fib, rgen`offered, rgen`ftype, rgen`z
  {
    && rgen.offered == o0 + done
    && rgen.fib.wp == wp
    && rgen.fib.ep == MergeCuts(e0, CutsOf(rgen.cut, done, rgen.ftype, wp, rgen.z))
    && WellFormed(rgen.fib.ep)
  }

  /** Nothing offered yet: the run is empty and the list as it was. */
  lemma OfferedStart(rgen: RayGen, all: seq<Prim>)
    requires WellFormed(rgen.fib.ep)
    ensures Offered(rgen, rgen.offered, rgen.fib.ep, rgen.fib.wp, all[..0])
  {
    assert all[..0] == [];
    assert OfferedNow(rgen, rgen.offered, rgen.fib.ep, rgen.fib.wp, all[..0]);
  }

  /** What Offered says, once the gate is opened. */
  lemma OfferedFacts(rgen: RayGen, o0: seq<Prim>, e0: seq<B1>, wp: real, done: seq<Prim>)
    requires Offered(rgen, o0, e0, wp, done)
    ensures rgen.offered == o0 + done && rgen.fib.wp == wp
    ensures rgen.fib.ep == MergeCuts(e0, CutsOf(rgen.cut, done, rgen.ftype, wp, rgen.z))
    ensures WellFormed(rgen.fib.ep)
  {
    assert Gate(0);
  }

  /** One BallSlice: entry n of the run all, after the n before it. */
  method OfferOne(rgen: RayGen, pr: Prim, ghost o0: seq<Prim>, ghost e0: seq<B1>, ghost wp: real,
                  ghost all: seq<Prim>, ghost n: nat)
    requires n < |all| && all[n] == pr && Offered(rgen, o0, e0, wp, all[..n])
    modifies rgen`fib, rgen`offered
    ensures Offered(rgen, o0, e0, wp, all[..n + 1])
  {
    assert Gate(0);
    ghost var done := all[..n];
    assert all[..n + 1] == done + [pr];
    rgen.BallSlice(pr);
    assert CutsOf(rgen.cut, done + [pr], rgen.ftype, wp, rgen.z)
        == CutsOf(rgen.cut, done, rgen.ftype, wp, rgen.z) + [rgen.cut(pr, rgen.ftype, wp, rgen.z)];
  }

  /** SurfX::SliceRay: offers every triangle, and nothing else, to the line slicer. */
  method SliceRay(sx: SurfX, sgen: SLiGen)
    requires sx.Complete()
    modifies sgen`inter, sgen`offered
    ensures sgen.offered == old(sgen.offered) + sx.FacePrims(|sx.trX|)
    ensures sgen.inter == old(sgen.inter) + CrossingsOf(sgen.crossings, sgen.p0, sgen.p1, sx.FacePrims(|sx.trX|))
  {
    ghost var o0, i0 := sgen.offered, sgen.inter;
    var i := 0;
    while i < |sx.trX|
      invariant 0 <= i <= |sx.trX|
      invariant Crossed(sgen, o0, i0, sx.FacePrims(i))
    {
      SliceFace(sx, sgen, i, o0, i0);
      i := i + 1;
    }
  }

  /** The line slicer has been offered the run done since it held the crossings i0. */
  ghost predicate Crossed(sgen: SLiGen, o0: seq<Prim>, i0: seq<real>, done: seq<Prim>)
    reads sgen`offered, sgen`inter, sgen`p0, sgen`p1
  {
    sgen.offered == o0 + done && sgen.inter == i0 + CrossingsOf(sgen.crossings, sgen.p0, sgen.p1, done)
  }

  /** SliceRay's loop body: triangle i offered after the triangles before it. */
  method SliceFace(sx: SurfX, sgen: SLiGen, i: nat, ghost o0: seq<Prim>, ghost i0: seq<real>)
    requires sx.Complete() && i < |sx.trX| && Crossed(sgen, o0, i0, sx.FacePrims(i))
    modifies sgen`inter, sgen`offered
    ensures Crossed(sgen, o0, i0, sx.FacePrims(i + 1))
  {
    ghost var done, f := sx.FacePrims(i), sx.Face(i);
    assert sx.FacePrims(i + 1) == done + [f];
    assert (done + [f])[..|done|] == done;
    var b12 := sx.edX[sx.trX[i].b12];
    sgen.SliceTriangle(sx.vdX[b12.p0], sx.vdX[b12.p1], sx.vdX[sx.ThirdPoint(i)]);
  }
}
