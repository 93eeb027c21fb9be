// The cells of SurfXboxed's grid that a primitive is put in.  The grid is
// a partition of the x-range into strips and a partition of the y-range
// for each strip.  A primitive's x-range, clipped to the grid, picks a run
// of strips; in each strip the primitive's y-range there, clipped, picks a
// run of cells.  Which cells these are, which out-of-range flags they set
// and whether the primitive gets a shared duplicate counter are stated
// here as functions of the grid and of the primitive's ranges.

module Footprints {
  import opened Maybe
  import opened Geom
  import opened Partitions
  import opened Crossings

  /** The partitions of a SurfXboxed: xpart over gbxrg and one partition of gbyrg per strip. */
  datatype Grid = Grid(gbxrg: I1, gbyrg: I1, xpart: Partition1, yparts: seq<Partition1>) {

    /** Every partition regular, over the grid's ranges, with one y-partition per strip. */
    predicate Valid() {
      && xpart.Valid() && xpart.bRegular && xpart.Getrg() == gbxrg
      && |yparts| == xpart.NumParts()
      && forall i :: 0 <= i < |yparts| ==> yparts[i].Valid() && yparts[i].bRegular && yparts[i].Getrg() == gbyrg
    }
  }

  /** The strips a clipped, non-empty x-range runs over. */
  function Strips(g: Grid, xc: I1): (r: (int, int))
    requires g.Valid() && xc.lo <= xc.hi && g.gbxrg.Contains(xc.lo) && g.gbxrg.Contains(xc.hi)
    ensures 0 <= r.0 <= r.1 < |g.yparts|
    ensures g.xpart.IsPartOf(xc.lo, r.0) && g.xpart.IsPartOf(xc.hi, r.1)
  {
    g.xpart.FindPartRG(xc)
  }

  /** The cells of strip ix a clipped, non-empty y-range runs over. */
  function Cells(g: Grid, ix: int, yc: I1): (r: (int, int))
    requires g.Valid() && 0 <= ix < |g.yparts|
    requires yc.lo <= yc.hi && g.gbyrg.Contains(yc.lo) && g.gbyrg.Contains(yc.hi)
    ensures 0 <= r.0 <= r.1 < g.yparts[ix].NumParts()
    ensures g.yparts[ix].IsPartOf(yc.lo, r.0) && g.yparts[ix].IsPartOf(yc.hi, r.1)
  {
    g.yparts[ix].FindPartRG(yc)
  }

  /** The primitive's x-range xrg clipped to the grid. */
  function ClipX(g: Grid, xrg: I1): Clipped {
    Clip(xrg, g.gbxrg)
  }

  /** The primitive's y-range in strip ix, ys[ix], clipped to the grid. */
  function ClipY(g: Grid, ys: seq<I1>, ix: int): Clipped
    requires 0 <= ix < |ys|
  {
    Clip(ys[ix], g.gbyrg)
  }

  /** A clipped range that is not empty. */
  predicate Filled(c: Clipped) {
    c.rg.lo <= c.rg.hi
  }

  /**
    * Cell (i, j) receives the primitive whose x-range is xrg and whose
    * y-range in strip k is ys[k]: strip i is in the run of the clipped
    * x-range, and cell j in the run of strip i's clipped y-range.
    */
  predicate InCell(g: Grid, xrg: I1, ys: seq<I1>, i: int, j: int)
    requires g.Valid() && |ys| == |g.yparts|
  {
    && Filled(ClipX(g, xrg))
    && Strips(g, ClipX(g, xrg).rg).0 <= i <= Strips(g, ClipX(g, xrg).rg).1
    && Filled(ClipY(g, ys, i))
    && Cells(g, i, ClipY(g, ys, i).rg).0 <= j <= Cells(g, i, ClipY(g, ys, i).rg).1
  }

  /** The clipped range was cut at the top (top) or at the bottom (!top). */
  predicate CutAt(c: Clipped, top: bool) {
    if top then c.above else c.below
  }

  /** Some strip from lo up to hi, not included, has its y-range cut at the top (top) or bottom. */
  function CutIn(g: Grid, ys: seq<I1>, lo: int, hi: int, top: bool): bool
    requires 0 <= lo && hi <= |ys|
    decreases hi - lo
  {
    if hi <= lo then false else CutIn(g, ys, lo, hi - 1, top) || CutAt(ClipY(g, ys, hi - 1), top)
  }

  /** One more strip: CutIn up to ix + 1 adds strip ix's flag. */
  lemma CutInNext(g: Grid, ys: seq<I1>, lo: int, ix: int)
    requires 0 <= lo <= ix < |ys|
    ensures CutIn(g, ys, lo, ix + 1, false) == (CutIn(g, ys, lo, ix, false) || ClipY(g, ys, ix).below)
    ensures CutIn(g, ys, lo, ix + 1, true) == (CutIn(g, ys, lo, ix, true) || ClipY(g, ys, ix).above)
  {
  }

  /** CutIn holds exactly when one of the strips lo .. hi - 1 is cut on that side. */
  lemma {:induction false} CutInSome(g: Grid, ys: seq<I1>, lo: int, hi: int, top: bool)
    requires 0 <= lo && hi <= |ys|
    ensures CutIn(g, ys, lo, hi, top) <==> exists i :: lo <= i < hi && CutAt(ClipY(g, ys, i), top)
    decreases hi - lo
  {
    if hi > lo {
      CutInSome(g, ys, lo, hi - 1, top);
      if CutAt(ClipY(g, ys, hi - 1), top) {
        assert lo <= hi - 1 < hi;
      }
    }
  }

  /** Some strip of the run has its y-range cut at the bottom (bGeoOutDown). */
  predicate OutBelow(g: Grid, xrg: I1, ys: seq<I1>)
    requires g.Valid() && |ys| == |g.yparts|
  {
    Filled(ClipX(g, xrg)) && CutIn(g, ys, Strips(g, ClipX(g, xrg).rg).0, Strips(g, ClipX(g, xrg).rg).1 + 1, false)
  }

  /** Some strip of the run has its y-range cut at the top (bGeoOutUp). */
  predicate OutAbove(g: Grid, xrg: I1, ys: seq<I1>)
    requires g.Valid() && |ys| == |g.yparts|
  {
    Filled(ClipX(g, xrg)) && CutIn(g, ys, Strips(g, ClipX(g, xrg).rg).0, Strips(g, ClipX(g, xrg).rg).1 + 1, true)
  }

  /** The first strip from i to hi whose clipped y-range is not empty. */
  function FirstFilled(g: Grid, ys: seq<I1>, i: int, hi: int): (r: Option<int>)
    requires 0 <= i && hi < |ys|
    ensures r.Just? ==> i <= r.value <= hi && Filled(ClipY(g, ys, r.value))
    ensures forall k :: i <= k <= hi && (r.Nothing? || k < r.value) ==> !Filled(ClipY(g, ys, k))
    decreases hi - i
  {
    if i > hi then Nothing
    else if Filled(ClipY(g, ys, i)) then Just(i)
    else FirstFilled(g, ys, i + 1, hi)
  }

  /**
    * The primitive gets a duplicate counter: at the first cell it is put
    * in, its strips or that strip's cells are more than one.
    */
  predicate Shared(g: Grid, xrg: I1, ys: seq<I1>)
    requires g.Valid() && |ys| == |g.yparts|
  {
    && Filled(ClipX(g, xrg))
    && var s := Strips(g, ClipX(g, xrg).rg);
       var f := FirstFilled(g, ys, s.0, s.1);
       f.Just? && (s.0 != s.1 || Cells(g, f.value, ClipY(g, ys, f.value).rg).0 != Cells(g, f.value, ClipY(g, ys, f.value).rg).1)
  }

  /** A primitive put in two different cells gets a duplicate counter. */
  lemma SpreadIsShared(g: Grid, xrg: I1, ys: seq<I1>, i: int, j: int, i': int, j': int)
    requires g.Valid() && |ys| == |g.yparts|
    requires InCell(g, xrg, ys, i, j) && InCell(g, xrg, ys, i', j') && (i, j) != (i', j')
    ensures Shared(g, xrg, ys)
  {
    var s := Strips(g, ClipX(g, xrg).rg);
    var f := FirstFilled(g, ys, s.0, s.1);
    assert f.Just?;
    if s.0 == s.1 {
      assert i == f.value && i' == f.value;
      var c := Cells(g, i, ClipY(g, ys, i).rg);
      assert c.0 <= j <= c.1 && c.0 <= j' <= c.1 && j != j';
    }
  }

  /** A primitive with no duplicate counter is in at most one cell. */
  lemma UnsharedSingle(g: Grid, xrg: I1, ys: seq<I1>, i: int, j: int, i': int, j': int)
    requires g.Valid() && |ys| == |g.yparts|
    requires InCell(g, xrg, ys, i, j) && InCell(g, xrg, ys, i', j') && !Shared(g, xrg, ys)
    ensures i == i' && j == j'
  {
    if (i, j) != (i', j') {
      SpreadIsShared(g, xrg, ys, i, j, i', j');
    }
  }

  /**
    * A point of the grid in the primitive's x-range whose y is within the
    * primitive's y-range of its own strip lies in a cell that receives the
    * primitive: the cell holding the point.
    */
  lemma PointInCell(g: Grid, xrg: I1, ys: seq<I1>, x: real, y: real)
    requires g.Valid() && |ys| == |g.yparts|
    requires g.gbxrg.Contains(x) && g.gbyrg.Contains(y) && xrg.Contains(x)
    requires ys[g.xpart.FindPart(x)].Contains(y)
    ensures var i := g.xpart.FindPart(x);
      InCell(g, xrg, ys, i, g.yparts[i].FindPart(y))
  {
    var i := g.xpart.FindPart(x);
    var xc := ClipX(g, xrg).rg;
    var s := Strips(g, xc);
    PartMonotone(g.xpart, xc.lo, x, s.0, i);
    PartMonotone(g.xpart, x, xc.hi, i, s.1);
    var j := g.yparts[i].FindPart(y);
    var yc := ClipY(g, ys, i).rg;
    var c := Cells(g, i, yc);
    PartMonotone(g.yparts[i], yc.lo, y, c.0, j);
    PartMonotone(g.yparts[i], y, yc.hi, j, c.1);
  }

  // ---------------------------------------------------------------------
  // Edges

  /**
    * An edge's y-range in every strip (AddEdgeBucket, lines 111-115): the
    * span of its crossings at the strip's two sides.
    */
  function EdgeYs(g: Grid, q0: P3, q1: P3): (r: seq<I1>)
    requires g.Valid() && q0.x <= q1.x
    ensures |r| == |g.yparts|
  {
    EdgeYsUpTo(g, q0, q1, |g.yparts|)
  }

  /** The edge's y-range in strip ix. */
  function EdgeY(g: Grid, q0: P3, q1: P3, ix: int): I1
    requires g.Valid() && q0.x <= q1.x && 0 <= ix < |g.yparts|
  {
    SCombine(TcrossX(g.xpart.GetPart(ix).lo, q0, q1).v, TcrossX(g.xpart.GetPart(ix).hi, q0, q1).v)
  }

  /** The edge's y-ranges in the first n strips. */
  function EdgeYsUpTo(g: Grid, q0: P3, q1: P3, n: nat): (r: seq<I1>)
    requires g.Valid() && q0.x <= q1.x && n <= |g.yparts|
    ensures |r| == n
  {
    if n == 0 then [] else EdgeYsUpTo(g, q0, q1, n - 1) + [EdgeY(g, q0, q1, n - 1)]
  }

  lemma {:induction false} EdgeYsUpToAt(g: Grid, q0: P3, q1: P3, n: nat, ix: int)
    requires g.Valid() && q0.x <= q1.x && 0 <= ix < n <= |g.yparts|
    ensures EdgeYsUpTo(g, q0, q1, n)[ix] == EdgeY(g, q0, q1, ix)
    decreases n
  {
    if ix < n - 1 {
      EdgeYsUpToAt(g, q0, q1, n - 1, ix);
    }
  }

  /** Strip ix of EdgeYs is the span of the edge's crossings at the strip's two sides. */
  lemma EdgeYsAt(g: Grid, q0: P3, q1: P3, ix: int)
    requires g.Valid() && q0.x <= q1.x && 0 <= ix < |g.yparts|
    ensures EdgeYs(g, q0, q1)[ix] == SCombine(TcrossX(g.xpart.GetPart(ix).lo, q0, q1).v, TcrossX(g.xpart.GetPart(ix).hi, q0, q1).v)
  {
    EdgeYsUpToAt(g, q0, q1, |g.yparts|, ix);
  }

  /**
    * Every point of an edge that lies on the grid is in a cell the edge is
    * put in: the point at x, for x between the edge's ends.
    */
  lemma EdgeCovered(g: Grid, q0: P3, q1: P3, x: real)
    requires g.Valid() && q0.x <= q1.x && q0.x <= x <= q1.x
    requires g.gbxrg.Contains(x) && g.gbyrg.Contains(TcrossX(x, q0, q1).v)
    ensures var i := g.xpart.FindPart(x);
      InCell(g, I1(q0.x, q1.x), EdgeYs(g, q0, q1), i, g.yparts[i].FindPart(TcrossX(x, q0, q1).v))
  {
    var i := g.xpart.FindPart(x);
    var part := g.xpart.GetPart(i);
    TcrossXBetween(part.lo, x, part.hi, q0, q1);
    EdgeYsAt(g, q0, q1, i);
    PointInCell(g, I1(q0.x, q1.x), EdgeYs(g, q0, q1), x, TcrossX(x, q0, q1).v);
  }

  // ---------------------------------------------------------------------
  // Triangles

  /** A triangle's y-range in every strip: TriStripY, with the corners in order of x. */
  function TriYs(g: Grid, q0: P3, q1: P3, q2: P3): (r: seq<I1>)
    requires g.Valid() && q0.x <= q1.x <= q2.x
    ensures |r| == |g.yparts|
  {
    TriYsUpTo(g, q0, q1, q2, |g.yparts|)
  }

  /** The triangle's y-ranges in the first n strips. */
  function TriYsUpTo(g: Grid, q0: P3, q1: P3, q2: P3, n: nat): (r: seq<I1>)
    requires g.Valid() && q0.x <= q1.x <= q2.x && n <= |g.yparts|
    ensures |r| == n
  {
    if n == 0 then [] else TriYsUpTo(g, q0, q1, q2, n - 1) + [TriStripY(g.xpart, n - 1, q0, q1, q2)]
  }

  lemma {:induction false} TriYsUpToAt(g: Grid, q0: P3, q1: P3, q2: P3, n: nat, ix: int)
    requires g.Valid() && q0.x <= q1.x <= q2.x && 0 <= ix < n <= |g.yparts|
    ensures TriYsUpTo(g, q0, q1, q2, n)[ix] == TriStripY(g.xpart, ix, q0, q1, q2)
    decreases n
  {
    if ix < n - 1 {
      TriYsUpToAt(g, q0, q1, q2, n - 1, ix);
    }
  }

  /** Strip ix of TriYs is TriStripY of that strip. */
  lemma TriYsAt(g: Grid, q0: P3, q1: P3, q2: P3, ix: int)
    requires g.Valid() && q0.x <= q1.x <= q2.x && 0 <= ix < |g.yparts|
    ensures TriYs(g, q0, q1, q2)[ix] == TriStripY(g.xpart, ix, q0, q1, q2)
  {
    TriYsUpToAt(g, q0, q1, q2, |g.yparts|, ix);
  }

  /** (x, y) lies under the triangle: x within its x-range and y on its cross-section at x. */
  predicate UnderTriangle(x: real, y: real, q0: P3, q1: P3, q2: P3)
    requires q0.x <= q1.x <= q2.x
  {
    q0.x <= x <= q2.x && SCombine(TcrossX3(x, q0, q1, q2).0.v, TcrossX3(x, q0, q1, q2).1.v).Contains(y)
  }

  /** Strip ix's y-range holds every cross-section of the triangle within the strip. */
  lemma TriStripYCovers(xpart: Partition1, ix: int, x: real, q0: P3, q1: P3, q2: P3)
    requires xpart.Valid() && xpart.bRegular && 0 <= ix < xpart.NumParts()
    requires q0.x <= q1.x <= q2.x && xpart.GetPart(ix).Contains(x)
    ensures var r := TriStripY(xpart, ix, q0, q1, q2);
      r.Contains(TcrossX3(x, q0, q1, q2).0.v) && r.Contains(TcrossX3(x, q0, q1, q2).1.v)
  {
    var part := xpart.GetPart(ix);
    SectionInSpan(part.lo, x, part.hi, q0, q1, q2);
  }

  /** Every point under a triangle that lies on the grid is in a cell the triangle is put in. */
  lemma TriangleCovered(g: Grid, q0: P3, q1: P3, q2: P3, x: real, y: real)
    requires g.Valid() && q0.x <= q1.x <= q2.x && UnderTriangle(x, y, q0, q1, q2)
    requires g.gbxrg.Contains(x) && g.gbyrg.Contains(y)
    ensures var i := g.xpart.FindPart(x);
      InCell(g, I1(q0.x, q2.x), TriYs(g, q0, q1, q2), i, g.yparts[i].FindPart(y))
  {
    var i := g.xpart.FindPart(x);
    var fp := TcrossX3(x, q0, q1, q2);
    TriStripYCovers(g.xpart, i, x, q0, q1, q2);
    SpanBetween(TriStripY(g.xpart, i, q0, q1, q2), fp.0.v, fp.1.v, y);
    TriYsAt(g, q0, q1, q2, i);
    PointInCell(g, I1(q0.x, q2.x), TriYs(g, q0, q1, q2), x, y);
  }
}
