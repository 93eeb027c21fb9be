// The cells SurfXboxed visits when it slices a fibre.  A search window
// around the fibre, clipped to the grid, picks a run of strips, and in
// each strip a run of cells; every point, edge and triangle listed in
// those cells is offered to the ball slicer, bucket after bucket.  Once
// the buckets list the whole surface, everything of the surface that lies
// over the window is among what is offered.

module Windows {
  import opened Geom
  import opened Partitions
  import opened Crossings
  import opened Footprints
  import opened Surfaces
  import opened Slicers
  import opened Buckets
  import opened BoxIndex
  import opened Endpoints

  // ---------------------------------------------------------------------
  // The cells of a window

  /** The cells (ix, lo) to (ix, hi) of strip ix, in order. */
  function Row(ix: int, lo: int, hi: int): (r: seq<(int, int)>)
    requires lo <= hi + 1
    ensures |r| == hi - lo + 1
    ensures forall k :: 0 <= k < |r| ==> r[k] == (ix, lo + k)
  {
    seq(hi - lo + 1, k => (ix, lo + k))
  }

  /** A non-empty range within rg, as a successful Intersect leaves it. */
  predicate InRange(c: I1, rg: I1) {
    c.lo <= c.hi && rg.Contains(c.lo) && rg.Contains(c.hi)
  }

  /** What a successful Intersect leaves lies within both ranges. */
  lemma ClippedIn(a: I1, b: I1)
    requires Intersect(a, b).0
    ensures InRange(Intersect(a, b).1, a) && InRange(Intersect(a, b).1, b)
  {
    var c := Intersect(a, b).1;
    assert c.Contains(c.lo) && c.Contains(c.hi);
  }

  /** Strips a to b, each with the run of cells the clipped y-range yc picks in it. */
  function StripCells(g: Grid, yc: I1, a: int, b: int): (r: seq<(int, int)>)
    requires g.Valid() && 0 <= a && b < |g.yparts| && InRange(yc, g.gbyrg)
    ensures forall k :: 0 <= k < |r| ==> 0 <= r[k].0 < |g.yparts| && 0 <= r[k].1 < g.yparts[r[k].0].NumParts()
    decreases b - a
  {
    if b < a then []
    else
      var c := Cells(g, b, yc);
      StripCells(g, yc, a, b - 1) + Row(b, c.0, c.1)
  }

  /**
    * The cells SliceUFibre and SliceVFibre visit for the search window xw
    * by yw, in the order they visit them: none when either range misses
    * the grid; otherwise every strip the clipped xw runs over and, in each,
    * every cell the clipped yw runs over.
    */
  function WindowCells(g: Grid, xw: I1, yw: I1): (r: seq<(int, int)>)
    requires g.Valid()
    ensures forall k :: 0 <= k < |r| ==> 0 <= r[k].0 < |g.yparts| && 0 <= r[k].1 < g.yparts[r[k].0].NumParts()
  {
    var xc, yc := Intersect(xw, g.gbxrg), Intersect(yw, g.gbyrg);
    if !xc.0 || !yc.0 then []
    else
      ClippedIn(xw, g.gbxrg);
      ClippedIn(yw, g.gbyrg);
      var s := Strips(g, xc.1);
      StripCells(g, yc.1, s.0, s.1)
  }

  /** Cell (i, j) is among strips a to b when strip i is and j is in strip i's run. */
  lemma {:induction false} StripCellsHas(g: Grid, yc: I1, a: int, b: int, i: int, j: int)
    requires g.Valid() && 0 <= a && b < |g.yparts| && InRange(yc, g.gbyrg)
    requires a <= i <= b && Cells(g, i, yc).0 <= j <= Cells(g, i, yc).1
    ensures (i, j) in StripCells(g, yc, a, b)
    decreases b - a
  {
    var c := Cells(g, b, yc);
    if i == b {
      assert Row(b, c.0, c.1)[j - c.0] == (i, j);
    } else {
      StripCellsHas(g, yc, a, b - 1, i, j);
    }
  }

  /**
    * The cell holding a point of the grid that lies in the window is
    * visited: the window's runs of strips and cells take in the point's
    * strip and cell.
    */
  lemma CellInWindow(g: Grid, xw: I1, yw: I1, x: real, y: real)
    requires g.Valid() && g.gbxrg.Contains(x) && g.gbyrg.Contains(y)
    requires xw.Contains(x) && yw.Contains(y)
    ensures var i := g.xpart.FindPart(x); (i, g.yparts[i].FindPart(y)) in WindowCells(g, xw, yw)
  {
    var xc, yc := Intersect(xw, g.gbxrg), Intersect(yw, g.gbyrg);
    assert xc.1.Contains(x) && yc.1.Contains(y);
    ClippedIn(xw, g.gbxrg);
    ClippedIn(yw, g.gbyrg);
    var i := g.xpart.FindPart(x);
    var s := Strips(g, xc.1);
    PartMonotone(g.xpart, xc.1.lo, x, s.0, i);
    PartMonotone(g.xpart, x, xc.1.hi, i, s.1);
    var j := g.yparts[i].FindPart(y);
    var c := Cells(g, i, yc.1);
    PartMonotone(g.yparts[i], yc.1.lo, y, c.0, j);
    PartMonotone(g.yparts[i], y, yc.1.hi, j, c.1);
    StripCellsHas(g, yc.1, s.0, s.1, i, j);
  }

  // ---------------------------------------------------------------------
  // What the visited cells offer

  /** SliceFibreBox's first loop: the bucket's points. */
  function PointPrims(sx: SurfX, pts: seq<nat>): (r: seq<Prim>)
    requires forall k :: 0 <= k < |pts| ==> pts[k] < |sx.vdX|
    ensures |r| == |pts| && forall k :: 0 <= k < |r| ==> r[k] == Vertex(sx.vdX[pts[k]])
  {
    seq(|pts|, k requires 0 <= k < |pts| => Vertex(sx.vdX[pts[k]]))
  }

  /** SliceFibreBox's second loop: the bucket's edges, each from its p0 to its p1. */
  function EdgeSegs(sx: SurfX, eds: seq<CkEdge>): (r: seq<Prim>)
    requires sx.Linked() && forall k :: 0 <= k < |eds| ==> eds[k].edx < |sx.edX|
    ensures |r| == |eds|
    ensures forall k :: 0 <= k < |r| ==> r[k] == Segment(sx.vdX[sx.edX[eds[k].edx].p0], sx.vdX[sx.edX[eds[k].edx].p1])
  {
    seq(|eds|, k requires 0 <= k < |eds| => Segment(sx.vdX[sx.edX[eds[k].edx].p0], sx.vdX[sx.edX[eds[k].edx].p1]))
  }

  /** SliceFibreBox's third loop: the bucket's triangles, each as b12's ends and the third point. */
  function TriFaces(sx: SurfX, tris: seq<CkTri>): (r: seq<Prim>)
    requires sx.Complete() && forall k :: 0 <= k < |tris| ==> tris[k].trx < |sx.trX|
    ensures |r| == |tris| && forall k :: 0 <= k < |r| ==> r[k] == sx.Face(tris[k].trx)
  {
    seq(|tris|, k requires 0 <= k < |tris| => sx.Face(tris[k].trx))
  }

  /** Everything SliceFibreBox offers for a bucket: its points, then its edges, then its triangles. */
  function BucketPrims(sx: SurfX, b: Bucket): (r: seq<Prim>)
    requires sx.Complete() && BucketIndexed(sx, b)
    ensures |r| == |b.ckpoints| + |b.ckedges| + |b.cktriangs|
  {
    PointPrims(sx, b.ckpoints) + EdgeSegs(sx, b.ckedges) + TriFaces(sx, b.cktriangs)
  }

  /** Entry by entry: the points, then the edges, then the triangles. */
  lemma BucketPrimsAt(sx: SurfX, b: Bucket)
    requires sx.Complete() && BucketIndexed(sx, b)
    ensures var r, np, ne := BucketPrims(sx, b), |b.ckpoints|, |b.ckedges|;
      && (forall k :: 0 <= k < np ==> r[k] == Vertex(sx.vdX[b.ckpoints[k]]))
      && (forall k :: 0 <= k < ne ==> r[np + k] == Segment(sx.vdX[sx.edX[b.ckedges[k].edx].p0], sx.vdX[sx.edX[b.ckedges[k].edx].p1]))
      && (forall k :: 0 <= k < |b.cktriangs| ==> r[np + ne + k] == sx.Face(b.cktriangs[k].trx))
  {
  }

  /** Every cell of the run has a bucket. */
  predicate CellsIn(bs: seq<seq<Bucket>>, cells: seq<(int, int)>) {
    forall k :: 0 <= k < |cells| ==> 0 <= cells[k].0 < |bs| && 0 <= cells[k].1 < |bs[cells[k].0]|
  }

  /** Everything offered for a run of cells, bucket after bucket. */
  function CellsPrims(sx: SurfX, bs: seq<seq<Bucket>>, cells: seq<(int, int)>): (r: seq<Prim>)
    requires sx.Complete() && AllIndexed(sx, bs) && CellsIn(bs, cells)
  {
    if cells == [] then []
    else
      var c := cells[|cells| - 1];
      assert CellIndexed(sx, bs, c.0, c.1);
      CellsPrims(sx, bs, cells[..|cells| - 1]) + BucketPrims(sx, bs[c.0][c.1])
  }

  /** The surface and the buckets as the boxed slicer needs them. */
  ghost predicate Ready(sx: SurfX, g: Grid, bs: seq<seq<Bucket>>) {
    sx.Complete() && g.Valid() && Shaped(bs, g.yparts) && AllIndexed(sx, bs)
  }

  /** Everything offered for the search window xw by yw, in order. */
  function Visits(sx: SurfX, g: Grid, bs: seq<seq<Bucket>>, xw: I1, yw: I1): seq<Prim>
    requires Ready(sx, g, bs)
  {
    CellsPrims(sx, bs, WindowCells(g, xw, yw))
  }

  /** One more cell: what it offers comes after what the run before it offers. */
  lemma CellsPrimsSnoc(sx: SurfX, bs: seq<seq<Bucket>>, cells: seq<(int, int)>, c: (int, int))
    requires sx.Complete() && AllIndexed(sx, bs) && CellsIn(bs, cells + [c])
    ensures 0 <= c.0 < |bs| && 0 <= c.1 < |bs[c.0]| && CellIndexed(sx, bs, c.0, c.1) && CellsIn(bs, cells)
    ensures CellsPrims(sx, bs, cells + [c]) == CellsPrims(sx, bs, cells) + BucketPrims(sx, bs[c.0][c.1])
  {
    assert (cells + [c])[..|cells|] == cells && (cells + [c])[|cells|] == c;
    assert forall k :: 0 <= k < |cells| ==> cells[k] == (cells + [c])[k];
  }

  /** What the k-th cell's bucket offers is among what the run offers. */
  lemma {:induction false} CellsPrimsHas(sx: SurfX, bs: seq<seq<Bucket>>, cells: seq<(int, int)>, k: nat, pr: Prim)
    requires sx.Complete() && AllIndexed(sx, bs) && CellsIn(bs, cells) && k < |cells|
    requires 0 <= cells[k].0 < |bs| && 0 <= cells[k].1 < |bs[cells[k].0]|
    requires CellIndexed(sx, bs, cells[k].0, cells[k].1) && pr in BucketPrims(sx, bs[cells[k].0][cells[k].1])
    ensures pr in CellsPrims(sx, bs, cells)
  {
    var n := |cells| - 1;
    assert CellIndexed(sx, bs, cells[n].0, cells[n].1);
    if k < n {
      CellsPrimsHas(sx, bs, cells[..n], k, pr);
    }
  }

  // ---------------------------------------------------------------------
  // Soundness: only primitives of the surface are offered

  /** A bucket offers only primitives of the surface. */
  lemma BucketFromSurface(sx: SurfX, b: Bucket)
    requires sx.Complete() && BucketIndexed(sx, b)
    ensures forall pr :: pr in BucketPrims(sx, b) ==> pr in sx.AllPrims()
  {
    var all, r := sx.AllPrims(), BucketPrims(sx, b);
    var np, ne := |b.ckpoints|, |b.ckedges|;
    forall k | 0 <= k < |r| ensures r[k] in all {
      if k < np {
        assert all[b.ckpoints[k]] == r[k];
      } else if k < np + ne {
        var e := b.ckedges[k - np].edx;
        assert all[|sx.vdX| + e] == r[k];
      } else {
        var t := b.cktriangs[k - np - ne].trx;
        assert all[|sx.vdX| + |sx.edX| + t] == r[k];
      }
    }
  }

  /** A run of cells offers only primitives of the surface. */
  lemma {:induction false} CellsFromSurface(sx: SurfX, bs: seq<seq<Bucket>>, cells: seq<(int, int)>)
    requires sx.Complete() && AllIndexed(sx, bs) && CellsIn(bs, cells)
    ensures forall pr :: pr in CellsPrims(sx, bs, cells) ==> pr in sx.AllPrims()
  {
    if cells != [] {
      var c := cells[|cells| - 1];
      assert CellIndexed(sx, bs, c.0, c.1);
      CellsFromSurface(sx, bs, cells[..|cells| - 1]);
      BucketFromSurface(sx, bs[c.0][c.1]);
    }
  }

  /** The boxed slicer offers only primitives of the surface, whatever the window. */
  lemma VisitsFromSurface(sx: SurfX, g: Grid, bs: seq<seq<Bucket>>, xw: I1, yw: I1)
    requires Ready(sx, g, bs)
    ensures forall pr :: pr in Visits(sx, g, bs, xw, yw) ==> pr in sx.AllPrims()
  {
    CellsFromSurface(sx, bs, WindowCells(g, xw, yw));
  }

  // ---------------------------------------------------------------------
  // Completeness: everything over the window is offered

  /** Buckets that list the surface name only its primitives. */
  lemma ListsIndexed(sx: SurfX, g: Grid, bs: seq<seq<Bucket>>, np: nat, ne: nat, nt: nat)
    requires Lists(sx, g, bs, np, ne, nt)
    ensures Ready(sx, g, bs)
  {
    forall i, j ensures CellIndexed(sx, bs, i, j) {
      if 0 <= i < |bs| && 0 <= j < |bs[i]| {
        var b := bs[i][j];
        assert CellLists(sx, g, b, i, j, np, ne, nt);
        forall k | 0 <= k < |b.ckpoints| ensures b.ckpoints[k] < |sx.vdX| {
          assert b.ckpoints[k] in b.ckpoints;
        }
        forall k | 0 <= k < |b.ckedges| ensures b.ckedges[k].edx < |sx.edX| {
          assert HasEdge(b, b.ckedges[k].edx);
        }
        forall k | 0 <= k < |b.cktriangs| ensures b.cktriangs[k].trx < |sx.trX| {
          assert HasTri(b, b.cktriangs[k].trx);
        }
      }
    }
  }

  /** A bucket listing vertex k offers it. */
  lemma PointOffered(sx: SurfX, b: Bucket, k: nat)
    requires sx.Complete() && BucketIndexed(sx, b) && k in b.ckpoints
    ensures Vertex(sx.vdX[k]) in BucketPrims(sx, b)
  {
    var m :| 0 <= m < |b.ckpoints| && b.ckpoints[m] == k;
    assert BucketPrims(sx, b)[m] == Vertex(sx.vdX[k]);
  }

  /** A bucket listing edge e offers it, from its p0 to its p1. */
  lemma EdgeOffered(sx: SurfX, b: Bucket, e: nat)
    requires sx.Complete() && BucketIndexed(sx, b) && HasEdge(b, e)
    ensures e < |sx.edX| && Segment(sx.vdX[sx.edX[e].p0], sx.vdX[sx.edX[e].p1]) in BucketPrims(sx, b)
  {
    var m :| 0 <= m < |b.ckedges| && b.ckedges[m].edx == e;
    assert BucketPrims(sx, b)[|b.ckpoints| + m] == Segment(sx.vdX[sx.edX[e].p0], sx.vdX[sx.edX[e].p1]);
  }

  /** A bucket listing triangle t offers its face. */
  lemma TriOffered(sx: SurfX, b: Bucket, t: nat)
    requires sx.Complete() && BucketIndexed(sx, b) && HasTri(b, t)
    ensures t < |sx.trX| && sx.Face(t) in BucketPrims(sx, b)
  {
    var m :| 0 <= m < |b.cktriangs| && b.cktriangs[m].trx == t;
    assert BucketPrims(sx, b)[|b.ckpoints| + |b.ckedges| + m] == sx.Face(t);
  }

  /** The prim is offered by the bucket of the cell holding (x, y), which the window visits. */
  lemma OfferedAt(sx: SurfX, g: Grid, bs: seq<seq<Bucket>>, xw: I1, yw: I1, x: real, y: real, pr: Prim)
    requires Ready(sx, g, bs) && g.gbxrg.Contains(x) && g.gbyrg.Contains(y) && xw.Contains(x) && yw.Contains(y)
    requires var i := g.xpart.FindPart(x); var j := g.yparts[i].FindPart(y);
      CellIndexed(sx, bs, i, j) && pr in BucketPrims(sx, bs[i][j])
    ensures pr in Visits(sx, g, bs, xw, yw)
  {
    var cells := WindowCells(g, xw, yw);
    var i := g.xpart.FindPart(x);
    var j := g.yparts[i].FindPart(y);
    CellInWindow(g, xw, yw, x, y);
    var k :| 0 <= k < |cells| && cells[k] == (i, j);
    CellsPrimsHas(sx, bs, cells, k, pr);
  }

  /**
    * Once the buckets list the surface, every vertex lying on the grid
    * within the window is offered.
    */
  lemma PointVisited(sx: SurfX, g: Grid, bs: seq<seq<Bucket>>, xw: I1, yw: I1, k: nat)
    requires Lists(sx, g, bs, |sx.vdX|, |sx.edX|, |sx.trX|) && k < |sx.vdX|
    requires g.gbxrg.Contains(sx.vdX[k].x) && g.gbyrg.Contains(sx.vdX[k].y)
    requires xw.Contains(sx.vdX[k].x) && yw.Contains(sx.vdX[k].y)
    ensures Ready(sx, g, bs)
    ensures Vertex(sx.vdX[k]) in Visits(sx, g, bs, xw, yw)
  {
    ListsIndexed(sx, g, bs, |sx.vdX|, |sx.edX|, |sx.trX|);
    var p := sx.vdX[k];
    var i := g.xpart.FindPart(p.x);
    var j := g.yparts[i].FindPart(p.y);
    PointInOneCell(g, p, i, j);
    var b := bs[i][j];
    assert CellLists(sx, g, b, i, j, |sx.vdX|, |sx.edX|, |sx.trX|);
    assert PointIn(g, p, i, j);
    assert k in b.ckpoints;
    assert CellIndexed(sx, bs, i, j);
    PointOffered(sx, b, k);
    OfferedAt(sx, g, bs, xw, yw, p.x, p.y, Vertex(p));
  }

  /**
    * Once the buckets list the surface, every edge is offered that has a
    * point on the grid within the window: the point at x, for x between
    * the edge's ends.
    */
  lemma EdgeVisited(sx: SurfX, g: Grid, bs: seq<seq<Bucket>>, xw: I1, yw: I1, e: nat, x: real)
    requires Lists(sx, g, bs, |sx.vdX|, |sx.edX|, |sx.trX|) && e < |sx.edX|
    requires var (q0, q1) := EdgeEnds(sx, e);
      && q0.x <= x <= q1.x
      && g.gbxrg.Contains(x) && g.gbyrg.Contains(TcrossX(x, q0, q1).v)
      && xw.Contains(x) && yw.Contains(TcrossX(x, q0, q1).v)
    ensures Ready(sx, g, bs)
    ensures Segment(sx.vdX[sx.edX[e].p0], sx.vdX[sx.edX[e].p1]) in Visits(sx, g, bs, xw, yw)
  {
    ListsIndexed(sx, g, bs, |sx.vdX|, |sx.edX|, |sx.trX|);
    var (q0, q1) := EdgeEnds(sx, e);
    var y := TcrossX(x, q0, q1).v;
    var i := g.xpart.FindPart(x);
    var j := g.yparts[i].FindPart(y);
    EdgeCovered(g, q0, q1, x);
    assert EdgeReaches(sx, g, e, i, j);
    var b := bs[i][j];
    assert CellLists(sx, g, b, i, j, |sx.vdX|, |sx.edX|, |sx.trX|);
    assert HasEdge(b, e);
    assert CellIndexed(sx, bs, i, j);
    EdgeOffered(sx, b, e);
    OfferedAt(sx, g, bs, xw, yw, x, y, Segment(sx.vdX[sx.edX[e].p0], sx.vdX[sx.edX[e].p1]));
  }

  /**
    * Once the buckets list the surface, every triangle is offered that has
    * a point (x, y) under it on the grid within the window.
    */
  lemma TriangleVisited(sx: SurfX, g: Grid, bs: seq<seq<Bucket>>, xw: I1, yw: I1, t: nat, x: real, y: real)
    requires Lists(sx, g, bs, |sx.vdX|, |sx.edX|, |sx.trX|) && t < |sx.trX|
    requires var (q0, q1, q2) := TriCorners(sx, t); UnderTriangle(x, y, q0, q1, q2)
    requires g.gbxrg.Contains(x) && g.gbyrg.Contains(y) && xw.Contains(x) && yw.Contains(y)
    ensures Ready(sx, g, bs)
    ensures sx.Face(t) in Visits(sx, g, bs, xw, yw)
  {
    ListsIndexed(sx, g, bs, |sx.vdX|, |sx.edX|, |sx.trX|);
    var (q0, q1, q2) := TriCorners(sx, t);
    var i := g.xpart.FindPart(x);
    var j := g.yparts[i].FindPart(y);
    TriangleCovered(g, q0, q1, q2, x, y);
    assert TriReaches(sx, g, t, i, j);
    var b := bs[i][j];
    assert CellLists(sx, g, b, i, j, |sx.vdX|, |sx.edX|, |sx.trX|);
    assert HasTri(b, t);
    assert CellIndexed(sx, bs, i, j);
    TriOffered(sx, b, t);
    OfferedAt(sx, g, bs, xw, yw, x, y, sx.Face(t));
  }

  // ---------------------------------------------------------------------
  // Slicing a held fibre through the window's cells

  /**
    * What slicing offers for the window xw by yw: the whole surface when
    * there are no buckets, otherwise what the buckets of the window's
    * cells list.
    */
  ghost function Offers(sx: SurfX, g: Grid, bs: seq<seq<Bucket>>, xw: I1, yw: I1): seq<Prim>
    requires sx.Complete() && (bs != [] ==> Ready(sx, g, bs))
  {
    if bs == [] then sx.AllPrims() else Visits(sx, g, bs, xw, yw)
  }

  /** The interval reaching d either side of wp: a fibre's search window across it. */
  function Across(wp: real, d: real): I1 {
    I1(wp - d, wp + d)
  }

  /** What SliceUFibre offers for a u-fibre at wp over wrg: the window reaches radball plus the margin across it and beyond its ends. */
  ghost function UOffers(sx: SurfX, g: Grid, bs: seq<seq<Bucket>>, radball: real, margin: real, wp: real, wrg: I1): seq<Prim>
    requires sx.Complete() && (bs != [] ==> Ready(sx, g, bs))
  {
    Offers(sx, g, bs, Across(wp, radball + margin), wrg.Inflate(radball + margin))
  }

  /** What SliceVFibre offers for a v-fibre: the same window with x and y swapped. */
  ghost function VOffers(sx: SurfX, g: Grid, bs: seq<seq<Bucket>>, radball: real, margin: real, wp: real, wrg: I1): seq<Prim>
    requires sx.Complete() && (bs != [] ==> Ready(sx, g, bs))
  {
    Offers(sx, g, bs, wrg.Inflate(radball + margin), Across(wp, radball + margin))
  }

  /** Without buckets, slicing offers the whole surface, whatever the window. */
  lemma OffersNoBuckets(sx: SurfX, g: Grid, xw: I1, yw: I1)
    requires sx.Complete()
    ensures Offers(sx, g, [], xw, yw) == sx.AllPrims()
  {
  }

  /** With buckets, slicing offers what the cells of the window list. */
  lemma OffersWindow(sx: SurfX, g: Grid, bs: seq<seq<Bucket>>, xw: I1, yw: I1)
    requires bs != [] && Ready(sx, g, bs)
    ensures Offers(sx, g, bs, xw, yw) == Visits(sx, g, bs, xw, yw)
  {
  }

  /** Slicing offers only primitives of the surface, with or without buckets. */
  lemma OffersFromSurface(sx: SurfX, g: Grid, bs: seq<seq<Bucket>>, xw: I1, yw: I1)
    requires sx.Complete() && (bs != [] ==> Ready(sx, g, bs))
    ensures forall pr :: pr in Offers(sx, g, bs, xw, yw) ==> pr in sx.AllPrims()
  {
    if bs != [] {
      VisitsFromSurface(sx, g, bs, xw, yw);
    }
  }

  /**
    * One bucket (SliceFibreBox): its points, then its edges (from p0 to
    * p1), then its triangles (b12's ends and the third point) go to the
    * ball slicer, which merges each cut into the held fibre.
    */
  method SliceBucket(sx: SurfX, bu: Bucket, rgen: RayGen)
    requires sx.Complete() && BucketIndexed(sx, bu) && WellFormed(rgen.fib.ep)
    modifies rgen`fib, rgen`offered
    ensures rgen.offered == old(rgen.offered) + BucketPrims(sx, bu)
    ensures rgen.fib.wp == old(rgen.fib.wp)
    ensures rgen.fib.ep == MergeCuts(old(rgen.fib.ep), CutsOf(rgen.cut, BucketPrims(sx, bu), rgen.ftype, rgen.fib.wp, rgen.z))
    ensures WellFormed(rgen.fib.ep)
  {
    ghost var o0, e0, wp, all := rgen.offered, rgen.fib.ep, rgen.fib.wp, BucketPrims(sx, bu);
    OfferedStart(rgen, all);
    BucketPrimsAt(sx, bu);
    OfferPoints(sx, bu, rgen, o0, e0, wp, all);
    OfferEdges(sx, bu, rgen, o0, e0, wp, all);
    OfferTriangles(sx, bu, rgen, o0, e0, wp, all);
    OfferedFacts(rgen, o0, e0, wp, all);
  }

  /** SliceBucket's first loop: the points. */
  method OfferPoints(sx: SurfX, bu: Bucket, rgen: RayGen, ghost o0: seq<Prim>, ghost e0: seq<B1>, ghost wp: real, ghost all: seq<Prim>)
    requires sx.Complete() && |bu.ckpoints| <= |all|
    requires forall j :: 0 <= j < |bu.ckpoints| ==>
               bu.ckpoints[j] < |sx.vdX| && all[j] == Vertex(sx.vdX[bu.ckpoints[j]])
    requires Offered(rgen, o0, e0, wp, all[..0])
    modifies rgen`fib, rgen`offered
    ensures Offered(rgen, o0, e0, wp, all[..|bu.ckpoints|])
  {
    var i := 0;
    while i < |bu.ckpoints|
      invariant 0 <= i <= |bu.ckpoints| && Offered(rgen, o0, e0, wp, all[..i])
    {
      OfferOne(rgen, Vertex(sx.vdX[bu.ckpoints[i]]), o0, e0, wp, all, i);
      i := i + 1;
    }
  }

  /** SliceBucket's second loop: the edges, each from its p0 to its p1. */
  method OfferEdges(sx: SurfX, bu: Bucket, rgen: RayGen, ghost o0: seq<Prim>, ghost e0: seq<B1>, ghost wp: real, ghost all: seq<Prim>)
    requires sx.Complete() && |bu.ckpoints| + |bu.ckedges| <= |all|
    requires forall j :: 0 <= j < |bu.ckedges| ==>
               && bu.ckedges[j].edx < |sx.edX|
               && all[|bu.ckpoints| + j] == Segment(sx.vdX[sx.edX[bu.ckedges[j].edx].p0], sx.vdX[sx.edX[bu.ckedges[j].edx].p1])
    requires Offered(rgen, o0, e0, wp, all[..|bu.ckpoints|])
    modifies rgen`fib, rgen`offered
    ensures Offered(rgen, o0, e0, wp, all[..|bu.ckpoints| + |bu.ckedges|])
  {
    ghost var np := |bu.ckpoints|;
    var i := 0;
    while i < |bu.ckedges|
      invariant 0 <= i <= |bu.ckedges| && Offered(rgen, o0, e0, wp, all[..np + i])
    {
      var e := sx.edX[bu.ckedges[i].edx];
      OfferOne(rgen, Segment(sx.vdX[e.p0], sx.vdX[e.p1]), o0, e0, wp, all, np + i);
      i := i + 1;
    }
  }

  /** SliceBucket's third loop: the triangles, each as b12's ends and the third point. */
  method OfferTriangles(sx: SurfX, bu: Bucket, rgen: RayGen, ghost o0: seq<Prim>, ghost e0: seq<B1>, ghost wp: real, ghost all: seq<Prim>)
    requires sx.Complete() && |all| == |bu.ckpoints| + |bu.ckedges| + |bu.cktriangs|
    requires forall j :: 0 <= j < |bu.cktriangs| ==>
               bu.cktriangs[j].trx < |sx.trX| && all[|bu.ckpoints| + |bu.ckedges| + j] == sx.Face(bu.cktriangs[j].trx)
    requires Offered(rgen, o0, e0, wp, all[..|bu.ckpoints| + |bu.ckedges|])
    modifies rgen`fib, rgen`offered
    ensures Offered(rgen, o0, e0, wp, all)
  {
    ghost var n := |bu.ckpoints| + |bu.ckedges|;
    var i := 0;
    while i < |bu.cktriangs|
      invariant 0 <= i <= |bu.cktriangs|
      invariant Offered(rgen, o0, e0, wp, all[..n + i])
    {
      var t := bu.cktriangs[i].trx;
      var b12 := sx.edX[sx.trX[t].b12];
      var f := Facet(sx.vdX[b12.p0], sx.vdX[b12.p1], sx.vdX[sx.ThirdPoint(t)]);
      assert all[n + i] == f;
      OfferOne(rgen, f, o0, e0, wp, all, n + i);
      i := i + 1;
    }
    assert all[..n + i] == all;
  }

  /** Concatenation regroups freely (kept apart so that no proof unfolds the parts). */
  lemma AppendAssoc<T>(a: seq<T>, b: seq<T>, c: seq<T>)
    ensures a + b + c == a + (b + c)
  {
  }

  /** One bucket within a run: its primitives come after those of the run so far. */
  method OfferBucket(sx: SurfX, bu: Bucket, rgen: RayGen, ghost o0: seq<Prim>, ghost e0: seq<B1>, ghost wp: real, ghost done: seq<Prim>)
    requires sx.Complete() && BucketIndexed(sx, bu) && Offered(rgen, o0, e0, wp, done)
    modifies rgen`fib, rgen`offered
    ensures Offered(rgen, o0, e0, wp, done + BucketPrims(sx, bu))
  {
    OfferedFacts(rgen, o0, e0, wp, done);
    ghost var bp := BucketPrims(sx, bu);
    ghost var ft, z := rgen.ftype, rgen.z;
    ghost var c1, c2 := CutsOf(rgen.cut, done, ft, wp, z), CutsOf(rgen.cut, bp, ft, wp, z);
    ghost var ep0, of0 := rgen.fib.ep, rgen.offered;
    SliceBucket(sx, bu, rgen);
    assert rgen.ftype == ft && rgen.z == z;
    CutsOfAppend(rgen.cut, done, bp, ft, wp, z);
    MergeCutsAppend(e0, c1, c2);
    calc {
      rgen.fib.ep;
      MergeCuts(MergeCuts(e0, c1), c2);
      MergeCuts(e0, c1 + c2);
      MergeCuts(e0, CutsOf(rgen.cut, done + bp, ft, wp, z));
    }
    AppendAssoc(o0, done, bp);
    assert OfferedNow(rgen, o0, e0, wp, done + bp);
  }

  /** The inner loop: cells lo to hi of strip iu, in order. */
  method SliceStrip(sx: SurfX, bs: seq<seq<Bucket>>, iu: int, lo: int, hi: int, rgen: RayGen,
                    ghost o0: seq<Prim>, ghost e0: seq<B1>, ghost wp: real, ghost before: seq<(int, int)>)
    requires sx.Complete() && AllIndexed(sx, bs)
    requires 0 <= iu < |bs| && 0 <= lo <= hi + 1 && hi < |bs[iu]| && CellsIn(bs, before)
    requires Offered(rgen, o0, e0, wp, CellsPrims(sx, bs, before))
    modifies rgen`fib, rgen`offered
    ensures CellsIn(bs, before + Row(iu, lo, hi))
    ensures Offered(rgen, o0, e0, wp, CellsPrims(sx, bs, before + Row(iu, lo, hi)))
  {
    var iv := lo;
    assert before + Row(iu, lo, lo - 1) == before;
    while iv <= hi
      invariant lo <= iv <= hi + 1
      invariant CellsIn(bs, before + Row(iu, lo, iv - 1))
      invariant Offered(rgen, o0, e0, wp, CellsPrims(sx, bs, before + Row(iu, lo, iv - 1)))
    {
      SliceCell(sx, bs, iu, lo, iv, rgen, o0, e0, wp, before);
      iv := iv + 1;
    }
  }

  /** One pass of SliceStrip's loop: the bucket of cell (iu, iv). */
  method SliceCell(sx: SurfX, bs: seq<seq<Bucket>>, iu: int, lo: int, iv: int, rgen: RayGen,
                   ghost o0: seq<Prim>, ghost e0: seq<B1>, ghost wp: real, ghost before: seq<(int, int)>)
    requires sx.Complete() && AllIndexed(sx, bs)
    requires 0 <= iu < |bs| && 0 <= lo <= iv < |bs[iu]| && CellsIn(bs, before + Row(iu, lo, iv - 1))
    requires Offered(rgen, o0, e0, wp, CellsPrims(sx, bs, before + Row(iu, lo, iv - 1)))
    modifies rgen`fib, rgen`offered
    ensures CellsIn(bs, before + Row(iu, lo, iv))
    ensures Offered(rgen, o0, e0, wp, CellsPrims(sx, bs, before + Row(iu, lo, iv)))
  {
    ghost var cells := before + Row(iu, lo, iv - 1);
    assert before + Row(iu, lo, iv) == cells + [(iu, iv)];
    CellsPrimsSnoc(sx, bs, cells, (iu, iv));
    OfferBucket(sx, bs[iu][iv], rgen, o0, e0, wp, CellsPrims(sx, bs, cells));
  }

  /**
    * Ready behind the gate of module Surfaces: the loops over strips pass
    * it on without the verifier unfolding the grid and the buckets.
    */
  ghost predicate ReadyHeld(sx: SurfX, g: Grid, bs: seq<seq<Bucket>>) {
    forall k: nat {:trigger Gate(k)} :: Gate(k) ==> Ready(sx, g, bs)
  }

  /** What ReadyHeld holds. */
  lemma OpenReady(sx: SurfX, g: Grid, bs: seq<seq<Bucket>>)
    requires ReadyHeld(sx, g, bs)
    ensures Ready(sx, g, bs)
  {
    assert Gate(0);
  }

  /**
    * What strips a to b of the window offer: the run of cells the clipped
    * yw picks in each, or nothing at all when yw misses the grid.
    */
  ghost function StripsPrims(sx: SurfX, g: Grid, bs: seq<seq<Bucket>>, yw: I1, a: int, b: int): seq<Prim>
    requires ReadyHeld(sx, g, bs) && 0 <= a && b < |g.yparts|
  {
    OpenReady(sx, g, bs);
    var yc := Intersect(yw, g.gbyrg);
    if yc.0 && InRange(yc.1, g.gbyrg) then CellsPrims(sx, bs, StripCells(g, yc.1, a, b)) else []
  }

  /** One pass of SliceCells' loop: strip iu, cell by cell over the clipped yw. */
  method SliceStripOf(sx: SurfX, g: Grid, bs: seq<seq<Bucket>>, yw: I1, a: int, iu: int, rgen: RayGen,
                      ghost o0: seq<Prim>, ghost e0: seq<B1>, ghost wp: real)
    requires ReadyHeld(sx, g, bs) && 0 <= a <= iu < |g.yparts|
    requires Offered(rgen, o0, e0, wp, StripsPrims(sx, g, bs, yw, a, iu - 1))
    modifies rgen`fib, rgen`offered
    ensures Offered(rgen, o0, e0, wp, StripsPrims(sx, g, bs, yw, a, iu))
  {
    OpenReady(sx, g, bs);
    var yc := Intersect(yw, g.gbyrg);
    if yc.0 {
      ClippedIn(yw, g.gbyrg);
      var ivrg := g.yparts[iu].FindPartRG(yc.1);
      ghost var before := StripCells(g, yc.1, a, iu - 1);
      assert StripCells(g, yc.1, a, iu) == before + Row(iu, ivrg.0, ivrg.1);
      SliceStrip(sx, bs, iu, ivrg.0, ivrg.1, rgen, o0, e0, wp, before);
    }
  }

  /**
    * The loops SliceUFibre and SliceVFibre share: when the window xw by yw
    * meets the grid, every strip the clipped xw runs over and in each every
    * cell the clipped yw runs over, bucket by bucket.
    */
  method SliceCells(sx: SurfX, g: Grid, bs: seq<seq<Bucket>>, xw: I1, yw: I1, rgen: RayGen)
    requires Ready(sx, g, bs) && WellFormed(rgen.fib.ep)
    modifies rgen`fib, rgen`offered
    ensures rgen.offered == old(rgen.offered) + Visits(sx, g, bs, xw, yw)
    ensures rgen.fib.wp == old(rgen.fib.wp)
    ensures rgen.fib.ep == MergeCuts(old(rgen.fib.ep), CutsOf(rgen.cut, Visits(sx, g, bs, xw, yw), rgen.ftype, rgen.fib.wp, rgen.z))
    ensures WellFormed(rgen.fib.ep)
  {
    ghost var o0, e0, wp := rgen.offered, rgen.fib.ep, rgen.fib.wp;
    ghost var all := Visits(sx, g, bs, xw, yw);
    OfferedStart(rgen, all);
    assert all[..0] == [];
    var xc := Intersect(xw, g.gbxrg);
    if xc.0 {
      ClippedIn(xw, g.gbxrg);
      var iurg := g.xpart.FindPartRG(xc.1);
      assert ReadyHeld(sx, g, bs);
      assert StripsPrims(sx, g, bs, yw, iurg.0, iurg.0 - 1) == [];
      SliceStrips(sx, g, bs, yw, iurg.0, iurg.1, rgen, o0, e0, wp);
      WindowAll(sx, g, bs, xw, yw, iurg.0, iurg.1);
    } else {
      assert all == [];
    }
    OfferedFacts(rgen, o0, e0, wp, all);
  }

  /** SliceCells' loop over strips a to b, the strips the clipped xw runs over. */
  method SliceStrips(sx: SurfX, g: Grid, bs: seq<seq<Bucket>>, yw: I1, a: int, b: int, rgen: RayGen,
                     ghost o0: seq<Prim>, ghost e0: seq<B1>, ghost wp: real)
    requires ReadyHeld(sx, g, bs) && 0 <= a <= b < |g.yparts| && Offered(rgen, o0, e0, wp, StripsPrims(sx, g, bs, yw, a, a - 1))
    modifies rgen`fib, rgen`offered
    ensures Offered(rgen, o0, e0, wp, StripsPrims(sx, g, bs, yw, a, b))
  {
    var iu := a;
    ghost var done := a - 1;
    while iu <= b
      invariant a <= iu <= b + 1 && done == iu - 1
      invariant Offered(rgen, o0, e0, wp, StripsPrims(sx, g, bs, yw, a, done))
    {
      SliceStripOf(sx, g, bs, yw, a, iu, rgen, o0, e0, wp);
      done, iu := iu, iu + 1;
    }
  }

  /** After the last strip, the strips sliced offer everything the window does. */
  lemma WindowAll(sx: SurfX, g: Grid, bs: seq<seq<Bucket>>, xw: I1, yw: I1, a: int, b: int)
    requires Ready(sx, g, bs) && Intersect(xw, g.gbxrg).0 && 0 <= a && b < |g.yparts|
    requires InRange(Intersect(xw, g.gbxrg).1, g.gbxrg) && (a, b) == Strips(g, Intersect(xw, g.gbxrg).1)
    ensures ReadyHeld(sx, g, bs) && StripsPrims(sx, g, bs, yw, a, b) == Visits(sx, g, bs, xw, yw)
  {
    assert ReadyHeld(sx, g, bs);
    var yc := Intersect(yw, g.gbyrg);
    if yc.0 {
      ClippedIn(yw, g.gbyrg);
    }
  }

  /**
    * What SliceUFibre and SliceVFibre share once they have made the window
    * xw by yw: the whole surface when there are no buckets, otherwise the
    * cells of the window.
    */
  method SliceWindow(sx: SurfX, g: Grid, bs: seq<seq<Bucket>>, xw: I1, yw: I1, rgen: RayGen)
    requires sx.Complete() && (bs != [] ==> Ready(sx, g, bs)) && WellFormed(rgen.fib.ep)
    modifies rgen`fib, rgen`offered
    ensures rgen.offered == old(rgen.offered) + Offers(sx, g, bs, xw, yw)
    ensures rgen.fib.wp == old(rgen.fib.wp)
    ensures rgen.fib.ep == MergeCuts(old(rgen.fib.ep), CutsOf(rgen.cut, Offers(sx, g, bs, xw, yw), rgen.ftype, rgen.fib.wp, rgen.z))
    ensures WellFormed(rgen.fib.ep)
  {
    if bs == [] {
      OffersNoBuckets(sx, g, xw, yw);
      SliceFibre(sx, rgen);
    } else {
      OffersWindow(sx, g, bs, xw, yw);
      SliceCells(sx, g, bs, xw, yw, rgen);
    }
  }

  /**
    * SliceUFibre over the index's fields as values: the window reaches
    * radball plus the margin across the held u-fibre and beyond its ends.
    */
  method SliceU(sx: SurfX, g: Grid, bs: seq<seq<Bucket>>, margin: real, rgen: RayGen)
    requires sx.Complete() && (bs != [] ==> Ready(sx, g, bs)) && WellFormed(rgen.fib.ep)
    modifies rgen`fib, rgen`offered
    ensures rgen.offered == old(rgen.offered) + UOffers(sx, g, bs, rgen.radball, margin, rgen.fib.wp, rgen.wrg)
    ensures rgen.fib.wp == old(rgen.fib.wp)
    ensures rgen.fib.ep == MergeCuts(old(rgen.fib.ep), CutsOf(rgen.cut, UOffers(sx, g, bs, rgen.radball, margin, rgen.fib.wp, rgen.wrg), rgen.ftype, rgen.fib.wp, rgen.z))
    ensures WellFormed(rgen.fib.ep)
  {
    SliceWindow(sx, g, bs, Across(rgen.fib.wp, rgen.radball + margin), rgen.wrg.Inflate(rgen.radball + margin), rgen);
  }

  /** SliceVFibre over the index's fields as values: as SliceU with the window's x and y swapped. */
  method SliceV(sx: SurfX, g: Grid, bs: seq<seq<Bucket>>, margin: real, rgen: RayGen)
    requires sx.Complete() && (bs != [] ==> Ready(sx, g, bs)) && WellFormed(rgen.fib.ep)
    modifies rgen`fib, rgen`offered
    ensures rgen.offered == old(rgen.offered) + VOffers(sx, g, bs, rgen.radball, margin, rgen.fib.wp, rgen.wrg)
    ensures rgen.fib.wp == old(rgen.fib.wp)
    ensures rgen.fib.ep == MergeCuts(old(rgen.fib.ep), CutsOf(rgen.cut, VOffers(sx, g, bs, rgen.radball, margin, rgen.fib.wp, rgen.wrg), rgen.ftype, rgen.fib.wp, rgen.z))
    ensures WellFormed(rgen.fib.ep)
  {
    SliceWindow(sx, g, bs, rgen.wrg.Inflate(rgen.radball + margin), Across(rgen.fib.wp, rgen.radball + margin), rgen);
  }
}
