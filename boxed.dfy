// SurfXboxed: a surface with its points, edges and triangles sorted into
// the cells of a grid over its x- and y-range (the buckets of module
// Buckets), built once, sorted by height, and then used to slice fibres
// by visiting only the cells a tool's ball can reach along them.

module Boxes {
  import opened Maybe
  import opened Geom
  import opened Partitions
  import opened Crossings
  import opened Footprints
  import opened Surfaces
  import opened Slicers
  import opened Sorting
  import opened Endpoints
  import opened Weave
  import opened Buckets
  import opened BoxIndex
  import opened Windows

  class SurfXboxed {
    /** The surface (psurfx). */
    const sx: SurfX
    /** The ranges the buckets cover. */
    var gbxrg: I1
    var gbyrg: I1
    /** Set when some primitive reaches past a side of the ranges. */
    var bGeoOutLeft: bool
    var bGeoOutUp: bool
    var bGeoOutRight: bool
    var bGeoOutDown: bool
    /** The strips in x, and the cells in y of each strip. */
    var xpart: Partition1
    var yparts: seq<Partition1>
    /** buckets[ix][iy]: the cell iy of strip ix. */
    var buckets: seq<seq<Bucket>>
    /** The duplicate counters that entries in more than one cell share. */
    var idups: seq<int>
    var maxidup: int
    /** How far the search window is widened beyond the ball. */
    var searchbox_epsilon: real

    /** The partitions, as a value. */
    function Layout(): Grid
      reads this`gbxrg, this`gbyrg, this`xpart, this`yparts
    {
      Grid(gbxrg, gbyrg, xpart, yparts)
    }

    /** The grid is set up: valid partitions and one bucket per cell. */
    predicate Built()
      reads this`gbxrg, this`gbyrg, this`xpart, this`yparts, this`buckets
    {
      Layout().Valid() && Shaped(buckets, yparts)
    }

    /** Every bucket entry names a primitive of the surface. */
    ghost predicate Indexed()
      reads this`buckets
    {
      AllIndexed(sx, buckets)
    }

    /** The index before BuildBoxes: the surface with no grid and no buckets. */
    constructor (lsx: SurfX)
      ensures sx == lsx && buckets == [] && yparts == [] && idups == []
      ensures !bGeoOutLeft && !bGeoOutUp && !bGeoOutRight && !bGeoOutDown
    {
      sx := lsx;
      gbxrg, gbyrg := lsx.gxrg, lsx.gyrg;
      bGeoOutLeft, bGeoOutUp, bGeoOutRight, bGeoOutDown := false, false, false, false;
      xpart := DefaultPartition();
      yparts := [];
      buckets := [];
      idups := [];
      maxidup := 0;
      searchbox_epsilon := 0.0;
    }

    /**
      * AddPointBucket: a point left or right of the x-range sets that flag;
      * otherwise a point below or above the y-range sets that flag, and a
      * point within both ranges goes into the one cell holding it.  The
      * test for the y-range is the corrected one (ReachesInsert).
      */
    method AddPointBucket(k: nat)
      requires Built() && k < |sx.vdX|
      modifies this`bGeoOutLeft, this`bGeoOutRight, this`bGeoOutDown, this`bGeoOutUp, this`buckets
      ensures Built()
      ensures var p := sx.vdX[k];
        && bGeoOutLeft == (old(bGeoOutLeft) || p.x < gbxrg.lo)
        && bGeoOutRight == (old(bGeoOutRight) || p.x > gbxrg.hi)
        && bGeoOutDown == (old(bGeoOutDown) || (gbxrg.Contains(p.x) && p.y < gbyrg.lo))
        && bGeoOutUp == (old(bGeoOutUp) || (gbxrg.Contains(p.x) && p.y > gbyrg.hi))
      ensures buckets == PointPut(Layout(), sx.vdX[k], k, old(buckets))
    {
      var p := sx.vdX[k];
      if p.x < xpart.Getrg().lo {
        bGeoOutLeft := true;
      } else if p.x > xpart.Getrg().hi {
        bGeoOutRight := true;
      } else {
        var ix := xpart.FindPart(p.x);
        if p.y < yparts[ix].Getrg().lo {
          bGeoOutDown := true;
        }
        if p.y > yparts[ix].Getrg().hi {
          bGeoOutUp := true;
        }
        if ReachesInsert(p.y, yparts[ix].Getrg()) {
          var iy := yparts[ix].FindPart(p.y);
          var b := buckets[ix][iy];
          assert PointCell(Layout(), p) == Just((ix, iy));
          buckets := Put(buckets, ix, iy, b.(ckpoints := b.ckpoints + [k]));
        }
      }
    }

    /**
      * AddEdgeBucket: the edge, its ends in order of x, goes into every
      * cell its x-range and, strip by strip, its y-range reach (InCell),
      * with height TcrossY and one shared duplicate slot when it reaches
      * more than one strip or cell at its first cell (Shared).  Ranges cut
      * by the grid's sides set the matching flags.
      */
    method AddEdgeBucket(e: nat)
      requires Built() && sx.Linked() && e < |sx.edX|
      modifies this`bGeoOutLeft, this`bGeoOutRight, this`bGeoOutDown, this`bGeoOutUp, this`buckets, this`idups
      ensures Built()
      ensures EdgeInserted(sx, e, Layout(), old(buckets), old(idups), old(bGeoOutLeft), old(bGeoOutRight), old(bGeoOutDown), old(bGeoOutUp),
                           buckets, idups, bGeoOutLeft, bGeoOutRight, bGeoOutDown, bGeoOutUp)
    {
      var g := Layout();
      var bs, ds, left, right, down, up := EdgeBucket(sx, e, g, buckets, idups, bGeoOutLeft, bGeoOutRight, bGeoOutDown, bGeoOutUp);
      buckets, idups, bGeoOutLeft, bGeoOutRight, bGeoOutDown, bGeoOutUp := bs, ds, left, right, down, up;
      assert Layout() == g;
    }

    /**
      * AddTriangBucket: the triangle, its corners in order of x, goes into
      * every cell its x-range and, strip by strip, its y-range reach, with
      * the strip's height TriZh and one shared duplicate slot when it
      * reaches more than one strip or cell at its first cell.  Ranges cut
      * by the grid's sides set the matching flags.
      */
    method AddTriangBucket(t: nat)
      requires Built() && sx.Complete() && t < |sx.trX|
      modifies this`bGeoOutLeft, this`bGeoOutRight, this`bGeoOutDown, this`bGeoOutUp, this`buckets, this`idups
      ensures Built()
      ensures TriInserted(sx, t, Layout(), old(buckets), old(idups), old(bGeoOutLeft), old(bGeoOutRight), old(bGeoOutDown), old(bGeoOutUp),
                          buckets, idups, bGeoOutLeft, bGeoOutRight, bGeoOutDown, bGeoOutUp)
    {
      var g := Layout();
      var bs, ds, left, right, down, up := TriBucket(sx, t, g, buckets, idups, bGeoOutLeft, bGeoOutRight, bGeoOutDown, bGeoOutUp);
      buckets, idups, bGeoOutLeft, bGeoOutRight, bGeoOutDown, bGeoOutUp := bs, ds, left, right, down, up;
      assert Layout() == g;
    }
 
    /**
      * BuildBoxes: the ranges of the surface cut into strips and cells no
      * wider than boxwidth, one empty bucket per cell, then every point,
      * every edge and every triangle put in.  Afterwards every bucket lists
      * exactly the points in its cell and the edges and triangles reaching
      * it (Lists), and a flag is set exactly when some primitive sets it.
      */
    method BuildBoxes(boxwidth: real)
      requires buckets == [] && yparts == []
      requires boxwidth > 0.0 && sx.Complete() && sx.gxrg.lo <= sx.gxrg.hi && sx.gyrg.lo <= sx.gyrg.hi
      modifies this
      ensures GridFor(Layout(), sx.gxrg, sx.gyrg, boxwidth)
      ensures Lists(sx, Layout(), buckets, |sx.vdX|, |sx.edX|, |sx.trX|)
      ensures Flags(bGeoOutLeft, bGeoOutRight, bGeoOutDown, bGeoOutUp)
           == OrAll(PointOuts(sx, Layout()) + EdgeOuts(sx, Layout()) + TriOuts(sx, Layout()))
      ensures ZeroExtends(idups, old(idups))
      ensures maxidup == 0 && searchbox_epsilon == 0.0001
    {
      Start(boxwidth);
      FillBoxes(Layout(), boxwidth);
    }

    /**
      * BuildBoxes before its loops: the surface's ranges, no flag set, the
      * empty grid of buckets, no duplicate counter used yet and the search
      * window's margin (set last in the source; nothing reads them between).
      */
    method Start(boxwidth: real)
      requires buckets == [] && yparts == []
      requires boxwidth > 0.0 && sx.Complete() && sx.gxrg.lo <= sx.gxrg.hi && sx.gyrg.lo <= sx.gyrg.hi
      modifies this`gbxrg, this`gbyrg, this`bGeoOutLeft, this`bGeoOutUp, this`bGeoOutRight, this`bGeoOutDown
      modifies this`xpart, this`yparts, this`buckets, this`maxidup, this`searchbox_epsilon
      ensures GridFor(Layout(), sx.gxrg, sx.gyrg, boxwidth) && Lists(sx, Layout(), buckets, 0, 0, 0)
      ensures !bGeoOutLeft && !bGeoOutUp && !bGeoOutRight && !bGeoOutDown
      ensures maxidup == 0 && searchbox_epsilon == 0.0001
    {
      gbxrg, gbyrg := sx.gxrg, sx.gyrg;
      bGeoOutLeft, bGeoOutUp, bGeoOutRight, bGeoOutDown := false, false, false, false;
      LayGrid(boxwidth);
      maxidup := 0;
      searchbox_epsilon := 0.0001;
    }

    /** The loops of BuildBoxes: every point, then every edge, then every triangle put in. */
    method FillBoxes(ghost g: Grid, ghost boxwidth: real)
      requires Layout() == g && GridFor(g, sx.gxrg, sx.gyrg, boxwidth) && Lists(sx, g, buckets, 0, 0, 0)
      requires !bGeoOutLeft && !bGeoOutRight && !bGeoOutDown && !bGeoOutUp
      modifies this`bGeoOutLeft, this`bGeoOutRight, this`bGeoOutDown, this`bGeoOutUp, this`buckets, this`idups
      ensures GridFor(Layout(), sx.gxrg, sx.gyrg, boxwidth)
      ensures Lists(sx, Layout(), buckets, |sx.vdX|, |sx.edX|, |sx.trX|)
      ensures Flags(bGeoOutLeft, bGeoOutRight, bGeoOutDown, bGeoOutUp)
           == OrAll(PointOuts(sx, Layout()) + EdgeOuts(sx, Layout()) + TriOuts(sx, Layout()))
      ensures ZeroExtends(idups, old(idups))
    {
      PutPoints(g);
      ghost var f1, d0 := Flags(bGeoOutLeft, bGeoOutRight, bGeoOutDown, bGeoOutUp), idups;
      PutEdges(g);
      ghost var f2, d1 := Flags(bGeoOutLeft, bGeoOutRight, bGeoOutDown, bGeoOutUp), idups;
      PutTriangles(g);
      ZeroExtendsTrans(idups, d1, d0);
      OrAllJoin(PointOuts(sx, g), EdgeOuts(sx, g), TriOuts(sx, g), f1, f2,
                Flags(bGeoOutLeft, bGeoOutRight, bGeoOutDown, bGeoOutUp));
    }

    /** The start of BuildBoxes: the strips of the x-range, the cells of each strip, and one empty bucket per cell. */
    method LayGrid(boxwidth: real)
      requires boxwidth > 0.0 && gbxrg.lo <= gbxrg.hi && gbyrg.lo <= gbyrg.hi && buckets == [] && yparts == []
      requires sx.Complete()
      modifies this`xpart, this`yparts, this`buckets
      ensures GridFor(Layout(), gbxrg, gbyrg, boxwidth)
      ensures Lists(sx, Layout(), buckets, 0, 0, 0)
    {
      ghost var py := Partition1(Evenly(gbyrg, PartCount(gbyrg, boxwidth)), true);
      xpart := Make(gbxrg, boxwidth);
      var ip := 0;
      while ip < xpart.NumParts()
        invariant xpart.Valid() && xpart.bRegular && xpart.Getrg() == gbxrg && xpart.NumParts() == PartCount(gbxrg, boxwidth)
        invariant 0 <= ip <= xpart.NumParts() && |yparts| == ip && |buckets| == ip
        invariant ip > 0 ==> py.Valid() && py.bRegular && py.Getrg() == gbyrg && py.NumParts() == PartCount(gbyrg, boxwidth)
        invariant forall i :: 0 <= i < ip ==> yparts[i] == py
        invariant forall i :: 0 <= i < ip ==> buckets[i] == seq(py.NumParts(), _ => EmptyBucket)
      {
        var yp := Make(gbyrg, boxwidth);
        yparts := yparts + [yp];
        buckets := buckets + [seq(yp.NumParts(), _ => EmptyBucket)];
        ip := ip + 1;
      }
      ghost var g := Layout();
      assert GridFor(g, gbxrg, gbyrg, boxwidth);
      assert buckets == EmptyBuckets(g);
      EmptyLists(sx, g);
    }

    /** The point loop of BuildBoxes. */
    method PutPoints(ghost g: Grid)
      requires Layout() == g && Lists(sx, g, buckets, 0, 0, 0)
      requires !bGeoOutLeft && !bGeoOutRight && !bGeoOutDown && !bGeoOutUp
      modifies this`bGeoOutLeft, this`bGeoOutRight, this`bGeoOutDown, this`bGeoOutUp, this`buckets
      ensures Layout() == g && Lists(sx, g, buckets, |sx.vdX|, 0, 0)
      ensures Flags(bGeoOutLeft, bGeoOutRight, bGeoOutDown, bGeoOutUp) == OrAll(PointOuts(sx, g))
    {
      var k := 0;
      while k < |sx.vdX|
        invariant k <= |sx.vdX| && Layout() == g
        invariant Lists(sx, g, buckets, k, 0, 0)
        invariant Flags(bGeoOutLeft, bGeoOutRight, bGeoOutDown, bGeoOutUp) == OrAll(PointOuts(sx, g)[..k])
      {
        PutPoint(g, k);
        k := k + 1;
      }
      assert PointOuts(sx, g)[..k] == PointOuts(sx, g);
    }

    /** One round of the point loop: point k put in. */
    method PutPoint(ghost g: Grid, k: nat)
      requires Layout() == g && k < |sx.vdX|
      requires Lists(sx, g, buckets, k, 0, 0)
      requires Flags(bGeoOutLeft, bGeoOutRight, bGeoOutDown, bGeoOutUp) == OrAll(PointOuts(sx, g)[..k])
      modifies this`bGeoOutLeft, this`bGeoOutRight, this`bGeoOutDown, this`bGeoOutUp, this`buckets
      ensures Layout() == g && Lists(sx, g, buckets, k + 1, 0, 0)
      ensures Flags(bGeoOutLeft, bGeoOutRight, bGeoOutDown, bGeoOutUp) == OrAll(PointOuts(sx, g)[..k + 1])
    {
      ghost var bs, fl := buckets, Flags(bGeoOutLeft, bGeoOutRight, bGeoOutDown, bGeoOutUp);
      AddPointBucket(k);
      PointStep(sx, g, k, bs, fl, buckets, Flags(bGeoOutLeft, bGeoOutRight, bGeoOutDown, bGeoOutUp));
    }

    /** The edge loop of BuildBoxes. */
    method PutEdges(ghost g: Grid)
      requires Layout() == g && Lists(sx, g, buckets, |sx.vdX|, 0, 0)
      modifies this`bGeoOutLeft, this`bGeoOutRight, this`bGeoOutDown, this`bGeoOutUp, this`buckets, this`idups
      ensures Layout() == g && Lists(sx, g, buckets, |sx.vdX|, |sx.edX|, 0)
      ensures Flags(bGeoOutLeft, bGeoOutRight, bGeoOutDown, bGeoOutUp)
           == old(Flags(bGeoOutLeft, bGeoOutRight, bGeoOutDown, bGeoOutUp)).Or(OrAll(EdgeOuts(sx, g)))
      ensures ZeroExtends(idups, old(idups))
    {
      ghost var f0, d0 := Flags(bGeoOutLeft, bGeoOutRight, bGeoOutDown, bGeoOutUp), idups;
      var e := 0;
      while e < |sx.edX|
        invariant e <= |sx.edX| && Layout() == g
        invariant Lists(sx, g, buckets, |sx.vdX|, e, 0)
        invariant Flags(bGeoOutLeft, bGeoOutRight, bGeoOutDown, bGeoOutUp) == f0.Or(OrAll(EdgeOuts(sx, g)[..e]))
        invariant ZeroExtends(idups, d0)
      {
        PutEdge(g, e, f0, d0);
        e := e + 1;
      }
      assert EdgeOuts(sx, g)[..e] == EdgeOuts(sx, g);
    }

    /** One round of the edge loop: edge e put in. */
    method PutEdge(ghost g: Grid, e: nat, ghost f0: Flags, ghost d0: seq<int>)
      requires Layout() == g && e < |sx.edX|
      requires Lists(sx, g, buckets, |sx.vdX|, e, 0)
      requires Flags(bGeoOutLeft, bGeoOutRight, bGeoOutDown, bGeoOutUp) == f0.Or(OrAll(EdgeOuts(sx, g)[..e]))
      requires ZeroExtends(idups, d0)
      modifies this`bGeoOutLeft, this`bGeoOutRight, this`bGeoOutDown, this`bGeoOutUp, this`buckets, this`idups
      ensures Layout() == g && Lists(sx, g, buckets, |sx.vdX|, e + 1, 0)
      ensures Flags(bGeoOutLeft, bGeoOutRight, bGeoOutDown, bGeoOutUp) == f0.Or(OrAll(EdgeOuts(sx, g)[..e + 1]))
      ensures ZeroExtends(idups, d0)
    {
      ghost var bs, ds, fl := buckets, idups, Flags(bGeoOutLeft, bGeoOutRight, bGeoOutDown, bGeoOutUp);
      AddEdgeBucket(e);
      EdgeStep(sx, g, e, |sx.vdX|, f0, d0, bs, ds, fl, buckets, idups, Flags(bGeoOutLeft, bGeoOutRight, bGeoOutDown, bGeoOutUp));
    }

    /** The triangle loop of BuildBoxes. */
    method PutTriangles(ghost g: Grid)
      requires Layout() == g && Lists(sx, g, buckets, |sx.vdX|, |sx.edX|, 0)
      modifies this`bGeoOutLeft, this`bGeoOutRight, this`bGeoOutDown, this`bGeoOutUp, this`buckets, this`idups
      ensures Layout() == g && Lists(sx, g, buckets, |sx.vdX|, |sx.edX|, |sx.trX|)
      ensures Flags(bGeoOutLeft, bGeoOutRight, bGeoOutDown, bGeoOutUp)
           == old(Flags(bGeoOutLeft, bGeoOutRight, bGeoOutDown, bGeoOutUp)).Or(OrAll(TriOuts(sx, g)))
      ensures ZeroExtends(idups, old(idups))
    {
      ghost var f0, d0 := Flags(bGeoOutLeft, bGeoOutRight, bGeoOutDown, bGeoOutUp), idups;
      var t := 0;
      while t < |sx.trX|
        invariant t <= |sx.trX| && Layout() == g
        invariant Lists(sx, g, buckets, |sx.vdX|, |sx.edX|, t)
        invariant Flags(bGeoOutLeft, bGeoOutRight, bGeoOutDown, bGeoOutUp) == f0.Or(OrAll(TriOuts(sx, g)[..t]))
        invariant ZeroExtends(idups, d0)
      {
        PutTriangle(g, t, f0, d0);
        t := t + 1;
      }
      assert TriOuts(sx, g)[..t] == TriOuts(sx, g);
    }

    /** One round of the triangle loop: triangle t put in. */
    method PutTriangle(ghost g: Grid, t: nat, ghost f0: Flags, ghost d0: seq<int>)
      requires Layout() == g && t < |sx.trX|
      requires Lists(sx, g, buckets, |sx.vdX|, |sx.edX|, t)
      requires Flags(bGeoOutLeft, bGeoOutRight, bGeoOutDown, bGeoOutUp) == f0.Or(OrAll(TriOuts(sx, g)[..t]))
      requires ZeroExtends(idups, d0)
      modifies this`bGeoOutLeft, this`bGeoOutRight, this`bGeoOutDown, this`bGeoOutUp, this`buckets, this`idups
      ensures Layout() == g && Lists(sx, g, buckets, |sx.vdX|, |sx.edX|, t + 1)
      ensures Flags(bGeoOutLeft, bGeoOutRight, bGeoOutDown, bGeoOutUp) == f0.Or(OrAll(TriOuts(sx, g)[..t + 1]))
      ensures ZeroExtends(idups, d0)
    {
      ghost var bs, ds, fl := buckets, idups, Flags(bGeoOutLeft, bGeoOutRight, bGeoOutDown, bGeoOutUp);
      AddTriangBucket(t);
      TriStep(sx, g, t, |sx.vdX|, |sx.edX|, f0, d0, bs, ds, fl, buckets, idups, Flags(bGeoOutLeft, bGeoOutRight, bGeoOutDown, bGeoOutUp));
    }

    /**
      * SortBuckets: every bucket's points sorted by z, and its edges and
      * triangles by their heights zh (SortBucket), strip by strip and cell
      * by cell.
      */
    method SortBuckets()
      requires Built()
      modifies this`buckets
      ensures Built() && |buckets| == |old(buckets)|
      ensures forall i, j :: 0 <= i < |buckets| && 0 <= j < |buckets[i]| ==> buckets[i][j] == SortBucket(sx, old(buckets)[i][j])
    {
      ghost var ob := buckets;
      var ix := 0;
      while ix < xpart.NumParts()
        invariant 0 <= ix <= |ob| && Built()
        invariant |buckets| == |ob| && forall i :: 0 <= i < |ob| ==> |buckets[i]| == |ob[i]|
        invariant forall i, j :: 0 <= i < |ob| && 0 <= j < |ob[i]| ==>
          buckets[i][j] == if i < ix then SortBucket(sx, ob[i][j]) else ob[i][j]
      {
        var iy := 0;
        while iy < yparts[ix].NumParts()
          invariant 0 <= iy <= |ob[ix]| && Built()
          invariant |buckets| == |ob| && forall i :: 0 <= i < |ob| ==> |buckets[i]| == |ob[i]|
          invariant forall i, j :: 0 <= i < |ob| && 0 <= j < |ob[i]| ==>
            buckets[i][j] == if i < ix || (i == ix && j < iy) then SortBucket(sx, ob[i][j]) else ob[i][j]
        {
          buckets := Put(buckets, ix, iy, SortBucket(sx, buckets[ix][iy]));
          iy := iy + 1;
        }
        ix := ix + 1;
      }
    }

    // -------------------------------------------------------------------
    // Slicing a fibre through the buckets

    /**
      * Ready to slice: a complete surface, and either no buckets at all or
      * a built grid whose every entry names a primitive of the surface.
      */
    ghost predicate Sliceable()
      reads this`gbxrg, this`gbyrg, this`xpart, this`yparts, this`buckets
    {
      sx.Complete() && (buckets != [] ==> Ready(sx, Layout(), buckets))
    }

    /**
      * SliceFibreBox: offers the bucket's points, then its edges, then its
      * triangles to the ball slicer, which merges each cut into the held
      * fibre.
      */
    method SliceFibreBox(iu: int, iv: int, rgen: RayGen)
      requires sx.Complete() && 0 <= iu < |buckets| && 0 <= iv < |buckets[iu]| && BucketIndexed(sx, buckets[iu][iv])
      requires WellFormed(rgen.fib.ep)
      modifies rgen`fib, rgen`offered
      ensures rgen.offered == old(rgen.offered) + BucketPrims(sx, buckets[iu][iv])
      ensures rgen.fib.wp == old(rgen.fib.wp)
      ensures rgen.fib.ep == MergeCuts(old(rgen.fib.ep), CutsOf(rgen.cut, BucketPrims(sx, buckets[iu][iv]), rgen.ftype, rgen.fib.wp, rgen.z))
      ensures WellFormed(rgen.fib.ep)
    {
      SliceBucket(sx, buckets[iu][iv], rgen);
    }

    /**
      * SliceUFibre: slices the held u-fibre against the whole surface when
      * there are no buckets; otherwise against the buckets of the window
      * reaching radball plus the margin across the fibre and beyond its
      * ends.
      */
    method SliceUFibre(rgen: RayGen)
      requires Sliceable() && rgen.ftype == UFibre && WellFormed(rgen.fib.ep)
      modifies rgen`fib, rgen`offered
      ensures rgen.offered == old(rgen.offered) + UOffers(sx, Layout(), buckets, rgen.radball, searchbox_epsilon, rgen.fib.wp, rgen.wrg)
      ensures rgen.fib.wp == old(rgen.fib.wp)
      ensures rgen.fib.ep == MergeCuts(old(rgen.fib.ep),
                CutsOf(rgen.cut, UOffers(sx, Layout(), buckets, rgen.radball, searchbox_epsilon, rgen.fib.wp, rgen.wrg), rgen.ftype, rgen.fib.wp, rgen.z))
      ensures WellFormed(rgen.fib.ep)
    {
      SliceU(sx, Layout(), buckets, searchbox_epsilon, rgen);
    }

    /** SliceVFibre: as SliceUFibre for a held v-fibre, with the window's x and y swapped. */
    method SliceVFibre(rgen: RayGen)
      requires Sliceable() && rgen.ftype == VFibre && WellFormed(rgen.fib.ep)
      modifies rgen`fib, rgen`offered
      ensures rgen.offered == old(rgen.offered) + VOffers(sx, Layout(), buckets, rgen.radball, searchbox_epsilon, rgen.fib.wp, rgen.wrg)
      ensures rgen.fib.wp == old(rgen.fib.wp)
      ensures rgen.fib.ep == MergeCuts(old(rgen.fib.ep),
                CutsOf(rgen.cut, VOffers(sx, Layout(), buckets, rgen.radball, searchbox_epsilon, rgen.fib.wp, rgen.wrg), rgen.ftype, rgen.fib.wp, rgen.z))
      ensures WellFormed(rgen.fib.ep)
    {
      SliceV(sx, Layout(), buckets, searchbox_epsilon, rgen);
    }
  }
}
