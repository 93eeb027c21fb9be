// What the index holds once BuildBoxes has put every point, then every
// edge, then every triangle into the buckets: a primitive is listed in a
// cell exactly when it lies in or reaches that cell.  Each insertion is
// stated here on the buckets as a value (PointPut, EdgePut, TriPut), with
// a lemma that it extends the listing by that one primitive.

module BoxIndex {
  import opened Maybe
  import opened Geom
  import opened Partitions
  import opened Crossings
  import opened Footprints
  import opened Surfaces
  import opened Buckets
  import opened Sorting

  /** One empty bucket per cell of grid g: the buckets before the geometry goes in. */
  function EmptyBuckets(g: Grid): (bs: seq<seq<Bucket>>)
    requires g.Valid()
    ensures Shaped(bs, g.yparts)
    ensures forall i, j :: 0 <= i < |bs| && 0 <= j < |bs[i]| ==> bs[i][j] == EmptyBucket
  {
    seq(|g.yparts|, i requires 0 <= i < |g.yparts| => seq(g.yparts[i].NumParts(), _ => EmptyBucket))
  }

  /**
    * The grid BuildBoxes lays over the ranges xrg and yrg: regular
    * partitions over the ranges, with as many parts as the range/width
    * constructor makes for width w (GridForUnique: there is one such grid).
    */
  predicate GridFor(g: Grid, xrg: I1, yrg: I1, w: real) {
    && w > 0.0 && xrg.lo <= xrg.hi && yrg.lo <= yrg.hi
    && g.Valid() && g.gbxrg == xrg && g.gbyrg == yrg
    && g.xpart.NumParts() == PartCount(xrg, w)
    && forall i :: 0 <= i < |g.yparts| ==> g.yparts[i].NumParts() == PartCount(yrg, w)
  }

  /** The ranges and the width fix the grid. */
  lemma GridForUnique(g: Grid, h: Grid, xrg: I1, yrg: I1, w: real)
    requires GridFor(g, xrg, yrg, w) && GridFor(h, xrg, yrg, w)
    ensures g == h
  {
    RegularUnique(g.xpart, h.xpart);
    forall i | 0 <= i < |g.yparts| ensures g.yparts[i] == h.yparts[i] {
      RegularUnique(g.yparts[i], h.yparts[i]);
    }
  }

  /** The buckets after AddPointBucket: point k appended in the one cell holding p, if any. */
  function PointPut(g: Grid, p: P3, k: nat, bs: seq<seq<Bucket>>): (r: seq<seq<Bucket>>)
    requires g.Valid() && Shaped(bs, g.yparts)
    ensures Shaped(r, g.yparts)
  {
    match PointCell(g, p)
      case Nothing => bs
      case Just(c) => Put(bs, c.0, c.1, bs[c.0][c.1].(ckpoints := bs[c.0][c.1].ckpoints + [k]))
  }

  /** The buckets after AddEdgeBucket, base being the number of duplicate counters before it. */
  ghost function EdgePut(sx: SurfX, g: Grid, e: nat, bs: seq<seq<Bucket>>, base: int): (r: seq<seq<Bucket>>)
    requires g.Valid() && Shaped(bs, g.yparts) && sx.Linked() && e < |sx.edX|
    ensures Shaped(r, g.yparts)
  {
    var (q0, q1) := EdgeEnds(sx, e);
    var xrg, ys := I1(q0.x, q1.x), EdgeYs(g, q0, q1);
    AddAt(bs, g, xrg, ys, EdgeAdd(e, Slot(g, xrg, ys, base)))
  }

  /** The buckets after AddTriangBucket, base being the number of duplicate counters before it. */
  ghost function TriPut(sx: SurfX, g: Grid, tr: nat, bs: seq<seq<Bucket>>, base: int): (r: seq<seq<Bucket>>)
    requires g.Valid() && Shaped(bs, g.yparts) && sx.Complete() && tr < |sx.trX|
    ensures Shaped(r, g.yparts)
  {
    var (q0, q1, q2) := TriCorners(sx, tr);
    var xrg, ys := I1(q0.x, q2.x), TriYs(g, q0, q1, q2);
    AddAt(bs, g, xrg, ys, TriAdd(TriZhs(g, ys, q0, q1, q2), tr, Slot(g, xrg, ys, base)))
  }

  // ---------------------------------------------------------------------
  // What the buckets hold

  /** Bucket b lists edge e. */
  predicate HasEdge(b: Bucket, e: nat) {
    exists m :: 0 <= m < |b.ckedges| && b.ckedges[m].edx == e
  }

  /** Bucket b lists triangle t. */
  predicate HasTri(b: Bucket, t: nat) {
    exists m :: 0 <= m < |b.cktriangs| && b.cktriangs[m].trx == t
  }

  /** Edge e reaches cell (i, j): its x-range and its y-range in strip i, clipped, take in the cell. */
  ghost predicate EdgeReaches(sx: SurfX, g: Grid, e: nat, i: int, j: int)
    requires g.Valid() && sx.Linked() && e < |sx.edX|
  {
    var (q0, q1) := EdgeEnds(sx, e);
    InCell(g, I1(q0.x, q1.x), EdgeYs(g, q0, q1), i, j)
  }

  /** Triangle t reaches cell (i, j). */
  ghost predicate TriReaches(sx: SurfX, g: Grid, t: nat, i: int, j: int)
    requires g.Valid() && sx.Complete() && t < |sx.trX|
  {
    var (q0, q1, q2) := TriCorners(sx, t);
    InCell(g, I1(q0.x, q2.x), TriYs(g, q0, q1, q2), i, j)
  }

  /** Bucket b of cell (i, j) lists exactly the first np points, those lying in the cell. */
  ghost predicate CellPoints(sx: SurfX, g: Grid, b: Bucket, i: int, j: int, np: nat)
    requires g.Valid() && np <= |sx.vdX|
  {
    forall k: nat {:trigger k in b.ckpoints} {:trigger PointIn(g, sx.vdX[k], i, j)} :: k in b.ckpoints <==> k < np && PointIn(g, sx.vdX[k], i, j)
  }

  /** Bucket b of cell (i, j) lists exactly the first ne edges, those reaching the cell. */
  ghost predicate CellEdges(sx: SurfX, g: Grid, b: Bucket, i: int, j: int, ne: nat)
    requires g.Valid() && sx.Linked() && ne <= |sx.edX|
  {
    forall e: nat :: HasEdge(b, e) <==> e < ne && EdgeReaches(sx, g, e, i, j)
  }

  /** Bucket b of cell (i, j) lists exactly the first nt triangles, those reaching the cell. */
  ghost predicate CellTris(sx: SurfX, g: Grid, b: Bucket, i: int, j: int, nt: nat)
    requires g.Valid() && sx.Complete() && nt <= |sx.trX|
  {
    forall t: nat :: HasTri(b, t) <==> t < nt && TriReaches(sx, g, t, i, j)
  }

  /** The listings of one cell, for its first np points, ne edges and nt triangles. */
  ghost predicate CellLists(sx: SurfX, g: Grid, b: Bucket, i: int, j: int, np: nat, ne: nat, nt: nat)
    requires g.Valid() && sx.Complete() && np <= |sx.vdX| && ne <= |sx.edX| && nt <= |sx.trX|
  {
    CellPoints(sx, g, b, i, j, np) && CellEdges(sx, g, b, i, j, ne) && CellTris(sx, g, b, i, j, nt)
  }

  /**
    * The grid is valid, the surface complete, and every bucket lists exactly
    * the first np points, ne edges and nt triangles in or reaching its cell.
    */
  ghost predicate Lists(sx: SurfX, g: Grid, bs: seq<seq<Bucket>>, np: nat, ne: nat, nt: nat) {
    && g.Valid() && sx.Complete() && np <= |sx.vdX| && ne <= |sx.edX| && nt <= |sx.trX|
    && Shaped(bs, g.yparts)
    && forall i, j :: 0 <= i < |bs| && 0 <= j < |bs[i]| ==> CellLists(sx, g, bs[i][j], i, j, np, ne, nt)
  }

  /** Empty buckets list nothing. */
  lemma EmptyLists(sx: SurfX, g: Grid)
    requires g.Valid() && sx.Complete()
    ensures Lists(sx, g, EmptyBuckets(g), 0, 0, 0)
  {
    var bs := EmptyBuckets(g);
    forall i, j | 0 <= i < |bs| && 0 <= j < |bs[i]|
      ensures CellPoints(sx, g, bs[i][j], i, j, 0) && CellEdges(sx, g, bs[i][j], i, j, 0) && CellTris(sx, g, bs[i][j], i, j, 0)
    {
      assert bs[i][j] == EmptyBucket;
    }
  }

  /** Appending an edge entry for e lists e besides what was listed. */
  lemma HasEdgeAppend(b: Bucket, c: CkEdge)
    ensures forall f: nat :: HasEdge(b.(ckedges := b.ckedges + [c]), f) <==> HasEdge(b, f) || f == c.edx
  {
    var b' := b.(ckedges := b.ckedges + [c]);
    assert b'.ckedges[|b.ckedges|] == c;
    forall f: nat ensures HasEdge(b', f) <==> HasEdge(b, f) || f == c.edx {
      if HasEdge(b, f) {
        var m :| 0 <= m < |b.ckedges| && b.ckedges[m].edx == f;
        assert b'.ckedges[m] == b.ckedges[m];
      }
      if HasEdge(b', f) && f != c.edx {
        var m :| 0 <= m < |b'.ckedges| && b'.ckedges[m].edx == f;
        assert b.ckedges[m] == b'.ckedges[m];
      }
    }
  }

  /** Appending a triangle entry for t lists t besides what was listed. */
  lemma HasTriAppend(b: Bucket, c: CkTri)
    ensures forall f: nat :: HasTri(b.(cktriangs := b.cktriangs + [c]), f) <==> HasTri(b, f) || f == c.trx
  {
    var b' := b.(cktriangs := b.cktriangs + [c]);
    assert b'.cktriangs[|b.cktriangs|] == c;
    forall f: nat ensures HasTri(b', f) <==> HasTri(b, f) || f == c.trx {
      if HasTri(b, f) {
        var m :| 0 <= m < |b.cktriangs| && b.cktriangs[m].trx == f;
        assert b'.cktriangs[m] == b.cktriangs[m];
      }
      if HasTri(b', f) && f != c.trx {
        var m :| 0 <= m < |b'.cktriangs| && b'.cktriangs[m].trx == f;
        assert b.cktriangs[m] == b'.cktriangs[m];
      }
    }
  }

  /** Putting point k in lists it in its cell and only there. */
  lemma PointPutLists(sx: SurfX, g: Grid, bs: seq<seq<Bucket>>, k: nat, ne: nat, nt: nat)
    requires g.Valid() && sx.Complete() && k < |sx.vdX| && ne <= |sx.edX| && nt <= |sx.trX|
    requires Lists(sx, g, bs, k, ne, nt)
    ensures Lists(sx, g, PointPut(g, sx.vdX[k], k, bs), k + 1, ne, nt)
  {
    var bs' := PointPut(g, sx.vdX[k], k, bs);
    forall i, j | 0 <= i < |bs'| && 0 <= j < |bs'[i]| ensures CellLists(sx, g, bs'[i][j], i, j, k + 1, ne, nt) {
      PointCellLists(sx, g, bs, k, ne, nt, i, j);
    }
  }

  /** One round of BuildBoxes' point loop, on values: point k listed and its flags set. */
  lemma PointStep(sx: SurfX, g: Grid, k: nat, bs0: seq<seq<Bucket>>, fl0: Flags, bs: seq<seq<Bucket>>, fl: Flags)
    requires g.Valid() && sx.Complete() && k < |sx.vdX|
    requires Lists(sx, g, bs0, k, 0, 0) && fl0 == OrAll(PointOuts(sx, g)[..k])
    requires bs == PointPut(g, sx.vdX[k], k, bs0) && fl == fl0.Or(PointOut(g, sx.vdX[k]))
    ensures Lists(sx, g, bs, k + 1, 0, 0) && fl == OrAll(PointOuts(sx, g)[..k + 1])
  {
    PointPutLists(sx, g, bs0, k, 0, 0);
    OrAllNext(PointOuts(sx, g), k);
  }

  /** PointPutLists in one cell. */
  lemma PointCellLists(sx: SurfX, g: Grid, bs: seq<seq<Bucket>>, k: nat, ne: nat, nt: nat, i: int, j: int)
    requires g.Valid() && sx.Complete() && k < |sx.vdX| && ne <= |sx.edX| && nt <= |sx.trX| && Shaped(bs, g.yparts)
    requires 0 <= i < |bs| && 0 <= j < |bs[i]| && CellLists(sx, g, bs[i][j], i, j, k, ne, nt)
    ensures CellLists(sx, g, PointPut(g, sx.vdX[k], k, bs)[i][j], i, j, k + 1, ne, nt)
  {
    var p := sx.vdX[k];
    var b := bs[i][j];
    var b' := PointPut(g, p, k, bs)[i][j];
    if PointCell(g, p) == Just((i, j)) {
      assert b' == b.(ckpoints := b.ckpoints + [k]);
    } else {
      assert b' == b;
      assert !PointIn(g, p, i, j);
    }
    assert forall e: nat :: HasEdge(b', e) == HasEdge(b, e);
    assert forall f: nat :: HasTri(b', f) == HasTri(b, f);
  }

  /** Putting edge e in lists it in exactly the cells it reaches. */
  lemma EdgePutLists(sx: SurfX, g: Grid, bs: seq<seq<Bucket>>, base: int, np: nat, e: nat, nt: nat)
    requires g.Valid() && sx.Complete() && np <= |sx.vdX| && e < |sx.edX| && nt <= |sx.trX|
    requires Lists(sx, g, bs, np, e, nt)
    ensures Lists(sx, g, EdgePut(sx, g, e, bs, base), np, e + 1, nt)
  {
    var bs' := EdgePut(sx, g, e, bs, base);
    forall i, j | 0 <= i < |bs'| && 0 <= j < |bs'[i]| ensures CellLists(sx, g, bs'[i][j], i, j, np, e + 1, nt) {
      EdgeCellLists(sx, g, bs, base, np, e, nt, i, j);
    }
  }

  /** EdgePutLists in one cell. */
  lemma EdgeCellLists(sx: SurfX, g: Grid, bs: seq<seq<Bucket>>, base: int, np: nat, e: nat, nt: nat, i: int, j: int)
    requires g.Valid() && sx.Complete() && np <= |sx.vdX| && e < |sx.edX| && nt <= |sx.trX| && Shaped(bs, g.yparts)
    requires 0 <= i < |bs| && 0 <= j < |bs[i]| && CellLists(sx, g, bs[i][j], i, j, np, e, nt)
    ensures CellLists(sx, g, EdgePut(sx, g, e, bs, base)[i][j], i, j, np, e + 1, nt)
  {
    var (q0, q1) := EdgeEnds(sx, e);
    var xrg, ys := I1(q0.x, q1.x), EdgeYs(g, q0, q1);
    var c := CkEdge(0.0, e, Slot(g, xrg, ys, base));
    var b := bs[i][j];
    var b' := EdgePut(sx, g, e, bs, base)[i][j];
    AddAtCells(bs, g, xrg, ys, EdgeAdd(e, Slot(g, xrg, ys, base)), i, j);
    HasEdgeAppend(b, c);
    assert EdgeReaches(sx, g, e, i, j) == InCell(g, xrg, ys, i, j);
    assert forall f: nat :: HasTri(b', f) == HasTri(b, f);
  }

  /**
    * One round of BuildBoxes' edge loop, on values: AddEdgeBucket's effect
    * (EdgeInserted) extends the listing by edge e, sets e's flags on top of
    * those set so far, and only appends zeros to the duplicate counters.
    */
  lemma EdgeStep(sx: SurfX, g: Grid, e: nat, np: nat, f0: Flags, dz: seq<int>,
                 bs0: seq<seq<Bucket>>, d0: seq<int>, fl0: Flags, bs: seq<seq<Bucket>>, ds: seq<int>, fl: Flags)
    requires g.Valid() && sx.Complete() && np <= |sx.vdX| && e < |sx.edX|
    requires Lists(sx, g, bs0, np, e, 0) && fl0 == f0.Or(OrAll(EdgeOuts(sx, g)[..e])) && ZeroExtends(d0, dz)
    requires EdgeInserted(sx, e, g, bs0, d0, fl0.left, fl0.right, fl0.down, fl0.up, bs, ds, fl.left, fl.right, fl.down, fl.up)
    ensures Lists(sx, g, bs, np, e + 1, 0) && fl == f0.Or(OrAll(EdgeOuts(sx, g)[..e + 1])) && ZeroExtends(ds, dz)
  {
    EdgeInsertedPut(sx, g, e, bs0, d0, fl0, bs, ds, fl);
    EdgePutLists(sx, g, bs0, |d0|, np, e, 0);
    OrAllNext(EdgeOuts(sx, g), e);
    ZeroExtendsTrans(ds, d0, dz);
  }

  /** EdgeInserted, read as EdgePut, EdgeOut and zeros appended. */
  lemma EdgeInsertedPut(sx: SurfX, g: Grid, e: nat, bs0: seq<seq<Bucket>>, d0: seq<int>, fl0: Flags,
                        bs: seq<seq<Bucket>>, ds: seq<int>, fl: Flags)
    requires g.Valid() && sx.Complete() && e < |sx.edX| && Shaped(bs0, g.yparts)
    requires EdgeInserted(sx, e, g, bs0, d0, fl0.left, fl0.right, fl0.down, fl0.up, bs, ds, fl.left, fl.right, fl.down, fl.up)
    ensures bs == EdgePut(sx, g, e, bs0, |d0|) && fl == fl0.Or(EdgeOut(sx, g, e)) && ZeroExtends(ds, d0)
  {
  }

  /** Putting triangle tr in lists it in exactly the cells it reaches. */
  lemma TriPutLists(sx: SurfX, g: Grid, bs: seq<seq<Bucket>>, base: int, np: nat, ne: nat, tr: nat)
    requires g.Valid() && sx.Complete() && np <= |sx.vdX| && ne <= |sx.edX| && tr < |sx.trX|
    requires Lists(sx, g, bs, np, ne, tr)
    ensures Lists(sx, g, TriPut(sx, g, tr, bs, base), np, ne, tr + 1)
  {
    var bs' := TriPut(sx, g, tr, bs, base);
    forall i, j | 0 <= i < |bs'| && 0 <= j < |bs'[i]| ensures CellLists(sx, g, bs'[i][j], i, j, np, ne, tr + 1) {
      TriCellLists(sx, g, bs, base, np, ne, tr, i, j);
    }
  }

  /** One round of BuildBoxes' triangle loop, on values, as EdgeStep for an edge. */
  lemma TriStep(sx: SurfX, g: Grid, t: nat, np: nat, ne: nat, f0: Flags, dz: seq<int>,
                bs0: seq<seq<Bucket>>, d0: seq<int>, fl0: Flags, bs: seq<seq<Bucket>>, ds: seq<int>, fl: Flags)
    requires g.Valid() && sx.Complete() && np <= |sx.vdX| && ne <= |sx.edX| && t < |sx.trX|
    requires Lists(sx, g, bs0, np, ne, t) && fl0 == f0.Or(OrAll(TriOuts(sx, g)[..t])) && ZeroExtends(d0, dz)
    requires TriInserted(sx, t, g, bs0, d0, fl0.left, fl0.right, fl0.down, fl0.up, bs, ds, fl.left, fl.right, fl.down, fl.up)
    ensures Lists(sx, g, bs, np, ne, t + 1) && fl == f0.Or(OrAll(TriOuts(sx, g)[..t + 1])) && ZeroExtends(ds, dz)
  {
    TriInsertedPut(sx, g, t, bs0, d0, fl0, bs, ds, fl);
    TriPutLists(sx, g, bs0, |d0|, np, ne, t);
    OrAllNext(TriOuts(sx, g), t);
    ZeroExtendsTrans(ds, d0, dz);
  }

  /** TriInserted, read as TriPut, TriOut and zeros appended. */
  lemma TriInsertedPut(sx: SurfX, g: Grid, t: nat, bs0: seq<seq<Bucket>>, d0: seq<int>, fl0: Flags,
                       bs: seq<seq<Bucket>>, ds: seq<int>, fl: Flags)
    requires g.Valid() && sx.Complete() && t < |sx.trX| && Shaped(bs0, g.yparts)
    requires TriInserted(sx, t, g, bs0, d0, fl0.left, fl0.right, fl0.down, fl0.up, bs, ds, fl.left, fl.right, fl.down, fl.up)
    ensures bs == TriPut(sx, g, t, bs0, |d0|) && fl == fl0.Or(TriOut(sx, g, t)) && ZeroExtends(ds, d0)
  {
  }

  /** TriPutLists in one cell. */
  lemma TriCellLists(sx: SurfX, g: Grid, bs: seq<seq<Bucket>>, base: int, np: nat, ne: nat, tr: nat, i: int, j: int)
    requires g.Valid() && sx.Complete() && np <= |sx.vdX| && ne <= |sx.edX| && tr < |sx.trX| && Shaped(bs, g.yparts)
    requires 0 <= i < |bs| && 0 <= j < |bs[i]| && CellLists(sx, g, bs[i][j], i, j, np, ne, tr)
    ensures CellLists(sx, g, TriPut(sx, g, tr, bs, base)[i][j], i, j, np, ne, tr + 1)
  {
    var (q0, q1, q2) := TriCorners(sx, tr);
    var xrg, ys := I1(q0.x, q2.x), TriYs(g, q0, q1, q2);
    var zhs := TriZhs(g, ys, q0, q1, q2);
    var c := CkTri(if 0 <= i < |zhs| then zhs[i] else 0.0, tr, Slot(g, xrg, ys, base));
    var b := bs[i][j];
    var b' := TriPut(sx, g, tr, bs, base)[i][j];
    AddAtCells(bs, g, xrg, ys, TriAdd(zhs, tr, Slot(g, xrg, ys, base)), i, j);
    HasTriAppend(b, c);
    assert TriReaches(sx, g, tr, i, j) == InCell(g, xrg, ys, i, j);
    assert forall f: nat :: HasEdge(b', f) == HasEdge(b, f);
  }

  // ---------------------------------------------------------------------
  // The four flags: some primitive reaches past a side of the grid

  /** bGeoOutLeft, bGeoOutRight, bGeoOutDown and bGeoOutUp. */
  datatype Flags = Flags(left: bool, right: bool, down: bool, up: bool) {
    /** Each flag set in either. */
    function Or(o: Flags): Flags {
      Flags(left || o.left, right || o.right, down || o.down, up || o.up)
    }

    /** Flag s: 0 left, 1 right, 2 down, 3 up. */
    predicate Side(s: int) {
      if s == 0 then left else if s == 1 then right else if s == 2 then down else up
    }
  }

  const NoFlags := Flags(false, false, false, false)

  /** The flags AddPointBucket sets for p: left or right of the x-range, else below or above the y-range. */
  function PointOut(g: Grid, p: P3): Flags {
    Flags(p.x < g.gbxrg.lo, p.x > g.gbxrg.hi,
          g.gbxrg.Contains(p.x) && p.y < g.gbyrg.lo, g.gbxrg.Contains(p.x) && p.y > g.gbyrg.hi)
  }

  /** The flags AddEdgeBucket sets for edge e. */
  ghost function EdgeOut(sx: SurfX, g: Grid, e: nat): Flags
    requires g.Valid() && sx.Linked() && e < |sx.edX|
  {
    var (q0, q1) := EdgeEnds(sx, e);
    var xrg, ys := I1(q0.x, q1.x), EdgeYs(g, q0, q1);
    Flags(q0.x < g.gbxrg.lo, q1.x > g.gbxrg.hi, OutBelow(g, xrg, ys), OutAbove(g, xrg, ys))
  }

  /** The flags AddTriangBucket sets for triangle tr. */
  ghost function TriOut(sx: SurfX, g: Grid, tr: nat): Flags
    requires g.Valid() && sx.Complete() && tr < |sx.trX|
  {
    var (q0, q1, q2) := TriCorners(sx, tr);
    var xrg, ys := I1(q0.x, q2.x), TriYs(g, q0, q1, q2);
    Flags(q0.x < g.gbxrg.lo, q2.x > g.gbxrg.hi, OutBelow(g, xrg, ys), OutAbove(g, xrg, ys))
  }

  /** The flags of each point, in the order BuildBoxes puts them in. */
  function PointOuts(sx: SurfX, g: Grid): (fs: seq<Flags>)
    ensures |fs| == |sx.vdX| && forall k :: 0 <= k < |fs| ==> fs[k] == PointOut(g, sx.vdX[k])
  {
    seq(|sx.vdX|, k requires 0 <= k < |sx.vdX| => PointOut(g, sx.vdX[k]))
  }

  /** The flags of each edge, in order. */
  ghost function EdgeOuts(sx: SurfX, g: Grid): (fs: seq<Flags>)
    requires g.Valid() && sx.Linked()
    ensures |fs| == |sx.edX| && forall e :: 0 <= e < |fs| ==> fs[e] == EdgeOut(sx, g, e)
  {
    seq(|sx.edX|, e requires 0 <= e < |sx.edX| => EdgeOut(sx, g, e))
  }

  /** The flags of each triangle, in order. */
  ghost function TriOuts(sx: SurfX, g: Grid): (fs: seq<Flags>)
    requires g.Valid() && sx.Complete()
    ensures |fs| == |sx.trX| && forall t :: 0 <= t < |fs| ==> fs[t] == TriOut(sx, g, t)
  {
    seq(|sx.trX|, t requires 0 <= t < |sx.trX| => TriOut(sx, g, t))
  }

  /** The flags after setting each of fs in turn, starting from none. */
  function OrAll(fs: seq<Flags>): Flags {
    if fs == [] then NoFlags else OrAll(fs[..|fs| - 1]).Or(fs[|fs| - 1])
  }

  /** A flag ends up set exactly when one of the primitives sets it. */
  lemma {:induction false} OrAllAny(fs: seq<Flags>, s: int)
    ensures OrAll(fs).Side(s) <==> exists k :: 0 <= k < |fs| && fs[k].Side(s)
  {
    if fs != [] {
      var n := |fs| - 1;
      OrAllAny(fs[..n], s);
      if fs[n].Side(s) {
        assert 0 <= n < |fs| && fs[n].Side(s);
      }
      forall k | 0 <= k < n ensures fs[..n][k] == fs[k] { }
    }
  }

  /** Setting one more primitive's flags. */
  lemma OrAllNext(fs: seq<Flags>, n: nat)
    requires n < |fs|
    ensures OrAll(fs[..n + 1]) == OrAll(fs[..n]).Or(fs[n])
  {
    assert fs[..n + 1][..n] == fs[..n];
  }

  /** Setting the flags of two runs of primitives one after the other. */
  lemma {:induction false} OrAllAppend(fs: seq<Flags>, hs: seq<Flags>)
    ensures OrAll(fs + hs) == OrAll(fs).Or(OrAll(hs))
  {
    if hs == [] {
      assert fs + hs == fs;
    } else {
      var n := |hs| - 1;
      OrAllAppend(fs, hs[..n]);
      assert (fs + hs)[..|fs + hs| - 1] == fs + hs[..n];
      assert (fs + hs)[|fs + hs| - 1] == hs[n];
    }
  }

  /** The flags of three runs in a row are the flags of their concatenation. */
  lemma OrAllJoin(ps: seq<Flags>, es: seq<Flags>, ts: seq<Flags>, f1: Flags, f2: Flags, f3: Flags)
    requires f1 == OrAll(ps) && f2 == f1.Or(OrAll(es)) && f3 == f2.Or(OrAll(ts))
    ensures f3 == OrAll(ps + es + ts)
  {
    OrAllAppend(ps, es);
    OrAllAppend(ps + es, ts);
  }


  /** ds' is ds with counters appended, each starting at 0. */
  predicate ZeroExtends(ds': seq<int>, ds: seq<int>) {
    |ds'| >= |ds| && ds'[..|ds|] == ds && forall k :: |ds| <= k < |ds'| ==> ds'[k] == 0
  }

  lemma ZeroExtendsTrans(ds2: seq<int>, ds1: seq<int>, ds0: seq<int>)
    requires ZeroExtends(ds2, ds1) && ZeroExtends(ds1, ds0)
    ensures ZeroExtends(ds2, ds0)
  {
    assert ds2[..|ds0|] == ds2[..|ds1|][..|ds0|];
  }

  // ---------------------------------------------------------------------
  // SortBuckets

  /** The height a point entry is sorted by; entries naming no point sort first. */
  function PointZ(sx: SurfX, k: nat): real {
    if k < |sx.vdX| then sx.vdX[k].z else 0.0
  }

  /** The non-strict orders std::sort derives from the three comparators of SortBuckets. */
  function PointLe(sx: SurfX): (nat, nat) -> bool {
    (a: nat, b: nat) => PointZ(sx, a) <= PointZ(sx, b)
  }

  predicate EdgeLe(a: CkEdge, b: CkEdge) { a.zh <= b.zh }

  predicate TriLe(a: CkTri, b: CkTri) { a.zh <= b.zh }

  /** One bucket of SortBuckets: points by z, edges and triangles by their heights zh. */
  function SortBucket(sx: SurfX, b: Bucket): Bucket {
    Bucket(SortBy(b.ckpoints, PointLe(sx)), SortBy(b.ckedges, EdgeLe), SortBy(b.cktriangs, TriLe))
  }

  lemma SortOrdersTotal(sx: SurfX)
    ensures TotalPreorder(PointLe(sx)) && TotalPreorder(EdgeLe) && TotalPreorder(TriLe)
  {
  }

  /** A sorted bucket holds each list in order of height, each a permutation of the list it had. */
  lemma SortBucketSorted(sx: SurfX, b: Bucket)
    ensures var b' := SortBucket(sx, b);
      && multiset(b'.ckpoints) == multiset(b.ckpoints)
      && multiset(b'.ckedges) == multiset(b.ckedges)
      && multiset(b'.cktriangs) == multiset(b.cktriangs)
      && (forall i, j :: 0 <= i < j < |b'.ckpoints| ==> PointZ(sx, b'.ckpoints[i]) <= PointZ(sx, b'.ckpoints[j]))
      && (forall i, j :: 0 <= i < j < |b'.ckedges| ==> b'.ckedges[i].zh <= b'.ckedges[j].zh)
      && (forall i, j :: 0 <= i < j < |b'.cktriangs| ==> b'.cktriangs[i].zh <= b'.cktriangs[j].zh)
  {
    SortOrdersTotal(sx);
    SortByCorrect(b.ckpoints, PointLe(sx));
    SortByCorrect(b.ckedges, EdgeLe);
    SortByCorrect(b.cktriangs, TriLe);
  }

  /** Sorting a bucket keeps what it lists. */
  lemma SortBucketLists(sx: SurfX, g: Grid, b: Bucket, i: int, j: int, np: nat, ne: nat, nt: nat)
    requires g.Valid() && sx.Complete() && np <= |sx.vdX| && ne <= |sx.edX| && nt <= |sx.trX|
    requires CellLists(sx, g, b, i, j, np, ne, nt)
    ensures CellLists(sx, g, SortBucket(sx, b), i, j, np, ne, nt)
  {
    var b' := SortBucket(sx, b);
    SortBucketSorted(sx, b);
    forall k: nat ensures k in b'.ckpoints <==> k in b.ckpoints {
      assert k in b'.ckpoints <==> k in multiset(b'.ckpoints);
      assert k in b.ckpoints <==> k in multiset(b.ckpoints);
    }
    forall e: nat ensures HasEdge(b', e) <==> HasEdge(b, e) {
      SameEntries(b.ckedges, b'.ckedges, e);
    }
    forall t: nat ensures HasTri(b', t) <==> HasTri(b, t) {
      SameTriEntries(b.cktriangs, b'.cktriangs, t);
    }
  }

  /** Two permutations of the same edge entries name the same edges. */
  lemma SameEntries(s: seq<CkEdge>, s': seq<CkEdge>, e: nat)
    requires multiset(s) == multiset(s')
    ensures (exists m :: 0 <= m < |s| && s[m].edx == e) <==> (exists m :: 0 <= m < |s'| && s'[m].edx == e)
  {
    if m :| 0 <= m < |s| && s[m].edx == e {
      assert s[m] in multiset(s');
      var m' :| 0 <= m' < |s'| && s'[m'] == s[m];
    }
    if m :| 0 <= m < |s'| && s'[m].edx == e {
      assert s'[m] in multiset(s);
      var m' :| 0 <= m' < |s| && s[m'] == s'[m];
    }
  }

  /** Two permutations of the same triangle entries name the same triangles. */
  lemma SameTriEntries(s: seq<CkTri>, s': seq<CkTri>, t: nat)
    requires multiset(s) == multiset(s')
    ensures (exists m :: 0 <= m < |s| && s[m].trx == t) <==> (exists m :: 0 <= m < |s'| && s'[m].trx == t)
  {
    if m :| 0 <= m < |s| && s[m].trx == t {
      assert s[m] in multiset(s');
      var m' :| 0 <= m' < |s'| && s'[m'] == s[m];
    }
    if m :| 0 <= m < |s'| && s'[m].trx == t {
      assert s'[m] in multiset(s);
      var m' :| 0 <= m' < |s| && s[m'] == s'[m];
    }
  }
}
