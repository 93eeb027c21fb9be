// SurfXboxed: a surface with its points, edges and triangles sorted into
// the cells of a grid over its x- and y-range, so that slicing a fibre
// only visits the cells the tool's ball can reach along it.  Each cell
// (bucket) lists the primitives that may reach into it, with the height
// zh used to sort them; a primitive in more than one cell shares one
// duplicate counter slot among its entries.

module Buckets {
  import opened Maybe
  import opened Geom
  import opened Partitions
  import opened Crossings
  import opened Footprints
  import opened Surfaces
  import opened Slicers
  import opened Sorting
  import opened Endpoints
  import opened Weave

  /** ckedgeX: an edge (by its index in edX) in a bucket, with its height and duplicate slot. */
  datatype CkEdge = CkEdge(zh: real, edx: nat, idup: int)

  /** cktriX: a triangle (by its index in trX) in a bucket, with its height and duplicate slot. */
  datatype CkTri = CkTri(zh: real, trx: nat, idup: int)

  /** bucketX: the points (indices in vdX), edges and triangles of one cell. */
  datatype Bucket = Bucket(ckpoints: seq<nat>, ckedges: seq<CkEdge>, cktriangs: seq<CkTri>)

  const EmptyBucket := Bucket([], [], [])

  /** Every entry of the bucket names a primitive of the surface. */
  predicate BucketIndexed(sx: SurfX, b: Bucket) {
    && (forall k :: 0 <= k < |b.ckpoints| ==> b.ckpoints[k] < |sx.vdX|)
    && (forall k :: 0 <= k < |b.ckedges| ==> b.ckedges[k].edx < |sx.edX|)
    && (forall k :: 0 <= k < |b.cktriangs| ==> b.cktriangs[k].trx < |sx.trX|)
  }

  /** The point p lies on the grid, in cell (i, j). */
  predicate PointIn(g: Grid, p: P3, i: int, j: int)
    requires g.Valid()
  {
    && g.gbxrg.Contains(p.x) && g.gbyrg.Contains(p.y)
    && g.xpart.IsPartOf(p.x, i) && 0 <= i < |g.yparts| && g.yparts[i].IsPartOf(p.y, j)
  }

  /** A point on the grid lies in exactly one cell, the one FindPart gives in x and then in y. */
  lemma PointInOneCell(g: Grid, p: P3, i: int, j: int)
    requires g.Valid() && g.gbxrg.Contains(p.x) && g.gbyrg.Contains(p.y)
    ensures var ix := g.xpart.FindPart(p.x); PointIn(g, p, ix, g.yparts[ix].FindPart(p.y))
    ensures PointIn(g, p, i, j) ==> i == g.xpart.FindPart(p.x) && j == g.yparts[i].FindPart(p.y)
  {
    if PointIn(g, p, i, j) {
      PartUnique(g.xpart, p.x, i, g.xpart.FindPart(p.x));
      PartUnique(g.yparts[i], p.y, j, g.yparts[i].FindPart(p.y));
    }
  }

  /**
    * The cell a point goes in, if any: AddPointBucket's branches, with the
    * corrected y-range test.
    */
  function PointCell(g: Grid, p: P3): (c: Option<(int, int)>)
    requires g.Valid()
    ensures c.Just? ==> 0 <= c.value.0 < |g.yparts| && 0 <= c.value.1 < g.yparts[c.value.0].NumParts()
    ensures forall i, j :: PointIn(g, p, i, j) <==> c == Just((i, j))
  {
    if p.x < g.xpart.Getrg().lo || p.x > g.xpart.Getrg().hi then Nothing
    else
      var ix := g.xpart.FindPart(p.x);
      if ReachesInsert(p.y, g.yparts[ix].Getrg()) then
        var iy := g.yparts[ix].FindPart(p.y);
        PointInOneCell(g, p, ix, iy);
        assert forall i, j :: PointIn(g, p, i, j) ==> i == ix && j == iy by {
          forall i, j | PointIn(g, p, i, j) ensures i == ix && j == iy {
            PointInOneCell(g, p, i, j);
          }
        }
        Just((ix, iy))
      else Nothing
  }

  /**
    * AddPointBucket's test as written: after the separate `if` for a point
    * below the y-range (line 40), only a point above it is kept out, so a
    * point below the range still reaches FindPart.
    */
  function ReachesInsertAsWritten(y: real, yrg: I1): (r: bool)
    ensures yrg.Contains(y) ==> r
    ensures r && !yrg.Contains(y) ==> y < yrg.lo
  {
    !(y > yrg.hi)
  }

  /** A point below the y-range reaches the insert as written, though the range does not hold it. */
  lemma ReachesInsertAsWrittenBelow()
    ensures ReachesInsertAsWritten(-1.0, I1(0.0, 1.0)) && !I1(0.0, 1.0).Contains(-1.0)
  {
  }

  /** AddPointBucket's test with `else if`: only a point within the y-range is inserted. */
  function ReachesInsert(y: real, yrg: I1): (r: bool)
    ensures r <==> yrg.Contains(y)
  {
    if y < yrg.lo then false
    else if y > yrg.hi then false
    else true
  }

  /** The buckets with cell (ix, iy) replaced by b. */
  function Put(bs: seq<seq<Bucket>>, ix: int, iy: int, b: Bucket): (r: seq<seq<Bucket>>)
    requires 0 <= ix < |bs| && 0 <= iy < |bs[ix]|
    ensures |r| == |bs| && forall i :: 0 <= i < |r| ==> |r[i]| == |bs[i]|
  {
    bs[ix := bs[ix][iy := b]]
  }

  /** One row of buckets per strip and one bucket per cell of the strip. */
  predicate Shaped(bs: seq<seq<Bucket>>, yparts: seq<Partition1>) {
    |bs| == |yparts| && forall i :: 0 <= i < |bs| ==> |bs[i]| == yparts[i].NumParts()
  }

  /** Every entry of every bucket names a primitive of the surface. */
  ghost predicate AllIndexed(sx: SurfX, bs: seq<seq<Bucket>>) {
    forall i, j :: CellIndexed(sx, bs, i, j)
  }

  /** The bucket in cell (i, j), if there is one, names primitives of the surface. */
  predicate CellIndexed(sx: SurfX, bs: seq<seq<Bucket>>, i: int, j: int) {
    0 <= i < |bs| && 0 <= j < |bs[i]| ==> BucketIndexed(sx, bs[i][j])
  }

  /** Replacing one bucket by an indexed one keeps the shape and the indexing. */
  lemma PutKeeps(sx: SurfX, yparts: seq<Partition1>, bs: seq<seq<Bucket>>, ix: int, iy: int, b: Bucket)
    requires 0 <= ix < |bs| && 0 <= iy < |bs[ix]|
    requires Shaped(bs, yparts) && AllIndexed(sx, bs) && BucketIndexed(sx, b)
    ensures Shaped(Put(bs, ix, iy, b), yparts) && AllIndexed(sx, Put(bs, ix, iy, b))
  {
    forall i, j ensures CellIndexed(sx, Put(bs, ix, iy, b), i, j) {
      assert CellIndexed(sx, bs, i, j);
    }
  }

  // ---------------------------------------------------------------------
  // Putting one primitive into the cells it reaches

  /** Cell (i, j) comes before cell (ix, iy) in the order the strips and their cells are visited. */
  predicate Before(i: int, j: int, ix: int, iy: int) {
    i < ix || (i == ix && j < iy)
  }

  /** Bucket b of cell (i, j), with the primitive's entry appended when (i, j) is reached and before (ix, iy). */
  function FillCell(b: Bucket, g: Grid, xrg: I1, ys: seq<I1>, add: (int, Bucket) -> Bucket, ix: int, iy: int, i: int, j: int): Bucket
    requires g.Valid() && |ys| == |g.yparts|
  {
    if InCell(g, xrg, ys, i, j) && Before(i, j, ix, iy) then add(i, b) else b
  }

  /** The first n cells of row i, filled. */
  function FillRow(row: seq<Bucket>, g: Grid, xrg: I1, ys: seq<I1>, add: (int, Bucket) -> Bucket, ix: int, iy: int, i: int, n: nat): (r: seq<Bucket>)
    requires g.Valid() && |ys| == |g.yparts| && n <= |row|
    ensures |r| == n
  {
    if n == 0 then [] else FillRow(row, g, xrg, ys, add, ix, iy, i, n - 1) + [FillCell(row[n - 1], g, xrg, ys, add, ix, iy, i, n - 1)]
  }

  /** The first m rows, filled. */
  function FillRows(bs: seq<seq<Bucket>>, g: Grid, xrg: I1, ys: seq<I1>, add: (int, Bucket) -> Bucket, ix: int, iy: int, m: nat): (r: seq<seq<Bucket>>)
    requires g.Valid() && |ys| == |g.yparts| && m <= |bs|
    ensures |r| == m && forall i :: 0 <= i < m ==> |r[i]| == |bs[i]|
  {
    if m == 0 then [] else FillRows(bs, g, xrg, ys, add, ix, iy, m - 1) + [FillRow(bs[m - 1], g, xrg, ys, add, ix, iy, m - 1, |bs[m - 1]|)]
  }

  /**
    * The buckets after the cells the primitive reaches have been filled up
    * to cell (ix, iy), not included: add(i, b) is bucket b of strip i with
    * the primitive's entry appended.
    */
  function Fill(bs: seq<seq<Bucket>>, g: Grid, xrg: I1, ys: seq<I1>, add: (int, Bucket) -> Bucket, ix: int, iy: int): (r: seq<seq<Bucket>>)
    requires g.Valid() && |ys| == |g.yparts| && Shaped(bs, g.yparts)
    ensures Shaped(r, g.yparts)
  {
    FillRows(bs, g, xrg, ys, add, ix, iy, |bs|)
  }

  lemma {:induction false} FillRowAt(row: seq<Bucket>, g: Grid, xrg: I1, ys: seq<I1>, add: (int, Bucket) -> Bucket, ix: int, iy: int, i: int, n: nat, j: int)
    requires g.Valid() && |ys| == |g.yparts| && 0 <= j < n <= |row|
    ensures FillRow(row, g, xrg, ys, add, ix, iy, i, n)[j] == FillCell(row[j], g, xrg, ys, add, ix, iy, i, j)
    decreases n
  {
    if j < n - 1 {
      FillRowAt(row, g, xrg, ys, add, ix, iy, i, n - 1, j);
    }
  }

  lemma {:induction false} FillRowsAt(bs: seq<seq<Bucket>>, g: Grid, xrg: I1, ys: seq<I1>, add: (int, Bucket) -> Bucket, ix: int, iy: int, m: nat, i: int)
    requires g.Valid() && |ys| == |g.yparts| && 0 <= i < m <= |bs|
    ensures FillRows(bs, g, xrg, ys, add, ix, iy, m)[i] == FillRow(bs[i], g, xrg, ys, add, ix, iy, i, |bs[i]|)
    decreases m
  {
    if i < m - 1 {
      FillRowsAt(bs, g, xrg, ys, add, ix, iy, m - 1, i);
    }
  }

  /** Cell (i, j) of the filled buckets: its entry appended when it is reached before (ix, iy). */
  lemma FillAt(bs: seq<seq<Bucket>>, g: Grid, xrg: I1, ys: seq<I1>, add: (int, Bucket) -> Bucket, ix: int, iy: int, i: int, j: int)
    requires g.Valid() && |ys| == |g.yparts| && Shaped(bs, g.yparts)
    requires 0 <= i < |bs| && 0 <= j < |bs[i]|
    ensures Fill(bs, g, xrg, ys, add, ix, iy)[i][j] == FillCell(bs[i][j], g, xrg, ys, add, ix, iy, i, j)
  {
    FillRowsAt(bs, g, xrg, ys, add, ix, iy, |bs|, i);
    FillRowAt(bs[i], g, xrg, ys, add, ix, iy, i, |bs[i]|, j);
  }

  /**
    * The buckets with the primitive's entry appended in the cells it
    * reaches (InCell); AddAtCells states it cell by cell.
    */
  function AddAt(bs: seq<seq<Bucket>>, g: Grid, xrg: I1, ys: seq<I1>, add: (int, Bucket) -> Bucket): (r: seq<seq<Bucket>>)
    requires g.Valid() && |ys| == |g.yparts| && Shaped(bs, g.yparts)
    ensures Shaped(r, g.yparts)
  {
    Fill(bs, g, xrg, ys, add, |bs|, 0)
  }

  /** AddAt appends the entry in exactly the cells the primitive reaches, and leaves every other bucket as it was. */
  lemma AddAtCells(bs: seq<seq<Bucket>>, g: Grid, xrg: I1, ys: seq<I1>, add: (int, Bucket) -> Bucket, i: int, j: int)
    requires g.Valid() && |ys| == |g.yparts| && Shaped(bs, g.yparts)
    requires 0 <= i < |bs| && 0 <= j < |bs[i]|
    ensures AddAt(bs, g, xrg, ys, add)[i][j] == if InCell(g, xrg, ys, i, j) then add(i, bs[i][j]) else bs[i][j]
  {
    FillAt(bs, g, xrg, ys, add, |bs|, 0, i, j);
  }

  /** Two bucket grids of the same shape that agree in every cell are equal. */
  lemma SameBuckets(r: seq<seq<Bucket>>, s: seq<seq<Bucket>>, yparts: seq<Partition1>)
    requires Shaped(r, yparts) && Shaped(s, yparts)
    requires forall i, j :: 0 <= i < |r| && 0 <= j < |r[i]| ==> r[i][j] == s[i][j]
    ensures r == s
  {
    forall i | 0 <= i < |r| ensures r[i] == s[i] {
      assert |r[i]| == |s[i]|;
    }
  }

  /** Filling up to two points between which the primitive reaches no cell gives the same buckets. */
  lemma SameFill(bs: seq<seq<Bucket>>, g: Grid, xrg: I1, ys: seq<I1>, add: (int, Bucket) -> Bucket, ix: int, iy: int, ix': int, iy': int)
    requires g.Valid() && |ys| == |g.yparts| && Shaped(bs, g.yparts)
    requires forall i, j :: InCell(g, xrg, ys, i, j) ==> (Before(i, j, ix, iy) <==> Before(i, j, ix', iy'))
    ensures Fill(bs, g, xrg, ys, add, ix, iy) == Fill(bs, g, xrg, ys, add, ix', iy')
  {
    var r, s := Fill(bs, g, xrg, ys, add, ix, iy), Fill(bs, g, xrg, ys, add, ix', iy');
    forall i, j | 0 <= i < |r| && 0 <= j < |r[i]| ensures r[i][j] == s[i][j] {
      FillAt(bs, g, xrg, ys, add, ix, iy, i, j);
      FillAt(bs, g, xrg, ys, add, ix', iy', i, j);
    }
    SameBuckets(r, s, g.yparts);
  }

  /** Filling up to a point before which the primitive reaches no cell changes nothing. */
  lemma FillNone(bs: seq<seq<Bucket>>, g: Grid, xrg: I1, ys: seq<I1>, add: (int, Bucket) -> Bucket, ix: int, iy: int)
    requires g.Valid() && |ys| == |g.yparts| && Shaped(bs, g.yparts)
    requires forall i, j :: InCell(g, xrg, ys, i, j) ==> !Before(i, j, ix, iy)
    ensures Fill(bs, g, xrg, ys, add, ix, iy) == bs
  {
    var r := Fill(bs, g, xrg, ys, add, ix, iy);
    forall i, j | 0 <= i < |r| && 0 <= j < |r[i]| ensures r[i][j] == bs[i][j] {
      FillAt(bs, g, xrg, ys, add, ix, iy, i, j);
    }
    SameBuckets(r, bs, g.yparts);
  }

  /** Nothing is filled before the first strip of the run. */
  lemma FillStart(bs: seq<seq<Bucket>>, g: Grid, xrg: I1, ys: seq<I1>, add: (int, Bucket) -> Bucket)
    requires g.Valid() && |ys| == |g.yparts| && Shaped(bs, g.yparts) && Filled(ClipX(g, xrg))
    ensures Fill(bs, g, xrg, ys, add, Strips(g, ClipX(g, xrg).rg).0, 0) == bs
  {
    FillNone(bs, g, xrg, ys, add, Strips(g, ClipX(g, xrg).rg).0, 0);
  }

  /** A primitive whose x-range misses the grid reaches no cell. */
  lemma AddAtNone(bs: seq<seq<Bucket>>, g: Grid, xrg: I1, ys: seq<I1>, add: (int, Bucket) -> Bucket)
    requires g.Valid() && |ys| == |g.yparts| && Shaped(bs, g.yparts) && !Filled(ClipX(g, xrg))
    ensures AddAt(bs, g, xrg, ys, add) == bs
  {
    FillNone(bs, g, xrg, ys, add, |bs|, 0);
  }

  /** A strip whose clipped y-range is empty is passed over. */
  lemma FillSkip(bs: seq<seq<Bucket>>, g: Grid, xrg: I1, ys: seq<I1>, add: (int, Bucket) -> Bucket, ix: int)
    requires g.Valid() && |ys| == |g.yparts| && Shaped(bs, g.yparts)
    requires 0 <= ix < |ys| && !Filled(ClipY(g, ys, ix))
    ensures Fill(bs, g, xrg, ys, add, ix, 0) == Fill(bs, g, xrg, ys, add, ix + 1, 0)
  {
    SameFill(bs, g, xrg, ys, add, ix, 0, ix + 1, 0);
  }

  /** Nothing is filled below the first cell of a strip's run. */
  lemma FillRowStart(bs: seq<seq<Bucket>>, g: Grid, xrg: I1, ys: seq<I1>, add: (int, Bucket) -> Bucket, ix: int)
    requires g.Valid() && |ys| == |g.yparts| && Shaped(bs, g.yparts)
    requires 0 <= ix < |ys| && Filled(ClipY(g, ys, ix))
    ensures Fill(bs, g, xrg, ys, add, ix, 0) == Fill(bs, g, xrg, ys, add, ix, Cells(g, ix, ClipY(g, ys, ix).rg).0)
  {
    SameFill(bs, g, xrg, ys, add, ix, 0, ix, Cells(g, ix, ClipY(g, ys, ix).rg).0);
  }

  /** Past the last cell of a strip's run, the strip is done. */
  lemma FillRowEnd(bs: seq<seq<Bucket>>, g: Grid, xrg: I1, ys: seq<I1>, add: (int, Bucket) -> Bucket, ix: int)
    requires g.Valid() && |ys| == |g.yparts| && Shaped(bs, g.yparts)
    requires 0 <= ix < |ys| && Filled(ClipY(g, ys, ix))
    ensures Fill(bs, g, xrg, ys, add, ix, Cells(g, ix, ClipY(g, ys, ix).rg).1 + 1) == Fill(bs, g, xrg, ys, add, ix + 1, 0)
  {
    SameFill(bs, g, xrg, ys, add, ix, Cells(g, ix, ClipY(g, ys, ix).rg).1 + 1, ix + 1, 0);
  }

  /** Past the last strip of the run, every cell the primitive reaches is filled. */
  lemma FillEnd(bs: seq<seq<Bucket>>, g: Grid, xrg: I1, ys: seq<I1>, add: (int, Bucket) -> Bucket, ix: int)
    requires g.Valid() && |ys| == |g.yparts| && Shaped(bs, g.yparts) && Filled(ClipX(g, xrg))
    requires Strips(g, ClipX(g, xrg).rg).1 < ix
    ensures Fill(bs, g, xrg, ys, add, ix, 0) == AddAt(bs, g, xrg, ys, add)
  {
    SameFill(bs, g, xrg, ys, add, ix, 0, |bs|, 0);
  }

  /** Filling cell (ix, iy), which the primitive reaches, appends its entry there. */
  lemma FillStep(bs: seq<seq<Bucket>>, g: Grid, xrg: I1, ys: seq<I1>, add: (int, Bucket) -> Bucket, ix: int, iy: int)
    requires g.Valid() && |ys| == |g.yparts| && Shaped(bs, g.yparts)
    requires 0 <= ix < |bs| && 0 <= iy < |bs[ix]| && InCell(g, xrg, ys, ix, iy)
    ensures Fill(bs, g, xrg, ys, add, ix, iy)[ix][iy] == bs[ix][iy]
    ensures Fill(bs, g, xrg, ys, add, ix, iy + 1) == Put(Fill(bs, g, xrg, ys, add, ix, iy), ix, iy, add(ix, bs[ix][iy]))
  {
    var f := Fill(bs, g, xrg, ys, add, ix, iy);
    var r, s := Fill(bs, g, xrg, ys, add, ix, iy + 1), Put(f, ix, iy, add(ix, bs[ix][iy]));
    FillAt(bs, g, xrg, ys, add, ix, iy, ix, iy);
    forall i, j | 0 <= i < |r| && 0 <= j < |r[i]| ensures r[i][j] == s[i][j] {
      FillAt(bs, g, xrg, ys, add, ix, iy, i, j);
      FillAt(bs, g, xrg, ys, add, ix, iy + 1, i, j);
    }
    SameBuckets(r, s, g.yparts);
  }

  /** The duplicate slot a primitive's entries carry: a fresh counter when it is shared, else -1. */
  function Slot(g: Grid, xrg: I1, ys: seq<I1>, base: int): int
    requires g.Valid() && |ys| == |g.yparts|
  {
    if Shared(g, xrg, ys) then base else -1
  }

  /** The first cell the primitive reaches, in the order the strips and their cells are visited. */
  function FirstCell(g: Grid, xrg: I1, ys: seq<I1>): (r: Option<(int, int)>)
    requires g.Valid() && |ys| == |g.yparts|
    ensures r.Just? ==> InCell(g, xrg, ys, r.value.0, r.value.1)
    ensures r.Just? ==> forall i, j :: InCell(g, xrg, ys, i, j) ==> !Before(i, j, r.value.0, r.value.1)
    ensures r.Nothing? ==> forall i, j :: !InCell(g, xrg, ys, i, j)
  {
    if !Filled(ClipX(g, xrg)) then Nothing
    else
      var s := Strips(g, ClipX(g, xrg).rg);
      var f := FirstFilled(g, ys, s.0, s.1);
      if f.Nothing? then Nothing
      else Just((f.value, Cells(g, f.value, ClipY(g, ys, f.value).rg).0))
  }

  /** The first cell the primitive reaches comes before cell (ix, iy). */
  predicate Started(g: Grid, xrg: I1, ys: seq<I1>, ix: int, iy: int)
    requires g.Valid() && |ys| == |g.yparts|
  {
    var c := FirstCell(g, xrg, ys);
    c.Just? && Before(c.value.0, c.value.1, ix, iy)
  }

  /**
    * The duplicate check at cell (ix, iy): at the first cell, more than
    * one strip or more than one cell in the strip is exactly Shared; at a
    * later cell of an unshared primitive there is one strip and one cell.
    */
  lemma DupCheck(g: Grid, xrg: I1, ys: seq<I1>, ix: int, iy: int)
    requires g.Valid() && |ys| == |g.yparts| && InCell(g, xrg, ys, ix, iy)
    ensures var s, c := Strips(g, ClipX(g, xrg).rg), Cells(g, ix, ClipY(g, ys, ix).rg);
      && Started(g, xrg, ys, ix, iy + 1)
      && (!Started(g, xrg, ys, ix, iy) ==> ((s.0 != s.1 || c.0 != c.1) <==> Shared(g, xrg, ys)))
      && (!Shared(g, xrg, ys) ==> s.0 == s.1 && c.0 == c.1)
  {
    var s, c := Strips(g, ClipX(g, xrg).rg), Cells(g, ix, ClipY(g, ys, ix).rg);
    var fc := FirstCell(g, xrg, ys);
    assert fc.Just?;
    if !Started(g, xrg, ys, ix, iy) {
      assert fc.value == (ix, iy);
    }
    if !Shared(g, xrg, ys) {
      var f := FirstFilled(g, ys, s.0, s.1);
      assert f.Just?;
      assert s.0 == s.1;
      assert ix == f.value;
    }
  }

  /** The first cell is no earlier than the run's first strip, and no later than its last. */
  lemma StartedBounds(g: Grid, xrg: I1, ys: seq<I1>, ix: int)
    requires g.Valid() && |ys| == |g.yparts| && Filled(ClipX(g, xrg))
    ensures !Started(g, xrg, ys, Strips(g, ClipX(g, xrg).rg).0, 0)
    ensures Strips(g, ClipX(g, xrg).rg).1 < ix ==> (Started(g, xrg, ys, ix, 0) <==> FirstCell(g, xrg, ys).Just?)
    ensures Shared(g, xrg, ys) ==> FirstCell(g, xrg, ys).Just?
  {
  }

  /** Passing over a strip the primitive misses, or the cells of a strip it misses, moves nothing. */
  lemma StartedRow(g: Grid, xrg: I1, ys: seq<I1>, ix: int)
    requires g.Valid() && |ys| == |g.yparts| && 0 <= ix < |ys|
    ensures !Filled(ClipY(g, ys, ix)) ==> (Started(g, xrg, ys, ix, 0) <==> Started(g, xrg, ys, ix + 1, 0))
    ensures Filled(ClipY(g, ys, ix)) ==>
      var c := Cells(g, ix, ClipY(g, ys, ix).rg);
      && (Started(g, xrg, ys, ix, 0) <==> Started(g, xrg, ys, ix, c.0))
      && (Started(g, xrg, ys, ix, c.1 + 1) <==> Started(g, xrg, ys, ix + 1, 0))
  {
  }

  // ---------------------------------------------------------------------
  // Edges

  /** An edge's ends in order of increasing x: the first end when it is not to the right. */
  function EdgeEnds(sx: SurfX, e: nat): (r: (P3, P3))
    requires sx.Linked() && e < |sx.edX|
    ensures r.0.x <= r.1.x
  {
    var a, b := sx.vdX[sx.edX[e].p0], sx.vdX[sx.edX[e].p1];
    if a.x <= b.x then (a, b) else (b, a)
  }

  /** EdgeEnds are the edge's two ends, in order of x. */
  lemma EdgeEndsAreEnds(sx: SurfX, e: nat)
    requires sx.Linked() && e < |sx.edX|
    ensures var (q0, q1) := EdgeEnds(sx, e);
      {q0, q1} == {sx.vdX[sx.edX[e].p0], sx.vdX[sx.edX[e].p1]} && q0.x <= q1.x
  {
  }

  /** TcrossY for an edge: the height at which an edge's entry is sorted is zero. */
  function TcrossY(ly: real, rzl: P2, rzr: P2): real {
    0.0
  }

  /** An edge's entry, appended to a bucket. */
  function EdgeAdd(e: nat, slot: int): (int, Bucket) -> Bucket {
    (i: int, b: Bucket) => b.(ckedges := b.ckedges + [CkEdge(0.0, e, slot)])
  }


  /**
    * The result of AddEdgeBucket on grid g from buckets bs0, counters d0
    * and the four flags: the edge's ends in order of x set the left and
    * right flags when they lie beyond the grid; its y-range cut by the
    * grid's bottom or top in some strip it reaches sets the down or up
    * flag; every cell the edge reaches gets its entry, with a fresh
    * counter as slot exactly when the edge is Shared.
    */
  ghost predicate EdgeInserted(sx: SurfX, e: nat, g: Grid, bs0: seq<seq<Bucket>>, d0: seq<int>, left0: bool, right0: bool, down0: bool, up0: bool,
                               bs: seq<seq<Bucket>>, ds: seq<int>, left: bool, right: bool, down: bool, up: bool)
    requires g.Valid() && Shaped(bs0, g.yparts) && sx.Linked() && e < |sx.edX|
  {
    var (q0, q1) := EdgeEnds(sx, e);
    var xrg, ys := I1(q0.x, q1.x), EdgeYs(g, q0, q1);
    && left == (left0 || q0.x < g.gbxrg.lo)
    && right == (right0 || q1.x > g.gbxrg.hi)
    && down == (down0 || OutBelow(g, xrg, ys))
    && up == (up0 || OutAbove(g, xrg, ys))
    && ds == d0 + (if Shared(g, xrg, ys) then [0] else [])
    && bs == AddAt(bs0, g, xrg, ys, EdgeAdd(e, Slot(g, xrg, ys, |d0|)))
  }

  /** AddEdgeBucket on the grid g, the buckets bs0, the counters d0 and the four flags. */
  method EdgeBucket(sx: SurfX, e: nat, g: Grid, bs0: seq<seq<Bucket>>, d0: seq<int>, left0: bool, right0: bool, down0: bool, up0: bool)
      returns (bs: seq<seq<Bucket>>, ds: seq<int>, left: bool, right: bool, down: bool, up: bool)
    requires g.Valid() && Shaped(bs0, g.yparts) && sx.Linked() && e < |sx.edX|
    ensures Shaped(bs, g.yparts)
    ensures EdgeInserted(sx, e, g, bs0, d0, left0, right0, down0, up0, bs, ds, left, right, down, up)
  {
    var ed := sx.edX[e];
    var bxinc := sx.vdX[ed.p0].x <= sx.vdX[ed.p1].x;
    var q0 := if bxinc then sx.vdX[ed.p0] else sx.vdX[ed.p1];
    var q1 := if !bxinc then sx.vdX[ed.p0] else sx.vdX[ed.p1];
    assert (q0, q1) == EdgeEnds(sx, e);
    var xrg := I1(q0.x, q1.x);
    ghost var xrg0, ys := xrg, EdgeYs(g, q0, q1);
    ghost var add := EdgeAdd(e, Slot(g, xrg0, ys, |d0|));
    bs, ds, left, right, down, up := bs0, d0, left0, right0, down0, up0;

    if xrg.lo < g.gbxrg.lo {
      left := true;
      xrg := xrg.(lo := g.gbxrg.lo);
    }
    if xrg.hi > g.gbxrg.hi {
      right := true;
      xrg := xrg.(hi := g.gbxrg.hi);
    }
    assert xrg == ClipX(g, xrg0).rg;
    if xrg.lo > xrg.hi {
      AddAtNone(bs0, g, xrg0, ys, add);
    } else {
      bs, ds, down, up := EdgeStrips(e, g, q0, q1, xrg, bs0, d0, down0, up0, xrg0, ys);
    }
  }

  /**
    * The cells before (ix, iy) of those the primitive reaches are filled
    * from bs0 with add in bs, ipfck is the duplicate slot once the first of
    * them is passed (-1 before), and the counters ds are d0 with the
    * primitive's counter once it is passed, if it is shared.
    */
  ghost predicate Progress(bs: seq<seq<Bucket>>, ds: seq<int>, ipfck: int, bs0: seq<seq<Bucket>>, d0: seq<int>,
                           g: Grid, xrg: I1, ys: seq<I1>, add: (int, Bucket) -> Bucket, ix: int, iy: int)
    requires g.Valid() && |ys| == |g.yparts| && Shaped(bs0, g.yparts)
  {
    var st := Started(g, xrg, ys, ix, iy);
    && bs == Fill(bs0, g, xrg, ys, add, ix, iy)
    && ipfck == (if st then Slot(g, xrg, ys, |d0|) else -1)
    && ds == d0 + (if st && Shared(g, xrg, ys) then [0] else [])
  }

  /** Passing over strip ix, whose clipped y-range is empty, keeps the progress. */
  lemma ProgressSkip(bs: seq<seq<Bucket>>, ds: seq<int>, ipfck: int, bs0: seq<seq<Bucket>>, d0: seq<int>,
                     g: Grid, xrg: I1, ys: seq<I1>, add: (int, Bucket) -> Bucket, ix: int)
    requires g.Valid() && |ys| == |g.yparts| && Shaped(bs0, g.yparts) && 0 <= ix < |ys|
    requires !Filled(ClipY(g, ys, ix)) && Progress(bs, ds, ipfck, bs0, d0, g, xrg, ys, add, ix, 0)
    ensures Progress(bs, ds, ipfck, bs0, d0, g, xrg, ys, add, ix + 1, 0)
  {
    StartedRow(g, xrg, ys, ix);
    FillSkip(bs0, g, xrg, ys, add, ix);
  }

  /** Entering the run of cells of strip ix keeps the progress. */
  lemma ProgressEnter(bs: seq<seq<Bucket>>, ds: seq<int>, ipfck: int, bs0: seq<seq<Bucket>>, d0: seq<int>,
                      g: Grid, xrg: I1, ys: seq<I1>, add: (int, Bucket) -> Bucket, ix: int, iyrg: (int, int))
    requires g.Valid() && |ys| == |g.yparts| && Shaped(bs0, g.yparts) && 0 <= ix < |ys|
    requires Filled(ClipY(g, ys, ix)) && iyrg == Cells(g, ix, ClipY(g, ys, ix).rg)
    requires Progress(bs, ds, ipfck, bs0, d0, g, xrg, ys, add, ix, 0)
    ensures Progress(bs, ds, ipfck, bs0, d0, g, xrg, ys, add, ix, iyrg.0)
  {
    StartedRow(g, xrg, ys, ix);
    FillRowStart(bs0, g, xrg, ys, add, ix);
  }

  /** Leaving the run of cells of strip ix for the next strip keeps the progress. */
  lemma ProgressLeave(bs: seq<seq<Bucket>>, ds: seq<int>, ipfck: int, bs0: seq<seq<Bucket>>, d0: seq<int>,
                      g: Grid, xrg: I1, ys: seq<I1>, add: (int, Bucket) -> Bucket, ix: int, iyrg: (int, int))
    requires g.Valid() && |ys| == |g.yparts| && Shaped(bs0, g.yparts) && 0 <= ix < |ys|
    requires Filled(ClipY(g, ys, ix)) && iyrg == Cells(g, ix, ClipY(g, ys, ix).rg)
    requires Progress(bs, ds, ipfck, bs0, d0, g, xrg, ys, add, ix, iyrg.1 + 1)
    ensures Progress(bs, ds, ipfck, bs0, d0, g, xrg, ys, add, ix + 1, 0)
  {
    StartedRow(g, xrg, ys, ix);
    FillRowEnd(bs0, g, xrg, ys, add, ix);
  }

  /** The cells iyrg of strip ix, in the run of strips ixrg, that a primitive with footprint xrg and ys reaches. */
  ghost predicate CellRun(g: Grid, xrg: I1, ys: seq<I1>, bsA: seq<seq<Bucket>>, ixrg: (int, int), ix: int, iyrg: (int, int))
  {
    && g.Valid() && |ys| == |g.yparts| && Shaped(bsA, g.yparts)
    && Filled(ClipX(g, xrg)) && ixrg == Strips(g, ClipX(g, xrg).rg) && ixrg.0 <= ix <= ixrg.1
    && Filled(ClipY(g, ys, ix)) && iyrg == Cells(g, ix, ClipY(g, ys, ix).rg)
  }

  /** The facts EdgeStrip works from: strip ix of the run ixrg, with the edge's crossings of its sides. */
  ghost predicate EdgeSide(g: Grid, xrg: I1, ys: seq<I1>, bsA: seq<seq<Bucket>>, q0: P3, q1: P3,
                           ixrg: (int, int), ix: int, rzl: P2, rzr: P2)
  {
    && g.Valid() && q0.x <= q1.x && ys == EdgeYs(g, q0, q1) && Shaped(bsA, g.yparts)
    && Filled(ClipX(g, xrg)) && ixrg == Strips(g, ClipX(g, xrg).rg) && ixrg.0 <= ix <= ixrg.1
    && rzl == TcrossX(g.xpart.b[ix], q0, q1) && rzr == TcrossX(g.xpart.b[ix + 1], q0, q1)
  }

  /**
    * One cell of AddEdgeBucket's inner loop: after the duplicate check the
    * entry at cell (ix, iy) carries the edge's slot, and the fill moves on
    * to the next cell.
    */
  lemma EdgeCellStep(e: nat, g: Grid, ixrg: (int, int), ix: int, iyrg: (int, int), iy: int,
                     bs: seq<seq<Bucket>>, ds: seq<int>, ipfck: int,
                     xrg: I1, ys: seq<I1>, bs0: seq<seq<Bucket>>, d0: seq<int>)
    requires CellRun(g, xrg, ys, bs0, ixrg, ix, iyrg) && iyrg.0 <= iy <= iyrg.1
    requires Progress(bs, ds, ipfck, bs0, d0, g, xrg, ys, EdgeAdd(e, Slot(g, xrg, ys, |d0|)), ix, iy)
    ensures 0 <= ix < |bs| && 0 <= iy < |bs[ix]|
    ensures var (ipfck', ds') := if ipfck == -1 && (ixrg.0 != ixrg.1 || iyrg.0 != iyrg.1) then (|ds|, ds + [0]) else (ipfck, ds);
      Progress(Put(bs, ix, iy, bs[ix][iy].(ckedges := bs[ix][iy].ckedges + [CkEdge(0.0, e, ipfck')])), ds', ipfck',
               bs0, d0, g, xrg, ys, EdgeAdd(e, Slot(g, xrg, ys, |d0|)), ix, iy + 1)
  {
    var add := EdgeAdd(e, Slot(g, xrg, ys, |d0|));
    DupCheck(g, xrg, ys, ix, iy);
    FillStep(bs0, g, xrg, ys, add, ix, iy);
  }

  /** AddEdgeBucket's pass over the cells iyrg of strip ix, each getting the edge's entry. */
  method EdgeCells(e: nat, g: Grid, ixrg: (int, int), ix: int, iyrg: (int, int), rzl: P2, rzr: P2,
                   bs0: seq<seq<Bucket>>, d0: seq<int>, ipfck0: int,
                   ghost xrg: I1, ghost ys: seq<I1>, ghost bsA: seq<seq<Bucket>>, ghost dA: seq<int>)
      returns (bs: seq<seq<Bucket>>, ds: seq<int>, ipfck: int)
    requires CellRun(g, xrg, ys, bsA, ixrg, ix, iyrg)
    requires Progress(bs0, d0, ipfck0, bsA, dA, g, xrg, ys, EdgeAdd(e, Slot(g, xrg, ys, |dA|)), ix, iyrg.0)
    ensures Progress(bs, ds, ipfck, bsA, dA, g, xrg, ys, EdgeAdd(e, Slot(g, xrg, ys, |dA|)), ix, iyrg.1 + 1)
  {
    bs, ds, ipfck := bs0, d0, ipfck0;
    var zhu := TcrossY(g.yparts[ix].GetPart(iyrg.0).lo, rzl, rzr);
    var iy := iyrg.0;
    while iy <= iyrg.1
      invariant iyrg.0 <= iy <= iyrg.1 + 1 && zhu == 0.0
      invariant Progress(bs, ds, ipfck, bsA, dA, g, xrg, ys, EdgeAdd(e, Slot(g, xrg, ys, |dA|)), ix, iy)
    {
      var zhd := zhu;
      zhu := TcrossY(g.yparts[ix].GetPart(iyrg.0).hi, rzl, rzr);
      EdgeCellStep(e, g, ixrg, ix, iyrg, iy, bs, ds, ipfck, xrg, ys, bsA, dA);
      if ipfck == -1 {
        if ixrg.0 != ixrg.1 || iyrg.0 != iyrg.1 {
          ipfck := |ds|;
          ds := ds + [0];
        }
      }
      var zh := Max(zhd, zhu);
      var b := bs[ix][iy];
      bs := Put(bs, ix, iy, b.(ckedges := b.ckedges + [CkEdge(zh, e, ipfck)]));
      iy := iy + 1;
    }
  }

  /** AddEdgeBucket's pass over strip ix: clip the edge's y-range there and fill the cells it reaches. */
  method EdgeStrip(e: nat, g: Grid, q0: P3, q1: P3, ixrg: (int, int), ix: int, rzl: P2, rzr: P2,
                   bs0: seq<seq<Bucket>>, d0: seq<int>, ipfck0: int, down0: bool, up0: bool,
                   ghost xrg: I1, ghost ys: seq<I1>, ghost bsA: seq<seq<Bucket>>, ghost dA: seq<int>)
      returns (bs: seq<seq<Bucket>>, ds: seq<int>, ipfck: int, down: bool, up: bool)
    requires EdgeSide(g, xrg, ys, bsA, q0, q1, ixrg, ix, rzl, rzr)
    requires Progress(bs0, d0, ipfck0, bsA, dA, g, xrg, ys, EdgeAdd(e, Slot(g, xrg, ys, |dA|)), ix, 0)
    ensures Progress(bs, ds, ipfck, bsA, dA, g, xrg, ys, EdgeAdd(e, Slot(g, xrg, ys, |dA|)), ix + 1, 0)
    ensures down == (down0 || ClipY(g, ys, ix).below)
    ensures up == (up0 || ClipY(g, ys, ix).above)
  {
    ghost var add := EdgeAdd(e, Slot(g, xrg, ys, |dA|));
    bs, ds, ipfck := bs0, d0, ipfck0;
    var yrg;
    yrg, down, up := EdgeSpan(g, q0, q1, ix, rzl, rzr, down0, up0, ys);
    if yrg.lo > yrg.hi {
      ProgressSkip(bs, ds, ipfck, bsA, dA, g, xrg, ys, add, ix);
    } else {
      var iyrg := g.yparts[ix].FindPartRG(yrg);
      ProgressEnter(bs, ds, ipfck, bsA, dA, g, xrg, ys, add, ix, iyrg);
      bs, ds, ipfck := EdgeCells(e, g, ixrg, ix, iyrg, rzl, rzr, bs, ds, ipfck, xrg, ys, bsA, dA);
      ProgressLeave(bs, ds, ipfck, bsA, dA, g, xrg, ys, add, ix, iyrg);
    }
  }

  /** The edge's y-range in strip ix, between its crossings rzl and rzr of the strip's sides, clipped to the grid with the flags set. */
  method EdgeSpan(g: Grid, q0: P3, q1: P3, ix: int, rzl: P2, rzr: P2, down0: bool, up0: bool, ghost ys: seq<I1>)
      returns (yrg: I1, down: bool, up: bool)
    requires g.Valid() && q0.x <= q1.x && ys == EdgeYs(g, q0, q1) && 0 <= ix < |ys|
    requires rzl == TcrossX(g.xpart.b[ix], q0, q1) && rzr == TcrossX(g.xpart.b[ix + 1], q0, q1)
    ensures yrg == ClipY(g, ys, ix).rg
    ensures down == (down0 || ClipY(g, ys, ix).below)
    ensures up == (up0 || ClipY(g, ys, ix).above)
  {
    down, up := down0, up0;
    yrg := SCombine(rzl.v, rzr.v);
    EdgeYsAt(g, q0, q1, ix);
    assert yrg == ys[ix];
    if yrg.lo < g.gbyrg.lo {
      down := true;
      yrg := yrg.(lo := g.gbyrg.lo);
    }
    if yrg.hi > g.gbyrg.hi {
      up := true;
      yrg := yrg.(hi := g.gbyrg.hi);
    }
  }

  /**
    * AddEdgeBucket's pass over the strips its clipped x-range reaches,
    * from buckets bs0 and counters d0, setting the below and above flags
    * where the edge's y-range in a strip is cut.
    */
  method EdgeStrips(e: nat, g: Grid, q0: P3, q1: P3, xc: I1, bs0: seq<seq<Bucket>>, d0: seq<int>, down0: bool, up0: bool,
                    ghost xrg: I1, ghost ys: seq<I1>)
      returns (bs: seq<seq<Bucket>>, ds: seq<int>, down: bool, up: bool)
    requires g.Valid() && q0.x <= q1.x && xrg == I1(q0.x, q1.x) && ys == EdgeYs(g, q0, q1) && Shaped(bs0, g.yparts)
    requires Filled(ClipX(g, xrg)) && xc == ClipX(g, xrg).rg
    ensures ds == d0 + (if Shared(g, xrg, ys) then [0] else [])
    ensures bs == AddAt(bs0, g, xrg, ys, EdgeAdd(e, Slot(g, xrg, ys, |d0|)))
    ensures down == (down0 || OutBelow(g, xrg, ys))
    ensures up == (up0 || OutAbove(g, xrg, ys))
  {
    ghost var add := EdgeAdd(e, Slot(g, xrg, ys, |d0|));
    var ixrg := g.xpart.FindPartRG(xc);
    var rzr := TcrossX(g.xpart.GetPart(ixrg.0).lo, q0, q1);
    FillStart(bs0, g, xrg, ys, add);
    StartedBounds(g, xrg, ys, ixrg.0);
    var ipfck;
    bs, ds, ipfck, down, up := EdgeSweep(e, g, q0, q1, ixrg, rzr, bs0, d0, down0, up0, xrg, ys);
    FillEnd(bs0, g, xrg, ys, add, ixrg.1 + 1);
    StartedBounds(g, xrg, ys, ixrg.1 + 1);
  }

  /** EdgeStrips' loop over the strips ixrg, starting from the crossing rzr0 of the run's left side. */
  method EdgeSweep(e: nat, g: Grid, q0: P3, q1: P3, ixrg: (int, int), rzr0: P2,
                   bs0: seq<seq<Bucket>>, d0: seq<int>, down0: bool, up0: bool, ghost xrg: I1, ghost ys: seq<I1>)
      returns (bs: seq<seq<Bucket>>, ds: seq<int>, ipfck: int, down: bool, up: bool)
    requires g.Valid() && q0.x <= q1.x && ys == EdgeYs(g, q0, q1) && Shaped(bs0, g.yparts)
    requires Filled(ClipX(g, xrg)) && ixrg == Strips(g, ClipX(g, xrg).rg) && rzr0 == TcrossX(g.xpart.b[ixrg.0], q0, q1)
    requires Progress(bs0, d0, -1, bs0, d0, g, xrg, ys, EdgeAdd(e, Slot(g, xrg, ys, |d0|)), ixrg.0, 0)
    ensures Progress(bs, ds, ipfck, bs0, d0, g, xrg, ys, EdgeAdd(e, Slot(g, xrg, ys, |d0|)), ixrg.1 + 1, 0)
    ensures down == (down0 || CutIn(g, ys, ixrg.0, ixrg.1 + 1, false))
    ensures up == (up0 || CutIn(g, ys, ixrg.0, ixrg.1 + 1, true))
  {
    bs, ds, ipfck, down, up := bs0, d0, -1, down0, up0;
    var rzr := rzr0;
    var ix := ixrg.0;
    while ix <= ixrg.1
      invariant ixrg.0 <= ix <= ixrg.1 + 1
      invariant Progress(bs, ds, ipfck, bs0, d0, g, xrg, ys, EdgeAdd(e, Slot(g, xrg, ys, |d0|)), ix, 0)
      invariant rzr == TcrossX(g.xpart.b[ix], q0, q1)
      invariant down == (down0 || CutIn(g, ys, ixrg.0, ix, false))
      invariant up == (up0 || CutIn(g, ys, ixrg.0, ix, true))
    {
      var rzl := rzr;
      rzr := TcrossX(g.xpart.GetPart(ix).hi, q0, q1);
      CutInNext(g, ys, ixrg.0, ix);
      bs, ds, ipfck, down, up := EdgeStrip(e, g, q0, q1, ixrg, ix, rzl, rzr, bs, ds, ipfck, down, up, xrg, ys, bs0, d0);
      ix := ix + 1;
    }
  }

  // ---------------------------------------------------------------------
  // Triangles

  /** AddTriangBucket's corners, b12's ends and the third point, in order of x (the corrected order). */
  function TriCorners(sx: SurfX, t: nat): (r: (P3, P3, P3))
    requires sx.Complete() && t < |sx.trX|
    ensures r.0.x <= r.1.x <= r.2.x
    ensures Reordering(r, sx.vdX[sx.edX[sx.trX[t].b12].p0], sx.vdX[sx.edX[sx.trX[t].b12].p1], sx.vdX[sx.ThirdPoint(t)])
  {
    var b12 := sx.edX[sx.trX[t].b12];
    CornerOrder(sx.vdX[b12.p0], sx.vdX[b12.p1], sx.vdX[sx.ThirdPoint(t)])
  }

  /**
    * The height AddTriangBucket gives the triangle's entries in strip ix
    * (lines 276-285): the greater of TcrossY3 at the low and at the high
    * side of the FIRST cell of the strip's run, each the greater over the
    * cross-sections at the strip's two sides, raised to the middle
    * corner's height when the strip holds its x.  Every cell of the strip
    * gets this one height.
    */
  function TriZh(g: Grid, ys: seq<I1>, ix: int, q0: P3, q1: P3, q2: P3): real
    requires g.Valid() && |ys| == |g.yparts| && q0.x <= q1.x <= q2.x
  {
    if 0 <= ix < |ys| && Filled(ClipY(g, ys, ix)) then
      var fpl, fpr := TcrossX3(g.xpart.GetPart(ix).lo, q0, q1, q2), TcrossX3(g.xpart.GetPart(ix).hi, q0, q1, q2);
      var cell := g.yparts[ix].GetPart(Cells(g, ix, ClipY(g, ys, ix).rg).0);
      var zh := Max(Max(TcrossY3(cell.lo, fpl), TcrossY3(cell.lo, fpr)), Max(TcrossY3(cell.hi, fpl), TcrossY3(cell.hi, fpr)));
      if q1.z > zh && g.xpart.GetPart(ix).Contains(q1.x) then q1.z else zh
    else 0.0
  }

  /**
    * A strip's height is at least the middle corner's height when the
    * strip holds that corner, and at least the cross-sections' heights at
    * the first cell's sides.
    */
  lemma TriZhAtLeast(g: Grid, ys: seq<I1>, ix: int, q0: P3, q1: P3, q2: P3)
    requires g.Valid() && |ys| == |g.yparts| && q0.x <= q1.x <= q2.x
    requires 0 <= ix < |ys| && Filled(ClipY(g, ys, ix))
    ensures g.xpart.GetPart(ix).Contains(q1.x) ==> TriZh(g, ys, ix, q0, q1, q2) >= q1.z
    ensures var cell := g.yparts[ix].GetPart(Cells(g, ix, ClipY(g, ys, ix).rg).0);
      forall lx, ly :: (lx == g.xpart.GetPart(ix).lo || lx == g.xpart.GetPart(ix).hi) && (ly == cell.lo || ly == cell.hi) ==>
        TriZh(g, ys, ix, q0, q1, q2) >= TcrossY3(ly, TcrossX3(lx, q0, q1, q2))
  {
  }

  /** The heights TriZh of the first n strips. */
  function TriZhsUpTo(g: Grid, ys: seq<I1>, q0: P3, q1: P3, q2: P3, n: nat): (r: seq<real>)
    requires g.Valid() && |ys| == |g.yparts| && q0.x <= q1.x <= q2.x && n <= |ys|
    ensures |r| == n
  {
    if n == 0 then [] else TriZhsUpTo(g, ys, q0, q1, q2, n - 1) + [TriZh(g, ys, n - 1, q0, q1, q2)]
  }

  /** The height of every strip, TriZh. */
  function TriZhs(g: Grid, ys: seq<I1>, q0: P3, q1: P3, q2: P3): (r: seq<real>)
    requires g.Valid() && |ys| == |g.yparts| && q0.x <= q1.x <= q2.x
    ensures |r| == |ys|
  {
    TriZhsUpTo(g, ys, q0, q1, q2, |ys|)
  }

  lemma {:induction false} TriZhsUpToAt(g: Grid, ys: seq<I1>, q0: P3, q1: P3, q2: P3, n: nat, ix: int)
    requires g.Valid() && |ys| == |g.yparts| && q0.x <= q1.x <= q2.x && 0 <= ix < n <= |ys|
    ensures TriZhsUpTo(g, ys, q0, q1, q2, n)[ix] == TriZh(g, ys, ix, q0, q1, q2)
    decreases n
  {
    if ix < n - 1 {
      TriZhsUpToAt(g, ys, q0, q1, q2, n - 1, ix);
    }
  }

  /** Strip ix of TriZhs is TriZh of that strip. */
  lemma TriZhsAt(g: Grid, ys: seq<I1>, q0: P3, q1: P3, q2: P3, ix: int)
    requires g.Valid() && |ys| == |g.yparts| && q0.x <= q1.x <= q2.x && 0 <= ix < |ys|
    ensures TriZhs(g, ys, q0, q1, q2)[ix] == TriZh(g, ys, ix, q0, q1, q2)
  {
    TriZhsUpToAt(g, ys, q0, q1, q2, |ys|, ix);
  }

  /** A triangle's entry, with the height zhs[i] of its strip i, appended to a bucket. */
  function TriAdd(zhs: seq<real>, t: nat, slot: int): (int, Bucket) -> Bucket {
    (i: int, b: Bucket) => b.(cktriangs := b.cktriangs + [CkTri(if 0 <= i < |zhs| then zhs[i] else 0.0, t, slot)])
  }

  /**
    * The result of AddTriangBucket on grid g from buckets bs0, counters d0
    * and the four flags, as EdgeInserted states it for an edge: the
    * triangle's x-range runs from its first to its last corner, its
    * y-range in each strip is TriYs, and its entries carry TriZh.
    */
  ghost predicate TriInserted(sx: SurfX, t: nat, g: Grid, bs0: seq<seq<Bucket>>, d0: seq<int>, left0: bool, right0: bool, down0: bool, up0: bool,
                              bs: seq<seq<Bucket>>, ds: seq<int>, left: bool, right: bool, down: bool, up: bool)
    requires g.Valid() && Shaped(bs0, g.yparts) && sx.Complete() && t < |sx.trX|
  {
    var (q0, q1, q2) := TriCorners(sx, t);
    var xrg, ys := I1(q0.x, q2.x), TriYs(g, q0, q1, q2);
    && left == (left0 || q0.x < g.gbxrg.lo)
    && right == (right0 || q2.x > g.gbxrg.hi)
    && down == (down0 || OutBelow(g, xrg, ys))
    && up == (up0 || OutAbove(g, xrg, ys))
    && ds == d0 + (if Shared(g, xrg, ys) then [0] else [])
    && bs == AddAt(bs0, g, xrg, ys, TriAdd(TriZhs(g, ys, q0, q1, q2), t, Slot(g, xrg, ys, |d0|)))
  }

  /**
    * AddTriangBucket's corners: the ends of the long edge b12 in x order,
    * then the third point swapped in at whichever end it lies beyond.
    */
  method TriCornersOrdered(sx: SurfX, t: nat) returns (pp0: P3, pp1: P3, pp2: P3)
    requires sx.Complete() && t < |sx.trX|
    ensures (pp0, pp1, pp2) == TriCorners(sx, t)
  {
    var b12 := sx.edX[sx.trX[t].b12];
    var bxinc := sx.vdX[b12.p0].x <= sx.vdX[b12.p1].x;
    pp0 := if bxinc then sx.vdX[b12.p0] else sx.vdX[b12.p1];
    pp2 := if !bxinc then sx.vdX[b12.p0] else sx.vdX[b12.p1];
    pp1 := sx.vdX[sx.ThirdPoint(t)];
    if pp1.x < pp0.x {
      pp0, pp1 := pp1, pp0;
    } else if pp1.x > pp2.x {
      pp2, pp1 := pp1, pp2;
    }
  }

  /** AddTriangBucket on the grid g, the buckets bs0, the counters d0 and the four flags. */
  method TriBucket(sx: SurfX, t: nat, g: Grid, bs0: seq<seq<Bucket>>, d0: seq<int>, left0: bool, right0: bool, down0: bool, up0: bool)
      returns (bs: seq<seq<Bucket>>, ds: seq<int>, left: bool, right: bool, down: bool, up: bool)
    requires g.Valid() && Shaped(bs0, g.yparts) && sx.Complete() && t < |sx.trX|
    ensures Shaped(bs, g.yparts)
    ensures TriInserted(sx, t, g, bs0, d0, left0, right0, down0, up0, bs, ds, left, right, down, up)
  {
    var pp0, pp1, pp2 := TriCornersOrdered(sx, t);
    var xrg := I1(pp0.x, pp2.x);
    ghost var xrg0, ys := xrg, TriYs(g, pp0, pp1, pp2);
    ghost var add := TriAdd(TriZhs(g, ys, pp0, pp1, pp2), t, Slot(g, xrg0, ys, |d0|));
    bs, ds, left, right, down, up := bs0, d0, left0, right0, down0, up0;

    if xrg.lo < g.gbxrg.lo {
      left := true;
      xrg := xrg.(lo := g.gbxrg.lo);
    }
    if xrg.hi > g.gbxrg.hi {
      right := true;
      xrg := xrg.(hi := g.gbxrg.hi);
    }
    assert xrg == ClipX(g, xrg0).rg;
    if xrg.lo > xrg.hi {
      AddAtNone(bs0, g, xrg0, ys, add);
    } else {
      bs, ds, down, up := TriStrips(t, g, pp0, pp1, pp2, xrg, bs0, d0, down0, up0, xrg0, ys);
    }
  }

  /**
    * AddTriangBucket's pass over the strips its clipped x-range reaches,
    * carrying the cross-section and its y-span at the right side of the
    * previous strip into the next.
    */
  method TriStrips(t: nat, g: Grid, q0: P3, q1: P3, q2: P3, xc: I1, bs0: seq<seq<Bucket>>, d0: seq<int>, down0: bool, up0: bool,
                   ghost xrg: I1, ghost ys: seq<I1>)
      returns (bs: seq<seq<Bucket>>, ds: seq<int>, down: bool, up: bool)
    requires g.Valid() && q0.x <= q1.x <= q2.x && xrg == I1(q0.x, q2.x) && ys == TriYs(g, q0, q1, q2) && Shaped(bs0, g.yparts)
    requires Filled(ClipX(g, xrg)) && xc == ClipX(g, xrg).rg
    ensures ds == d0 + (if Shared(g, xrg, ys) then [0] else [])
    ensures bs == AddAt(bs0, g, xrg, ys, TriAdd(TriZhs(g, ys, q0, q1, q2), t, Slot(g, xrg, ys, |d0|)))
    ensures down == (down0 || OutBelow(g, xrg, ys))
    ensures up == (up0 || OutAbove(g, xrg, ys))
  {
    ghost var add := TriAdd(TriZhs(g, ys, q0, q1, q2), t, Slot(g, xrg, ys, |d0|));
    var ixrg := g.xpart.FindPartRG(xc);
    var fpr := TcrossX3(g.xpart.GetPart(ixrg.0).lo, q0, q1, q2);
    var yrgr := SCombine(fpr.0.v, fpr.1.v);
    FillStart(bs0, g, xrg, ys, add);
    StartedBounds(g, xrg, ys, ixrg.0);
    var ipfck;
    bs, ds, ipfck, down, up := TriSweep(t, g, q0, q1, q2, ixrg, fpr, yrgr, bs0, d0, down0, up0, xrg, ys);
    FillEnd(bs0, g, xrg, ys, add, ixrg.1 + 1);
    StartedBounds(g, xrg, ys, ixrg.1 + 1);
  }

  /** TriStrips' loop over the strips ixrg, starting from the cross-section fpr0 at the run's left side. */
  method TriSweep(t: nat, g: Grid, q0: P3, q1: P3, q2: P3, ixrg: (int, int), fpr0: (P2, P2), yrgr0: I1,
                  bs0: seq<seq<Bucket>>, d0: seq<int>, down0: bool, up0: bool, ghost xrg: I1, ghost ys: seq<I1>)
      returns (bs: seq<seq<Bucket>>, ds: seq<int>, ipfck: int, down: bool, up: bool)
    requires g.Valid() && q0.x <= q1.x <= q2.x && ys == TriYs(g, q0, q1, q2) && Shaped(bs0, g.yparts)
    requires Filled(ClipX(g, xrg)) && ixrg == Strips(g, ClipX(g, xrg).rg) && fpr0 == TcrossX3(g.xpart.b[ixrg.0], q0, q1, q2)
    requires yrgr0 == SCombine(fpr0.0.v, fpr0.1.v)
    requires Progress(bs0, d0, -1, bs0, d0, g, xrg, ys, TriAdd(TriZhs(g, ys, q0, q1, q2), t, Slot(g, xrg, ys, |d0|)), ixrg.0, 0)
    ensures Progress(bs, ds, ipfck, bs0, d0, g, xrg, ys, TriAdd(TriZhs(g, ys, q0, q1, q2), t, Slot(g, xrg, ys, |d0|)), ixrg.1 + 1, 0)
    ensures down == (down0 || CutIn(g, ys, ixrg.0, ixrg.1 + 1, false))
    ensures up == (up0 || CutIn(g, ys, ixrg.0, ixrg.1 + 1, true))
  {
    bs, ds, ipfck, down, up := bs0, d0, -1, down0, up0;
    var fpr, yrgr := fpr0, yrgr0;
    var ix := ixrg.0;
    while ix <= ixrg.1
      invariant ixrg.0 <= ix <= ixrg.1 + 1
      invariant Progress(bs, ds, ipfck, bs0, d0, g, xrg, ys, TriAdd(TriZhs(g, ys, q0, q1, q2), t, Slot(g, xrg, ys, |d0|)), ix, 0)
      invariant fpr == TcrossX3(g.xpart.b[ix], q0, q1, q2) && yrgr == SCombine(fpr.0.v, fpr.1.v)
      invariant down == (down0 || CutIn(g, ys, ixrg.0, ix, false))
      invariant up == (up0 || CutIn(g, ys, ixrg.0, ix, true))
    {
      var fpl := fpr;
      fpr := TcrossX3(g.xpart.GetPart(ix).hi, q0, q1, q2);
      var yrgl := yrgr;
      yrgr := SCombine(fpr.0.v, fpr.1.v);
      CutInNext(g, ys, ixrg.0, ix);
      bs, ds, ipfck, down, up := TriStrip(t, g, q0, q1, q2, ixrg, ix, fpl, fpr, yrgl, yrgr, bs, ds, ipfck, down, up, xrg, ys, bs0, d0);
      ix := ix + 1;
    }
  }

  /** The facts TriStrip works from: strip ix of the run ixrg, with the cross-sections at its sides. */
  ghost predicate TriSide(g: Grid, xrg: I1, ys: seq<I1>, bsA: seq<seq<Bucket>>, q0: P3, q1: P3, q2: P3,
                          ixrg: (int, int), ix: int, fpl: (P2, P2), fpr: (P2, P2))
  {
    && g.Valid() && q0.x <= q1.x <= q2.x && ys == TriYs(g, q0, q1, q2) && Shaped(bsA, g.yparts)
    && Filled(ClipX(g, xrg)) && ixrg == Strips(g, ClipX(g, xrg).rg) && ixrg.0 <= ix <= ixrg.1
    && fpl == TcrossX3(g.xpart.b[ix], q0, q1, q2) && fpr == TcrossX3(g.xpart.b[ix + 1], q0, q1, q2)
  }

  /** AddTriangBucket's pass over strip ix: the triangle's y-range there, clipped, and the cells it reaches. */
  method TriStrip(t: nat, g: Grid, q0: P3, q1: P3, q2: P3, ixrg: (int, int), ix: int, fpl: (P2, P2), fpr: (P2, P2), yrgl: I1, yrgr: I1,
                  bs0: seq<seq<Bucket>>, d0: seq<int>, ipfck0: int, down0: bool, up0: bool,
                  ghost xrg: I1, ghost ys: seq<I1>, ghost bsA: seq<seq<Bucket>>, ghost dA: seq<int>)
      returns (bs: seq<seq<Bucket>>, ds: seq<int>, ipfck: int, down: bool, up: bool)
    requires TriSide(g, xrg, ys, bsA, q0, q1, q2, ixrg, ix, fpl, fpr)
    requires yrgl == SCombine(fpl.0.v, fpl.1.v) && yrgr == SCombine(fpr.0.v, fpr.1.v)
    requires Progress(bs0, d0, ipfck0, bsA, dA, g, xrg, ys, TriAdd(TriZhs(g, ys, q0, q1, q2), t, Slot(g, xrg, ys, |dA|)), ix, 0)
    ensures Progress(bs, ds, ipfck, bsA, dA, g, xrg, ys, TriAdd(TriZhs(g, ys, q0, q1, q2), t, Slot(g, xrg, ys, |dA|)), ix + 1, 0)
    ensures down == (down0 || ClipY(g, ys, ix).below)
    ensures up == (up0 || ClipY(g, ys, ix).above)
  {
    ghost var add := TriAdd(TriZhs(g, ys, q0, q1, q2), t, Slot(g, xrg, ys, |dA|));
    bs, ds, ipfck := bs0, d0, ipfck0;
    var yrg;
    yrg, down, up := TriSpan(g, q0, q1, q2, ix, yrgl, yrgr, down0, up0, ys);
    if yrg.lo > yrg.hi {
      ProgressSkip(bs, ds, ipfck, bsA, dA, g, xrg, ys, add, ix);
    } else {
      var iyrg := g.yparts[ix].FindPartRG(yrg);
      ProgressEnter(bs, ds, ipfck, bsA, dA, g, xrg, ys, add, ix, iyrg);
      bs, ds, ipfck := TriCells(t, g, q0, q1, q2, ixrg, ix, iyrg, fpl, fpr, bs, ds, ipfck, xrg, ys, bsA, dA);
      ProgressLeave(bs, ds, ipfck, bsA, dA, g, xrg, ys, add, ix, iyrg);
    }
  }

  /**
    * The triangle's y-range in strip ix, from the spans yrgl and yrgr of
    * the cross-sections at the strip's sides and the middle corner when
    * the strip holds it, clipped to the grid with the flags set.
    */
  method TriSpan(g: Grid, q0: P3, q1: P3, q2: P3, ix: int, yrgl: I1, yrgr: I1, down0: bool, up0: bool, ghost ys: seq<I1>)
      returns (yrg: I1, down: bool, up: bool)
    requires g.Valid() && q0.x <= q1.x <= q2.x && ys == TriYs(g, q0, q1, q2) && 0 <= ix < |ys|
    requires yrgl == SCombine(TcrossX3(g.xpart.b[ix], q0, q1, q2).0.v, TcrossX3(g.xpart.b[ix], q0, q1, q2).1.v)
    requires yrgr == SCombine(TcrossX3(g.xpart.b[ix + 1], q0, q1, q2).0.v, TcrossX3(g.xpart.b[ix + 1], q0, q1, q2).1.v)
    ensures yrg == ClipY(g, ys, ix).rg
    ensures down == (down0 || ClipY(g, ys, ix).below)
    ensures up == (up0 || ClipY(g, ys, ix).above)
  {
    down, up := down0, up0;
    yrg := I1(Min(yrgl.lo, yrgr.lo), Max(yrgl.hi, yrgr.hi));
    if g.xpart.GetPart(ix).Contains(q1.x) {
      yrg := Absorb(yrg, q1.y, false);
    }
    TriYsAt(g, q0, q1, q2, ix);
    assert yrg == ys[ix];
    if yrg.lo < g.gbyrg.lo {
      down := true;
      yrg := yrg.(lo := g.gbyrg.lo);
    }
    if yrg.hi > g.gbyrg.hi {
      up := true;
      yrg := yrg.(hi := g.gbyrg.hi);
    }
  }

  /**
    * One cell of AddTriangBucket's inner loop: after the duplicate check
    * the entry at cell (ix, iy) carries the strip's height and the
    * triangle's slot, and the fill moves on to the next cell.
    */
  lemma TriCellStep(t: nat, g: Grid, q0: P3, q1: P3, q2: P3, ixrg: (int, int), ix: int, iyrg: (int, int), iy: int,
                    bs: seq<seq<Bucket>>, ds: seq<int>, ipfck: int,
                    xrg: I1, ys: seq<I1>, bs0: seq<seq<Bucket>>, d0: seq<int>)
    requires g.Valid() && |ys| == |g.yparts| && Shaped(bs0, g.yparts) && q0.x <= q1.x <= q2.x
    requires Filled(ClipX(g, xrg)) && ixrg == Strips(g, ClipX(g, xrg).rg) && ixrg.0 <= ix <= ixrg.1
    requires Filled(ClipY(g, ys, ix)) && iyrg == Cells(g, ix, ClipY(g, ys, ix).rg) && iyrg.0 <= iy <= iyrg.1
    requires Progress(bs, ds, ipfck, bs0, d0, g, xrg, ys, TriAdd(TriZhs(g, ys, q0, q1, q2), t, Slot(g, xrg, ys, |d0|)), ix, iy)
    ensures 0 <= ix < |bs| && 0 <= iy < |bs[ix]|
    ensures var (ipfck', ds') := if ipfck == -1 && (ixrg.0 != ixrg.1 || iyrg.0 != iyrg.1) then (|ds|, ds + [0]) else (ipfck, ds);
      Progress(Put(bs, ix, iy, bs[ix][iy].(cktriangs := bs[ix][iy].cktriangs + [CkTri(TriZhs(g, ys, q0, q1, q2)[ix], t, ipfck')])), ds', ipfck',
               bs0, d0, g, xrg, ys, TriAdd(TriZhs(g, ys, q0, q1, q2), t, Slot(g, xrg, ys, |d0|)), ix, iy + 1)
  {
    var add := TriAdd(TriZhs(g, ys, q0, q1, q2), t, Slot(g, xrg, ys, |d0|));
    DupCheck(g, xrg, ys, ix, iy);
    FillStep(bs0, g, xrg, ys, add, ix, iy);
  }

  /**
    * AddTriangBucket's pass over the cells iyrg of strip ix.  The height
    * is computed as written: at the sides of the run's first cell in
    * every cell, the inner zhu shadowing the outer one.
    */
  method TriCells(t: nat, g: Grid, q0: P3, q1: P3, q2: P3, ixrg: (int, int), ix: int, iyrg: (int, int), fpl: (P2, P2), fpr: (P2, P2),
                  bs0: seq<seq<Bucket>>, d0: seq<int>, ipfck0: int,
                  ghost xrg: I1, ghost ys: seq<I1>, ghost bsA: seq<seq<Bucket>>, ghost dA: seq<int>)
      returns (bs: seq<seq<Bucket>>, ds: seq<int>, ipfck: int)
    requires TriRun(g, xrg, ys, bsA, q0, q1, q2, ixrg, ix, iyrg, fpl, fpr)
    requires Progress(bs0, d0, ipfck0, bsA, dA, g, xrg, ys, TriAdd(TriZhs(g, ys, q0, q1, q2), t, Slot(g, xrg, ys, |dA|)), ix, iyrg.0)
    ensures Progress(bs, ds, ipfck, bsA, dA, g, xrg, ys, TriAdd(TriZhs(g, ys, q0, q1, q2), t, Slot(g, xrg, ys, |dA|)), ix, iyrg.1 + 1)
  {
    bs, ds, ipfck := bs0, d0, ipfck0;
    var first := g.yparts[ix].GetPart(iyrg.0);
    var zhu := Max(TcrossY3(first.lo, fpl), TcrossY3(first.lo, fpr));
    var iy := iyrg.0;
    while iy <= iyrg.1
      invariant iyrg.0 <= iy <= iyrg.1 + 1
      invariant Progress(bs, ds, ipfck, bsA, dA, g, xrg, ys, TriAdd(TriZhs(g, ys, q0, q1, q2), t, Slot(g, xrg, ys, |dA|)), ix, iy)
    {
      bs, ds, ipfck := TriCell(t, g, q0, q1, q2, ixrg, ix, iyrg, iy, first, zhu, fpl, fpr, bs, ds, ipfck, xrg, ys, bsA, dA);
      iy := iy + 1;
    }
  }

  ghost predicate TriRun(g: Grid, xrg: I1, ys: seq<I1>, bsA: seq<seq<Bucket>>, q0: P3, q1: P3, q2: P3,
                         ixrg: (int, int), ix: int, iyrg: (int, int), fpl: (P2, P2), fpr: (P2, P2))
  {
    && g.Valid() && |ys| == |g.yparts| && Shaped(bsA, g.yparts) && q0.x <= q1.x <= q2.x
    && Filled(ClipX(g, xrg)) && ixrg == Strips(g, ClipX(g, xrg).rg) && ixrg.0 <= ix <= ixrg.1
    && Filled(ClipY(g, ys, ix)) && iyrg == Cells(g, ix, ClipY(g, ys, ix).rg)
    && fpl == TcrossX3(g.xpart.b[ix], q0, q1, q2) && fpr == TcrossX3(g.xpart.b[ix + 1], q0, q1, q2)
  }

  /**
    * TriCells' loop body at cell iy: the height from the first cell's
    * sides (zhu at its low side, computed once before the loop), then the
    * duplicate check and the entry.
    */
  method TriCell(t: nat, g: Grid, q0: P3, q1: P3, q2: P3, ixrg: (int, int), ix: int, iyrg: (int, int), iy: int,
                 first: I1, zhu: real, fpl: (P2, P2), fpr: (P2, P2),
                 bs0: seq<seq<Bucket>>, d0: seq<int>, ipfck0: int,
                 ghost xrg: I1, ghost ys: seq<I1>, ghost bsA: seq<seq<Bucket>>, ghost dA: seq<int>)
      returns (bs: seq<seq<Bucket>>, ds: seq<int>, ipfck: int)
    requires TriRun(g, xrg, ys, bsA, q0, q1, q2, ixrg, ix, iyrg, fpl, fpr) && iyrg.0 <= iy <= iyrg.1
    requires first == g.yparts[ix].GetPart(iyrg.0) && zhu == Max(TcrossY3(first.lo, fpl), TcrossY3(first.lo, fpr))
    requires Progress(bs0, d0, ipfck0, bsA, dA, g, xrg, ys, TriAdd(TriZhs(g, ys, q0, q1, q2), t, Slot(g, xrg, ys, |dA|)), ix, iy)
    ensures Progress(bs, ds, ipfck, bsA, dA, g, xrg, ys, TriAdd(TriZhs(g, ys, q0, q1, q2), t, Slot(g, xrg, ys, |dA|)), ix, iy + 1)
  {
    bs, ds, ipfck := bs0, d0, ipfck0;
    var zhd := zhu;
    var zhu' := Max(TcrossY3(first.hi, fpl), TcrossY3(first.hi, fpr));
    var zh := Max(zhd, zhu');
    if q1.z > zh && g.xpart.GetPart(ix).Contains(q1.x) {
      zh := q1.z;
    }
    assert zh == TriZh(g, ys, ix, q0, q1, q2);
    TriZhsAt(g, ys, q0, q1, q2, ix);
    TriCellStep(t, g, q0, q1, q2, ixrg, ix, iyrg, iy, bs, ds, ipfck, xrg, ys, bsA, dA);
    if ipfck == -1 {
      if ixrg.0 != ixrg.1 || iyrg.0 != iyrg.1 {
        ipfck := |ds|;
        ds := ds + [0];
      }
    }
    var b := bs[ix][iy];
    bs := Put(bs, ix, iy, b.(cktriangs := b.cktriangs + [CkTri(zh, t, ipfck)]));
  }
}
