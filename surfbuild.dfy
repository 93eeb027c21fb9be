// SurfXBuilder: collects a triangle soup, then builds the linked SurfX from
// it: unique sorted vertices, oriented triangles, half-edges sorted and fused
// into edges with a triangle on each side, and back-links from triangles to
// their edges.  Pointers into the final arrays are indices.

module SurfBuild {
  import opened Geom
  import opened Sorting
  import opened Surfaces

  /** p3X_order: the strict lexicographic order on (x, y, z). */
  predicate Less(a: P3, b: P3) {
    a.x < b.x || (a.x == b.x && (a.y < b.y || (a.y == b.y && a.z < b.z)))
  }

  /** p3X_order is a strict total order. */
  lemma LessOrder(a: P3, b: P3, c: P3)
    ensures !Less(a, a)
    ensures Less(a, b) && Less(b, c) ==> Less(a, c)
    ensures a != b ==> Less(a, b) || Less(b, a)
  {
  }

  /** Strictly increasing in p3X_order, so no two entries are equal. */
  predicate Increasing(v: seq<P3>) {
    forall j :: 0 < j < |v| ==> Less(v[j - 1], v[j])
  }

  /** In an increasing array the order of the indices is the order of the points. */
  lemma {:induction false} IncreasingOrder(v: seq<P3>, i: nat, j: nat)
    requires Increasing(v) && i < |v| && j < |v|
    ensures i < j <==> Less(v[i], v[j])
    ensures i == j <==> v[i] == v[j]
    decreases if i < j then j - i else i - j
  {
    if i + 1 < j {
      IncreasingOrder(v, i, j - 1);
      LessOrder(v[i], v[j - 1], v[j]);
    } else if j + 1 < i {
      IncreasingOrder(v, j, i - 1);
      LessOrder(v[j], v[i - 1], v[i]);
    }
    LessOrder(v[i], v[j], v[i]);
    LessOrder(v[j], v[i], v[j]);
  }

  /** Every corner of the soup with its position in it, as Build takes their addresses. */
  function Tagged(lvd: seq<P3>): (r: seq<(P3, nat)>)
    ensures |r| == |lvd| && forall k :: 0 <= k < |lvd| ==> r[k] == (lvd[k], k)
  {
    seq(|lvd|, k requires 0 <= k < |lvd| => (lvd[k], k))
  }

  /** The non-strict order std::sort derives from p3X_order on tagged corners. */
  predicate CornerLe(a: (P3, nat), b: (P3, nat)) {
    !Less(b.0, a.0)
  }

  lemma CornerLeTotal()
    ensures TotalPreorder(CornerLe)
  {
    forall a: (P3, nat), b: (P3, nat), c: (P3, nat) | CornerLe(a, b) && CornerLe(b, c)
      ensures CornerLe(a, c)
    {
      LessOrder(c.0, b.0, a.0);
      LessOrder(a.0, c.0, a.0);
      LessOrder(c.0, a.0, b.0);
      LessOrder(b.0, a.0, c.0);
    }
    forall a: (P3, nat), b: (P3, nat)
      ensures CornerLe(a, b) || CornerLe(b, a)
    {
      LessOrder(a.0, b.0, a.0);
    }
  }

  /** The corner at position k of the soup is somewhere in the sorted array. */
  ghost predicate Placed(p3X: seq<(P3, nat)>, k: nat) {
    exists j :: 0 <= j < |p3X| && p3X[j].1 == k
  }

  /**
    * The corners sorted by p3X_order: every one of them once, each with its
    * own position, and in order.
    */
  lemma SortedCorners(lvd: seq<P3>)
    ensures var p3X := SortBy(Tagged(lvd), CornerLe);
      && |p3X| == |lvd|
      && (forall j :: 0 < j < |p3X| ==> !Less(p3X[j].0, p3X[j - 1].0))
      && (forall j :: 0 <= j < |p3X| ==> p3X[j].1 < |lvd| && p3X[j].0 == lvd[p3X[j].1])
      && (forall k :: 0 <= k < |lvd| ==> Placed(p3X, k))
  {
    var t := Tagged(lvd);
    var p3X := SortBy(t, CornerLe);
    CornerLeTotal();
    SortByCorrect(t, CornerLe);
    forall j | 0 < j < |p3X|
      ensures !Less(p3X[j].0, p3X[j - 1].0)
    {
      assert CornerLe(p3X[j - 1], p3X[j]);
    }
    forall j | 0 <= j < |p3X|
      ensures p3X[j].1 < |lvd| && p3X[j].0 == lvd[p3X[j].1]
    {
      assert p3X[j] in multiset(t);
      var k :| 0 <= k < |t| && t[k] == p3X[j];
    }
    forall k | 0 <= k < |lvd|
      ensures Placed(p3X, k)
    {
      assert t[k] in multiset(p3X);
      var j :| 0 <= j < |p3X| && p3X[j] == t[k];
    }
  }

  /**
    * The first loop of Build: the sorted corners with repeats removed make
    * the vertex array, and ltd maps each corner's position to its vertex.
    */
  method Dedup(lvd: seq<P3>, p3X: seq<(P3, nat)>) returns (vdX: seq<P3>, ltd: seq<nat>)
    requires forall j :: 0 < j < |p3X| ==> !Less(p3X[j].0, p3X[j - 1].0)
    requires forall j :: 0 <= j < |p3X| ==> p3X[j].1 < |lvd| && p3X[j].0 == lvd[p3X[j].1]
    requires forall k :: 0 <= k < |lvd| ==> Placed(p3X, k)
    ensures Increasing(vdX)
    ensures |ltd| == |lvd|
    ensures forall k :: 0 <= k < |lvd| ==> ltd[k] < |vdX| && vdX[ltd[k]] == lvd[k]
    ensures forall v :: v in vdX ==> v in lvd
  {
    vdX := [];
    ltd := seq(|lvd|, _ => 0);
    ghost var filled: set<nat> := {};
    var i := 0;
    while i < |p3X|
      invariant 0 <= i <= |p3X| && |ltd| == |lvd|
      invariant Increasing(vdX)
      invariant i == 0 <==> vdX == []
      invariant i > 0 ==> vdX[|vdX| - 1] == p3X[i - 1].0
      invariant forall v :: v in vdX ==> v in lvd
      invariant forall k :: k in filled ==> k < |lvd| && ltd[k] < |vdX| && vdX[ltd[k]] == lvd[k]
      invariant forall j :: 0 <= j < i ==> p3X[j].1 in filled
    {
      var pi := p3X[i];
      if vdX == [] || vdX[|vdX| - 1] != pi.0 {
        if vdX != [] {
          LessOrder(vdX[|vdX| - 1], pi.0, vdX[|vdX| - 1]);
        }
        vdX := vdX + [pi.0];
      }
      ltd := ltd[pi.1 := |vdX| - 1];
      filled := filled + {pi.1};
      i := i + 1;
    }
    forall k | 0 <= k < |lvd|
      ensures ltd[k] < |vdX| && vdX[ltd[k]] == lvd[k]
    {
      assert Placed(p3X, k);
      var j :| 0 <= j < |p3X| && p3X[j].1 == k;
      assert p3X[j].1 in filled;
    }
  }

  /** triangXr: a triangle's corners as vertex indices, in the order the builder settles on. */
  datatype TriangXr = TriangXr(a: nat, b1: nat, b2: nat)

  /** The z component of the cross product u x v. */
  function CrossZ(u: P3, v: P3): real { u.x * v.y - u.y * v.x }

  function Sub(p: P3, q: P3): P3 { P3(p.x - q.x, p.y - q.y, p.z - q.z) }

  /** The corners a, b1, b2 are p0, p1, p2 in some order. */
  predicate Rearranged(r: TriangXr, p0: nat, p1: nat, p2: nat) {
    || (r.a, r.b1, r.b2) == (p0, p1, p2) || (r.a, r.b1, r.b2) == (p0, p2, p1)
    || (r.a, r.b1, r.b2) == (p1, p0, p2) || (r.a, r.b1, r.b2) == (p1, p2, p0)
    || (r.a, r.b1, r.b2) == (p2, p0, p1) || (r.a, r.b1, r.b2) == (p2, p1, p0)
  }

  /** Rearranged keeps every corner as often as it occurs. */
  lemma RearrangedCorners(r: TriangXr, p0: nat, p1: nat, p2: nat)
    requires Rearranged(r, p0, p1, p2)
    ensures multiset{r.a, r.b1, r.b2} == multiset{p0, p1, p2}
  {
  }

  /** Exchanging the two vectors negates the z component of their cross product. */
  lemma CrossZSwap(u: P3, v: P3)
    ensures CrossZ(v, u) == -CrossZ(u, v)
  {
  }

  /**
    * The end of triangXr(p0, p1, p2): b1 and b2 exchange when the z
    * component of the negated normal b1-a x b2-a would be negative.
    */
  function Orient(vdX: seq<P3>, a: nat, b1: nat, b2: nat): (r: TriangXr)
    requires a < |vdX| && b1 < |vdX| && b2 < |vdX|
    ensures r.a == a && ((r.b1, r.b2) == (b1, b2) || (r.b1, r.b2) == (b2, b1))
    ensures -CrossZ(Sub(vdX[r.b1], vdX[r.a]), Sub(vdX[r.b2], vdX[r.a])) >= 0.0
  {
    var v1, v2 := Sub(vdX[b1], vdX[a]), Sub(vdX[b2], vdX[a]);
    if -CrossZ(v1, v2) < 0.0 then
      CrossZSwap(v1, v2);
      TriangXr(a, b2, b1)
    else TriangXr(a, b1, b2)
  }

  /**
    * triangXr(p0, p1, p2): orders the corners with two swaps, the second of
    * which exchanges a and b2, then orients the triangle.  The normal
    * itself is not kept.
    */
  function MakeTriangXr(vdX: seq<P3>, p0: nat, p1: nat, p2: nat): (r: TriangXr)
    requires p0 < |vdX| && p1 < |vdX| && p2 < |vdX|
    ensures Rearranged(r, p0, p1, p2)
    ensures -CrossZ(Sub(vdX[r.b1], vdX[r.a]), Sub(vdX[r.b2], vdX[r.a])) >= 0.0
  {
    var (a, b1) := if !Less(vdX[p0], vdX[p1]) then (p1, p0) else (p0, p1);
    var (a, b2) := if !Less(vdX[b1], vdX[p2]) then (p2, a) else (a, p2);
    Orient(vdX, a, b1, b2)
  }

  /** Three corners on the x axis, at x = 1, 3 and 2. */
  const Sample := [P3(1.0, 0.0, 0.0), P3(3.0, 0.0, 0.0), P3(2.0, 0.0, 0.0)]

  /** The sample triangle is flat in the x-y plane, so orienting it exchanges nothing. */
  lemma SampleOrient()
    ensures Orient(Sample, 2, 1, 0) == TriangXr(2, 1, 0)
  {
    var v1, v2 := Sub(Sample[1], Sample[2]), Sub(Sample[0], Sample[2]);
    assert v1 == P3(1.0, 0.0, 0.0) && v2 == P3(-1.0, 0.0, 0.0);
    assert CrossZ(v1, v2) == 0.0;
  }

  /**
    * The second swap exchanges a and b2 rather than b1 and b2, so the first
    * corner need not be the least: corners at x = 1, 3, 2 put the one at 2
    * first, ahead of the one at 1.
    */
  lemma TriangXrFirstNotLeast()
    ensures MakeTriangXr(Sample, 0, 1, 2).a == 2
    ensures Less(Sample[MakeTriangXr(Sample, 0, 1, 2).b2], Sample[2])
  {
    assert Less(Sample[0], Sample[1]) && !Less(Sample[1], Sample[2]);
    SampleOrient();
  }

  /** edgeXr: a half-edge from p0 to p1 with its triangle on the right (itR) or the left (itL). */
  datatype EdgeXr = EdgeXr(p0: nat, p1: nat, itR: int, itL: int)

  /**
    * edgeXr(lp0, lp1, it): the half-edge stored from its smaller end, with
    * the triangle on the right when it runs forwards and on the left when
    * it runs backwards.
    */
  function MakeEdgeXr(vdX: seq<P3>, lp0: nat, lp1: nat, it: nat): (r: EdgeXr)
    requires lp0 < |vdX| && lp1 < |vdX|
    ensures (r.itR == it && r.itL == -1) || (r.itR == -1 && r.itL == it)
    ensures (r.p0, r.p1) == (if r.itR == it then (lp0, lp1) else (lp1, lp0))
    ensures !Less(vdX[r.p1], vdX[r.p0])
  {
    if Less(vdX[lp0], vdX[lp1]) then EdgeXr(lp0, lp1, it, -1)
    else
      LessOrder(vdX[lp0], vdX[lp1], vdX[lp0]);
      EdgeXr(lp1, lp0, -1, it)
  }

  /** In an increasing vertex array a half-edge's first end has the smaller index. */
  lemma EdgeXrIndexOrder(vdX: seq<P3>, lp0: nat, lp1: nat, it: nat)
    requires Increasing(vdX) && lp0 < |vdX| && lp1 < |vdX|
    ensures MakeEdgeXr(vdX, lp0, lp1, it).p0 <= MakeEdgeXr(vdX, lp0, lp1, it).p1
    ensures lp0 != lp1 ==> MakeEdgeXr(vdX, lp0, lp1, it).p0 < MakeEdgeXr(vdX, lp0, lp1, it).p1
  {
    var r := MakeEdgeXr(vdX, lp0, lp1, it);
    IncreasingOrder(vdX, r.p0, r.p1);
    LessOrder(vdX[r.p0], vdX[r.p1], vdX[r.p0]);
  }

  /** The three half-edges of triangle t: a to b1, b1 to b2 and b2 to a. */
  function TriangleHalves(vdX: seq<P3>, c: TriangXr, t: nat): (r: seq<EdgeXr>)
    requires c.a < |vdX| && c.b1 < |vdX| && c.b2 < |vdX|
    ensures |r| == 3
  {
    [MakeEdgeXr(vdX, c.a, c.b1, t), MakeEdgeXr(vdX, c.b1, c.b2, t), MakeEdgeXr(vdX, c.b2, c.a, t)]
  }

  /** Every corner of every triangle is a vertex. */
  predicate CornersIn(vdX: seq<P3>, ttx: seq<TriangXr>) {
    forall t :: 0 <= t < |ttx| ==> ttx[t].a < |vdX| && ttx[t].b1 < |vdX| && ttx[t].b2 < |vdX|
  }

  /** The half-edges of the triangles, three per triangle in triangle order. */
  function Halves(vdX: seq<P3>, ttx: seq<TriangXr>): (r: seq<EdgeXr>)
    requires CornersIn(vdX, ttx)
    ensures |r| == 3 * |ttx|
  {
    if ttx == [] then []
    else Halves(vdX, ttx[..|ttx| - 1]) + TriangleHalves(vdX, ttx[|ttx| - 1], |ttx| - 1)
  }

  /** Half-edge k belongs to triangle k / 3, with exactly one side set, and runs between two of its corners. */
  lemma {:induction false} HalvesAt(vdX: seq<P3>, ttx: seq<TriangXr>, k: nat)
    requires CornersIn(vdX, ttx) && k < 3 * |ttx|
    ensures Halves(vdX, ttx)[k] == TriangleHalves(vdX, ttx[k / 3], k / 3)[k % 3]
  {
    var n := |ttx| - 1;
    if k < 3 * n {
      assert CornersIn(vdX, ttx[..n]);
      HalvesAt(vdX, ttx[..n], k);
      assert ttx[..n][k / 3] == ttx[k / 3];
    }
  }

  /**
    * The second loop of Build: every triangle's three half-edges, pushed in
    * triangle order.
    */
  method MakeHalves(vdX: seq<P3>, ttx: seq<TriangXr>) returns (edXr: seq<EdgeXr>)
    requires CornersIn(vdX, ttx)
    ensures edXr == Halves(vdX, ttx)
  {
    edXr := [];
    var i := 0;
    while i < |ttx|
      invariant 0 <= i <= |ttx|
      invariant CornersIn(vdX, ttx[..i]) && edXr == Halves(vdX, ttx[..i])
    {
      var tri := ttx[i];
      edXr := edXr + [MakeEdgeXr(vdX, tri.a, tri.b1, i), MakeEdgeXr(vdX, tri.b1, tri.b2, i), MakeEdgeXr(vdX, tri.b2, tri.a, i)];
      assert ttx[..i + 1][..i] == ttx[..i];
      i := i + 1;
    }
    assert ttx[..i] == ttx;
  }

  /** edgeXr_order: by first end, then second end, then right-hand triangle. */
  predicate EdgeLess(a: EdgeXr, b: EdgeXr) {
    a.p0 < b.p0 || (a.p0 == b.p0 && (a.p1 < b.p1 || (a.p1 == b.p1 && a.itR < b.itR)))
  }

  /** The non-strict order std::sort derives from edgeXr_order. */
  predicate EdgeLe(a: EdgeXr, b: EdgeXr) {
    !EdgeLess(b, a)
  }

  lemma EdgeLeTotal()
    ensures TotalPreorder(EdgeLe)
  {
  }

  /** The triangle a half-edge belongs to. */
  function Tri(e: EdgeXr): int {
    if e.itR != -1 then e.itR else e.itL
  }

  /** Exactly one side of the half-edge holds a triangle. */
  predicate OneSided(e: EdgeXr) {
    (e.itR >= 0 && e.itL == -1) || (e.itR == -1 && e.itL >= 0)
  }

  /**
    * The edges the sorted half-edges from position i make: two adjacent
    * half-edges with the same ends and opposite sides fuse into one edge
    * with a triangle on each side; any other half-edge makes an edge of its
    * own.
    */
  function FuseFrom(h: seq<EdgeXr>, i: nat): seq<EdgeX>
    requires i <= |h|
    decreases |h| - i
  {
    if i == |h| then []
    else if i + 1 < |h| && h[i].p0 == h[i + 1].p0 && h[i].p1 == h[i + 1].p1 && ((h[i].itL == -1) != (h[i + 1].itL == -1)) then
      var e := if h[i].itL == -1 then EdgeX(h[i].p0, h[i].p1, h[i].itR, h[i + 1].itL)
               else EdgeX(h[i].p0, h[i].p1, h[i + 1].itR, h[i].itL);
      [e] + FuseFrom(h, i + 2)
    else
      [EdgeX(h[i].p0, h[i].p1, h[i].itR, h[i].itL)] + FuseFrom(h, i + 1)
  }

  /** The sides of an edge, each as the one-sided half-edge it came from. */
  function Sides(e: EdgeX): multiset<EdgeXr> {
    (if e.tpR != -1 then multiset{EdgeXr(e.p0, e.p1, e.tpR, -1)} else multiset{})
    + (if e.tpL != -1 then multiset{EdgeXr(e.p0, e.p1, -1, e.tpL)} else multiset{})
  }

  /** The sides of every edge. */
  function EdgeSides(es: seq<EdgeX>): multiset<EdgeXr> {
    if es == [] then multiset{} else Sides(es[0]) + EdgeSides(es[1..])
  }

  /** The sides of the first edge and of the rest. */
  lemma EdgeSidesCons(e: EdgeX, rest: seq<EdgeX>)
    ensures EdgeSides([e] + rest) == Sides(e) + EdgeSides(rest)
  {
    assert ([e] + rest)[1..] == rest;
  }

  /** Fusing loses no half-edge and makes none up: every half-edge is one side of exactly one edge. */
  lemma {:induction false} FuseKeepsSides(h: seq<EdgeXr>, i: nat)
    requires i <= |h| && forall k :: 0 <= k < |h| ==> OneSided(h[k])
    ensures EdgeSides(FuseFrom(h, i)) == multiset(h[i..])
    decreases |h| - i
  {
    if i < |h| {
      MultisetCons(h, i);
      assert OneSided(h[i]);
      if i + 1 < |h| && h[i].p0 == h[i + 1].p0 && h[i].p1 == h[i + 1].p1 && ((h[i].itL == -1) != (h[i + 1].itL == -1)) {
        MultisetCons(h, i + 1);
        assert OneSided(h[i + 1]);
        var e := if h[i].itL == -1 then EdgeX(h[i].p0, h[i].p1, h[i].itR, h[i + 1].itL)
                 else EdgeX(h[i].p0, h[i].p1, h[i + 1].itR, h[i].itL);
        assert Sides(e) == multiset{h[i], h[i + 1]};
        FuseKeepsSides(h, i + 2);
        EdgeSidesCons(e, FuseFrom(h, i + 2));
      } else {
        var e := EdgeX(h[i].p0, h[i].p1, h[i].itR, h[i].itL);
        assert Sides(e) == multiset{h[i]};
        FuseKeepsSides(h, i + 1);
        EdgeSidesCons(e, FuseFrom(h, i + 1));
      }
    }
  }

  lemma MultisetCons<T>(h: seq<T>, i: nat)
    requires i < |h|
    ensures multiset(h[i..]) == multiset{h[i]} + multiset(h[i + 1..])
  {
    assert h[i..] == [h[i]] + h[i + 1..];
  }

  /** A half-edge between two of nv vertices, of one of nt triangles, with one side set. */
  predicate HalfIn(e: EdgeXr, nv: nat, nt: nat) {
    e.p0 < nv && e.p1 < nv && OneSided(e) && e.itR < nt && e.itL < nt
  }

  /** An edge between two of nv vertices with one or two of nt triangles beside it. */
  predicate EdgeIn(e: EdgeX, nv: nat, nt: nat) {
    e.p0 < nv && e.p1 < nv && -1 <= e.tpR < nt && -1 <= e.tpL < nt && (e.tpR != -1 || e.tpL != -1)
  }

  /** Every fused edge joins vertices and has a triangle on at least one side; a fused pair has both. */
  lemma {:induction false} FuseInRange(h: seq<EdgeXr>, i: nat, nv: nat, nt: nat)
    requires i <= |h| && forall k :: 0 <= k < |h| ==> HalfIn(h[k], nv, nt)
    ensures forall k :: 0 <= k < |FuseFrom(h, i)| ==> EdgeIn(FuseFrom(h, i)[k], nv, nt)
    decreases |h| - i
  {
    if i < |h| {
      if i + 1 < |h| && h[i].p0 == h[i + 1].p0 && h[i].p1 == h[i + 1].p1 && ((h[i].itL == -1) != (h[i + 1].itL == -1)) {
        FuseInRange(h, i + 2, nv, nt);
      } else {
        FuseInRange(h, i + 1, nv, nt);
      }
    }
  }

  /** The third loop of Build: the edges, fused from the sorted half-edges. */
  method FuseEdges(h: seq<EdgeXr>) returns (edX: seq<EdgeX>)
    ensures edX == FuseFrom(h, 0)
  {
    edX := [];
    var i := 0;
    while i < |h|
      invariant 0 <= i <= |h|
      invariant edX + FuseFrom(h, i) == FuseFrom(h, 0)
      decreases |h| - i
    {
      if i + 1 < |h| && h[i].p0 == h[i + 1].p0 && h[i].p1 == h[i + 1].p1 && ((h[i].itL == -1) != (h[i + 1].itL == -1)) {
        if h[i].itL == -1 {
          edX := edX + [EdgeX(h[i].p0, h[i].p1, h[i].itR, h[i + 1].itL)];
        } else {
          edX := edX + [EdgeX(h[i].p0, h[i].p1, h[i + 1].itR, h[i].itL)];
        }
        i := i + 2;
      } else {
        edX := edX + [EdgeX(h[i].p0, h[i].p1, if h[i].itR != -1 then h[i].itR else -1, if h[i].itL != -1 then h[i].itL else -1)];
        i := i + 1;
      }
    }
  }

  /** Slot m of a triangle, in the order of TriangleHalves: 0 is ab1, 1 is b12, 2 is ab2. */
  function Slot(tr: TriangX, m: nat): int {
    if m == 0 then tr.ab1 else if m == 1 then tr.b12 else tr.ab2
  }

  /** The edge joins the two corners of slot m. */
  predicate JoinsSlot(edge: EdgeX, c: TriangXr, m: nat) {
    if m == 0 then Joins(edge, c.a, c.b1) else if m == 1 then Joins(edge, c.b1, c.b2) else Joins(edge, c.a, c.b2)
  }

  /**
    * What SetEdge asserts: the edge joins two corners of the triangle, and
    * the first slot, in the order ab1, ab2, b12, whose corners it joins is
    * still empty.
    */
  predicate CanSet(tr: TriangX, edge: EdgeX, c: TriangXr) {
    if Joins(edge, c.a, c.b1) then tr.ab1 == -1
    else if Joins(edge, c.a, c.b2) then tr.ab2 == -1
    else Joins(edge, c.b1, c.b2) && tr.b12 == -1
  }

  /**
    * SetEdge: puts edge e into the first slot, in the order ab1, ab2, b12,
    * whose two corners it joins.  Exactly one slot changes, from empty to e.
    */
  function SetEdge(tr: TriangX, e: nat, edge: EdgeX, c: TriangXr): (r: TriangX)
    requires CanSet(tr, edge, c)
    ensures forall m :: 0 <= m < 3 ==>
              Slot(r, m) == Slot(tr, m) || (Slot(tr, m) == -1 && Slot(r, m) == e && JoinsSlot(edge, c, m))
    ensures exists m :: 0 <= m < 3 && Slot(tr, m) == -1 && Slot(r, m) == e
    ensures forall m, n :: 0 <= m < n < 3 ==> Slot(r, m) == Slot(tr, m) || Slot(r, n) == Slot(tr, n)
    ensures Joins(edge, c.a, c.b1) ==> r.ab1 == e
    ensures !Joins(edge, c.a, c.b1) && Joins(edge, c.a, c.b2) ==> r.ab2 == e
  {
    if Joins(edge, c.a, c.b1) then
      assert Slot(tr, 0) == -1 && Slot(tr.(ab1 := e), 0) == e;
      tr.(ab1 := e)
    else if Joins(edge, c.a, c.b2) then
      assert Slot(tr, 2) == -1 && Slot(tr.(ab2 := e), 2) == e;
      tr.(ab2 := e)
    else
      assert Slot(tr, 1) == -1 && Slot(tr.(b12 := e), 1) == e;
      tr.(b12 := e)
  }

  /**
    * A slot holding s is empty, or holds one of the first n edges, which
    * joins the slot's corners u and v and has triangle t on one side.
    */
  predicate SlotSound(edX: seq<EdgeX>, s: int, u: nat, v: nat, t: nat, n: nat) {
    s == -1 || (0 <= s < n && s < |edX| && Joins(edX[s], u, v) && (edX[s].tpR == t || edX[s].tpL == t))
  }

  /** Every slot of triangle t, with corners c, is sound. */
  predicate SlotsSound(edX: seq<EdgeX>, c: TriangXr, tr: TriangX, t: nat, n: nat) {
    && SlotSound(edX, tr.ab1, c.a, c.b1, t, n)
    && SlotSound(edX, tr.ab2, c.a, c.b2, t, n)
    && SlotSound(edX, tr.b12, c.b1, c.b2, t, n)
  }

  /** The corners are three different vertices. */
  predicate Proper(c: TriangXr) {
    c.a != c.b1 && c.a != c.b2 && c.b1 != c.b2
  }

  /** Every triangle has three different corners. */
  predicate AllProper(ttx: seq<TriangXr>) {
    forall t :: 0 <= t < |ttx| ==> Proper(ttx[t])
  }

  /**
    * Exactly the slots whose half-edge is among the linked sides done are
    * filled; h lists the half-edges, slot k % 3 of triangle k / 3 at k.
    */
  ghost predicate FilledAsLinked(h: seq<EdgeXr>, trX: seq<TriangX>, done: multiset<EdgeXr>) {
    |h| == 3 * |trX| && forall k :: 0 <= k < |h| ==> (Slot(trX[k / 3], k % 3) != -1 <==> h[k] in done)
  }

  /** The half-edge of slot m belongs to triangle t and runs between the slot's corners. */
  lemma HalfOfSlot(vdX: seq<P3>, c: TriangXr, t: nat, m: nat, edge: EdgeX)
    requires c.a < |vdX| && c.b1 < |vdX| && c.b2 < |vdX| && m < 3
    requires TriangleHalves(vdX, c, t)[m].p0 == edge.p0 && TriangleHalves(vdX, c, t)[m].p1 == edge.p1
    ensures JoinsSlot(edge, c, m)
  {
  }

  /** The half-edge of slot m of triangle t belongs to t. */
  lemma HalfTri(vdX: seq<P3>, c: TriangXr, t: nat, m: nat)
    requires c.a < |vdX| && c.b1 < |vdX| && c.b2 < |vdX| && m < 3
    ensures Tri(TriangleHalves(vdX, c, t)[m]) == t
  {
  }

  /** In a triangle with three different corners the three half-edges differ in their ends. */
  lemma HalvesApart(vdX: seq<P3>, c: TriangXr, t: nat, m: nat, n: nat)
    requires c.a < |vdX| && c.b1 < |vdX| && c.b2 < |vdX| && Proper(c) && m < 3 && n < 3
    requires TriangleHalves(vdX, c, t)[m] == TriangleHalves(vdX, c, t)[n]
    ensures m == n
  {
  }

  /** With three different corners an edge joins the corners of one slot at most. */
  lemma JoinsOneSlot(edge: EdgeX, c: TriangXr, m: nat, n: nat)
    requires Proper(c) && m < 3 && n < 3 && JoinsSlot(edge, c, m) && JoinsSlot(edge, c, n)
    ensures m == n
  {
  }

  /** An element at exactly one index of a sequence occurs once in its multiset. */
  lemma OnlyOnce<T>(s: seq<T>, k: nat)
    requires k < |s| && forall j :: 0 <= j < |s| && s[j] == s[k] ==> j == k
    ensures multiset(s)[s[k]] == 1
  {
    assert s == s[..k] + [s[k]] + s[k + 1..];
    assert s[k] !in s[..k] by {
      forall j | 0 <= j < k ensures s[..k][j] != s[k] { assert s[..k][j] == s[j]; }
    }
    assert s[k] !in s[k + 1..] by {
      forall j | k < j < |s| ensures s[j] != s[k] { }
    }
  }

  /** When every triangle has three different corners, no half-edge appears at two places. */
  lemma HalvesUnique(vdX: seq<P3>, ttx: seq<TriangXr>, k: nat)
    requires CornersIn(vdX, ttx) && AllProper(ttx) && k < 3 * |ttx|
    ensures forall j :: 0 <= j < |Halves(vdX, ttx)| && Halves(vdX, ttx)[j] == Halves(vdX, ttx)[k] ==> j == k
  {
    var h := Halves(vdX, ttx);
    HalvesAt(vdX, ttx, k);
    HalfTri(vdX, ttx[k / 3], k / 3, k % 3);
    forall j | 0 <= j < |h| && h[j] == h[k]
      ensures j == k
    {
      HalvesAt(vdX, ttx, j);
      HalfTri(vdX, ttx[j / 3], j / 3, j % 3);
      HalvesApart(vdX, ttx[k / 3], k / 3, k % 3, j % 3);
    }
  }

  /** A side of an edge runs between the edge's ends and belongs to the triangle on that side. */
  lemma SideOf(e: EdgeX, x: EdgeXr)
    requires x in Sides(e)
    ensures x.p0 == e.p0 && x.p1 == e.p1 && (e.tpR == Tri(x) || e.tpL == Tri(x))
  {
  }

  /** What occurs once in the whole occurs nowhere else in it. */
  lemma NotDone(done: multiset<EdgeXr>, x: EdgeXr, more: multiset<EdgeXr>, all: multiset<EdgeXr>)
    requires done + multiset{x} + more == all && all[x] == 1
    ensures x !in done
  {
    assert all[x] == done[x] + 1 + more[x];
  }

  /**
    * Side x of edge i, not yet among the sides done, is the half-edge at
    * one index k only: slot k % 3 of triangle k / 3, the one slot whose
    * corners the edge joins.
    */
  lemma LinkSlot(vdX: seq<P3>, ttx: seq<TriangXr>, edX: seq<EdgeX>,
                 done: multiset<EdgeXr>, more: multiset<EdgeXr>, i: nat, x: EdgeXr) returns (k: nat)
    requires CornersIn(vdX, ttx) && AllProper(ttx)
    requires EdgeSides(edX) == multiset(Halves(vdX, ttx))
    requires i < |edX| && x in Sides(edX[i])
    requires done + multiset{x} + more == EdgeSides(edX)
    ensures k < |Halves(vdX, ttx)| && Halves(vdX, ttx)[k] == x && Tri(x) == k / 3
    ensures forall j :: 0 <= j < |Halves(vdX, ttx)| && Halves(vdX, ttx)[j] == x ==> j == k
    ensures x !in done
    ensures edX[i].tpR == k / 3 || edX[i].tpL == k / 3
    ensures forall n :: 0 <= n < 3 ==> (JoinsSlot(edX[i], ttx[k / 3], n) <==> n == k % 3)
  {
    var edge := edX[i];
    var h := Halves(vdX, ttx);
    SideOf(edge, x);
    assert x in multiset(h) by {
      assert x in done + multiset{x} + more;
    }
    k :| 0 <= k < |h| && h[k] == x;
    HalvesAt(vdX, ttx, k);
    var t, m := k / 3, k % 3;
    HalfTri(vdX, ttx[t], t, m);
    HalfOfSlot(vdX, ttx[t], t, m, edge);
    HalvesUnique(vdX, ttx, k);
    OnlyOnce(h, k);
    NotDone(done, x, more, multiset(h));
    forall n | 0 <= n < 3 && JoinsSlot(edge, ttx[t], n)
      ensures n == m
    {
      JoinsOneSlot(edge, ttx[t], m, n);
    }
  }

  /** Filling slot k % 3 of triangle k / 3, whose half-edge is x and no other, adds x to the sides done. */
  lemma LinkFill(h: seq<EdgeXr>, trX: seq<TriangX>, done: multiset<EdgeXr>, x: EdgeXr, k: nat, r: TriangX)
    requires FilledAsLinked(h, trX, done) && k < |h| && h[k] == x
    requires forall j :: 0 <= j < |h| && h[j] == x ==> j == k
    requires Slot(r, k % 3) != -1 && forall n :: 0 <= n < 3 && n != k % 3 ==> Slot(r, n) == Slot(trX[k / 3], n)
    ensures FilledAsLinked(h, trX[k / 3 := r], done + multiset{x})
  {
    forall j | 0 <= j < |h|
      ensures Slot(trX[k / 3 := r][j / 3], j % 3) != -1 <==> h[j] in done + multiset{x}
    {
      if j != k {
        assert h[j] != x;
      }
    }
  }

  /**
    * Linking side x of edge i into its triangle: the slot it belongs to is
    * still empty (so SetEdge's assertions hold), and afterwards exactly the
    * slots of the sides done with x are filled, all of them soundly.
    */
  lemma LinkStep(vdX: seq<P3>, ttx: seq<TriangXr>, edX: seq<EdgeX>, trX: seq<TriangX>,
                 done: multiset<EdgeXr>, more: multiset<EdgeXr>, i: nat, x: EdgeXr)
    requires CornersIn(vdX, ttx) && AllProper(ttx) && |trX| == |ttx|
    requires EdgeSides(edX) == multiset(Halves(vdX, ttx))
    requires i < |edX| && x in Sides(edX[i])
    requires done + multiset{x} + more == EdgeSides(edX)
    requires FilledAsLinked(Halves(vdX, ttx), trX, done)
    requires forall u :: 0 <= u < |trX| ==> SlotsSound(edX, ttx[u], trX[u], u, i + 1)
    ensures 0 <= Tri(x) < |ttx| && CanSet(trX[Tri(x)], edX[i], ttx[Tri(x)])
    ensures var trX' := trX[Tri(x) := SetEdge(trX[Tri(x)], i, edX[i], ttx[Tri(x)])];
      && FilledAsLinked(Halves(vdX, ttx), trX', done + multiset{x})
      && forall u :: 0 <= u < |trX'| ==> SlotsSound(edX, ttx[u], trX'[u], u, i + 1)
  {
    var k := LinkSlot(vdX, ttx, edX, done, more, i, x);
    var h := Halves(vdX, ttx);
    var edge, t, m := edX[i], k / 3, k % 3;
    var c := ttx[t];
    assert Slot(trX[t], m) == -1 by {
      assert Slot(trX[k / 3], k % 3) != -1 <==> h[k] in done;
    }
    SetSlot(trX[t], i, edge, c, m);
    var r := SetEdge(trX[t], i, edge, c);
    LinkFill(h, trX, done, x, k, r);
    SoundSlot(edX, c, trX[t], r, t, i, m);
    var trX' := trX[t := r];
    forall u | 0 <= u < |trX'|
      ensures SlotsSound(edX, ttx[u], trX'[u], u, i + 1)
    {
      if u != t {
        assert trX'[u] == trX[u];
      }
    }
  }

  /** SetEdge on an edge that joins the corners of slot m only, with slot m empty, fills slot m alone. */
  lemma SetSlot(tr: TriangX, e: nat, edge: EdgeX, c: TriangXr, m: nat)
    requires m < 3 && Slot(tr, m) == -1
    requires forall n :: 0 <= n < 3 ==> (JoinsSlot(edge, c, n) <==> n == m)
    ensures CanSet(tr, edge, c)
    ensures Slot(SetEdge(tr, e, edge, c), m) == e
    ensures forall n :: 0 <= n < 3 && n != m ==> Slot(SetEdge(tr, e, edge, c), n) == Slot(tr, n)
  {
    assert JoinsSlot(edge, c, 0) <==> m == 0;
    assert JoinsSlot(edge, c, 1) <==> m == 1;
    assert JoinsSlot(edge, c, 2) <==> m == 2;
    var r := SetEdge(tr, e, edge, c);
    if m == 0 {
      assert r == tr.(ab1 := e);
    } else if m == 1 {
      assert r == tr.(b12 := e);
    } else {
      assert r == tr.(ab2 := e);
    }
  }

  /** Putting edge i, beside triangle t, into slot m of t, whose corners it joins, keeps t's slots sound. */
  lemma SoundSlot(edX: seq<EdgeX>, c: TriangXr, tr: TriangX, r: TriangX, t: nat, i: nat, m: nat)
    requires SlotsSound(edX, c, tr, t, i + 1) && i < |edX| && m < 3
    requires JoinsSlot(edX[i], c, m) && (edX[i].tpR == t || edX[i].tpL == t)
    requires Slot(r, m) == i && forall n :: 0 <= n < 3 && n != m ==> Slot(r, n) == Slot(tr, n)
    ensures SlotsSound(edX, c, r, t, i + 1)
  {
    assert Slot(r, 0) == r.ab1 && Slot(r, 1) == r.b12 && Slot(r, 2) == r.ab2;
    assert Slot(tr, 0) == tr.ab1 && Slot(tr, 1) == tr.b12 && Slot(tr, 2) == tr.ab2;
  }

  /**
    * The last loop of Build: every edge puts itself into a slot of the
    * triangle on its left, then of the triangle on its right.  When the
    * edges' sides are the triangles' half-edges and every triangle has
    * three different corners, every slot ends up filled, once.
    */
  method LinkBack(edX: seq<EdgeX>, ttx: seq<TriangXr>, trX0: seq<TriangX>, ghost vdX: seq<P3>) returns (trX: seq<TriangX>)
    requires |trX0| == |ttx| && forall t :: 0 <= t < |trX0| ==> trX0[t] == Unlinked
    requires CornersIn(vdX, ttx) && AllProper(ttx)
    requires EdgeSides(edX) == multiset(Halves(vdX, ttx))
    ensures |trX| == |ttx|
    ensures forall t :: 0 <= t < |trX| ==> SlotsSound(edX, ttx[t], trX[t], t, |edX|)
    ensures forall t :: 0 <= t < |trX| ==> trX[t].ab1 != -1 && trX[t].ab2 != -1 && trX[t].b12 != -1
  {
    trX := trX0;
    ghost var h := Halves(vdX, ttx);
    ghost var done: multiset<EdgeXr> := multiset{};
    var i := 0;
    while i < |edX|
      invariant 0 <= i <= |edX| && |trX| == |ttx|
      invariant forall t :: 0 <= t < |trX| ==> SlotsSound(edX, ttx[t], trX[t], t, i)
      invariant done + EdgeSides(edX[i..]) == EdgeSides(edX)
      invariant FilledAsLinked(h, trX, done)
    {
      trX, done := LinkEdge(edX, ttx, trX, i, vdX, done);
      i := i + 1;
    }
    assert edX[i..] == [];
    AllFilled(h, trX, done);
  }

  /** The left side of an edge, if it has one. */
  function LeftSide(e: EdgeX): multiset<EdgeXr> {
    if e.tpL != -1 then multiset{EdgeXr(e.p0, e.p1, -1, e.tpL)} else multiset{}
  }

  /** The right side of an edge, if it has one. */
  function RightSide(e: EdgeX): multiset<EdgeXr> {
    if e.tpR != -1 then multiset{EdgeXr(e.p0, e.p1, e.tpR, -1)} else multiset{}
  }

  /** One round of LinkBack's loop: edge i into the triangle on its left, then into the one on its right. */
  method LinkEdge(edX: seq<EdgeX>, ttx: seq<TriangXr>, trX: seq<TriangX>, i: nat, ghost vdX: seq<P3>,
                  ghost done: multiset<EdgeXr>) returns (trX': seq<TriangX>, ghost done': multiset<EdgeXr>)
    requires CornersIn(vdX, ttx) && AllProper(ttx) && |trX| == |ttx|
    requires EdgeSides(edX) == multiset(Halves(vdX, ttx))
    requires i < |edX| && done + EdgeSides(edX[i..]) == EdgeSides(edX)
    requires FilledAsLinked(Halves(vdX, ttx), trX, done)
    requires forall t :: 0 <= t < |trX| ==> SlotsSound(edX, ttx[t], trX[t], t, i)
    ensures |trX'| == |ttx| && done' + EdgeSides(edX[i + 1..]) == EdgeSides(edX)
    ensures FilledAsLinked(Halves(vdX, ttx), trX', done')
    ensures forall t :: 0 <= t < |trX'| ==> SlotsSound(edX, ttx[t], trX'[t], t, i + 1)
  {
    var edge := edX[i];
    SoundWiden(edX, ttx, trX, i);
    EdgeSidesAt(edX, i);
    ghost var rest := EdgeSides(edX[i + 1..]);
    Regroup(done, LeftSide(edge), RightSide(edge), rest, EdgeSides(edX));
    trX', done' := LinkSide(edX, ttx, trX, i, vdX, done, RightSide(edge) + rest, true);
    trX', done' := LinkSide(edX, ttx, trX', i, vdX, done', rest, false);
  }

  /** The sides of the edges from i on: those of edge i, then those of the rest. */
  lemma EdgeSidesAt(edX: seq<EdgeX>, i: nat)
    requires i < |edX|
    ensures EdgeSides(edX[i..]) == RightSide(edX[i]) + LeftSide(edX[i]) + EdgeSides(edX[i + 1..])
  {
    EdgeSidesCons(edX[i], edX[i + 1..]);
    assert edX[i..] == [edX[i]] + edX[i + 1..];
  }

  /** The sides of an edge, split into the left and the right one, in the order LinkBack takes them. */
  lemma Regroup(done: multiset<EdgeXr>, l: multiset<EdgeXr>, r: multiset<EdgeXr>, rest: multiset<EdgeXr>, all: multiset<EdgeXr>)
    requires done + (r + l + rest) == all
    ensures done + l + (r + rest) == all
    ensures done + l + r + rest == all
  {
  }

  /** Edge i into the triangle on its left (or right), if there is one there. */
  method LinkSide(edX: seq<EdgeX>, ttx: seq<TriangXr>, trX: seq<TriangX>, i: nat, ghost vdX: seq<P3>,
                  ghost done: multiset<EdgeXr>, ghost more: multiset<EdgeXr>, left: bool)
    returns (trX': seq<TriangX>, ghost done': multiset<EdgeXr>)
    requires CornersIn(vdX, ttx) && AllProper(ttx) && |trX| == |ttx|
    requires EdgeSides(edX) == multiset(Halves(vdX, ttx))
    requires i < |edX| && done + (if left then LeftSide(edX[i]) else RightSide(edX[i])) + more == EdgeSides(edX)
    requires FilledAsLinked(Halves(vdX, ttx), trX, done)
    requires forall t :: 0 <= t < |trX| ==> SlotsSound(edX, ttx[t], trX[t], t, i + 1)
    ensures |trX'| == |ttx| && done' == done + (if left then LeftSide(edX[i]) else RightSide(edX[i]))
    ensures FilledAsLinked(Halves(vdX, ttx), trX', done')
    ensures forall t :: 0 <= t < |trX'| ==> SlotsSound(edX, ttx[t], trX'[t], t, i + 1)
  {
    var edge := edX[i];
    var t := if left then edge.tpL else edge.tpR;
    ghost var side := if left then LeftSide(edge) else RightSide(edge);
    trX', done' := trX, done;
    if t != -1 {
      ghost var x := if left then EdgeXr(edge.p0, edge.p1, -1, t) else EdgeXr(edge.p0, edge.p1, t, -1);
      assert x in Sides(edge) && side == multiset{x};
      LinkStep(vdX, ttx, edX, trX, done, more, i, x);
      trX' := trX[t := SetEdge(trX[t], i, edge, ttx[t])];
      done' := done + multiset{x};
    } else {
      assert side == multiset{};
    }
  }

  /** Once every half-edge is done, every slot is filled. */
  lemma AllFilled(h: seq<EdgeXr>, trX: seq<TriangX>, done: multiset<EdgeXr>)
    requires FilledAsLinked(h, trX, done) && done == multiset(h)
    ensures forall t :: 0 <= t < |trX| ==> trX[t].ab1 != -1 && trX[t].ab2 != -1 && trX[t].b12 != -1
  {
    forall t | 0 <= t < |trX|
      ensures trX[t].ab1 != -1 && trX[t].ab2 != -1 && trX[t].b12 != -1
    {
      forall m | 0 <= m < 3
        ensures Slot(trX[t], m) != -1
      {
        var k := 3 * t + m;
        assert k / 3 == t && k % 3 == m;
        assert h[k] in multiset(h);
      }
      assert Slot(trX[t], 0) != -1 && Slot(trX[t], 1) != -1 && Slot(trX[t], 2) != -1;
    }
  }

  /** Slots sound over the first i edges are sound over the first i + 1. */
  lemma SoundWiden(edX: seq<EdgeX>, ttx: seq<TriangXr>, trX: seq<TriangX>, i: nat)
    requires |trX| == |ttx| && forall t :: 0 <= t < |trX| ==> SlotsSound(edX, ttx[t], trX[t], t, i)
    ensures forall t :: 0 <= t < |trX| ==> SlotsSound(edX, ttx[t], trX[t], t, i + 1)
  {
  }

  /** The oriented triangles, from the vertices of every third corner. */
  function TriangsOf(vdX: seq<P3>, ltd: seq<nat>, nt: nat): (r: seq<TriangXr>)
    requires 3 * nt <= |ltd| && forall k :: 0 <= k < |ltd| ==> ltd[k] < |vdX|
    ensures |r| == nt && CornersIn(vdX, r)
    ensures forall t :: 0 <= t < nt ==>
              Rearranged(r[t], ltd[3 * t], ltd[3 * t + 1], ltd[3 * t + 2])
  {
    seq(nt, t requires 0 <= t < nt => MakeTriangXr(vdX, ltd[3 * t], ltd[3 * t + 1], ltd[3 * t + 2]))
  }

  /** The loop of Build that makes the oriented triangles. */
  method MakeTriangles(vdX: seq<P3>, ltd: seq<nat>, nt: nat) returns (ttx: seq<TriangXr>)
    requires 3 * nt <= |ltd| && forall k :: 0 <= k < |ltd| ==> ltd[k] < |vdX|
    ensures ttx == TriangsOf(vdX, ltd, nt)
  {
    ttx := [];
    var i := 0;
    while i < nt
      invariant 0 <= i <= nt && |ttx| == i
      invariant forall t :: 0 <= t < i ==> ttx[t] == MakeTriangXr(vdX, ltd[3 * t], ltd[3 * t + 1], ltd[3 * t + 2])
    {
      ttx := ttx + [MakeTriangXr(vdX, ltd[i * 3], ltd[i * 3 + 1], ltd[i * 3 + 2])];
      i := i + 1;
    }
  }

  /** Every half-edge of the triangles joins two vertices and belongs to exactly one triangle. */
  lemma HalvesIn(vdX: seq<P3>, ttx: seq<TriangXr>)
    requires CornersIn(vdX, ttx)
    ensures forall k :: 0 <= k < |Halves(vdX, ttx)| ==> HalfIn(Halves(vdX, ttx)[k], |vdX|, |ttx|)
  {
    forall k | 0 <= k < |Halves(vdX, ttx)|
      ensures HalfIn(Halves(vdX, ttx)[k], |vdX|, |ttx|)
    {
      HalvesAt(vdX, ttx, k);
    }
  }

  /** Sorting keeps every half-edge and adds none. */
  lemma SortedHalvesIn(h: seq<EdgeXr>, nv: nat, nt: nat)
    requires forall k :: 0 <= k < |h| ==> HalfIn(h[k], nv, nt)
    ensures multiset(SortBy(h, EdgeLe)) == multiset(h)
    ensures SortedBy(SortBy(h, EdgeLe), EdgeLe)
    ensures forall j :: 0 <= j < |SortBy(h, EdgeLe)| ==> HalfIn(SortBy(h, EdgeLe)[j], nv, nt)
  {
    EdgeLeTotal();
    SortByCorrect(h, EdgeLe);
    var g := SortBy(h, EdgeLe);
    forall j | 0 <= j < |g|
      ensures HalfIn(g[j], nv, nt)
    {
      assert g[j] in multiset(h);
    }
  }

  /** The first block of Build: the unique vertices in p3X_order, and each corner's vertex. */
  method BuildVertices(lvd: seq<P3>) returns (vdX: seq<P3>, ltd: seq<nat>)
    ensures Increasing(vdX) && forall p :: p in vdX <==> p in lvd
    ensures |ltd| == |lvd| && forall k :: 0 <= k < |lvd| ==> ltd[k] < |vdX| && vdX[ltd[k]] == lvd[k]
  {
    // the corners sorted by increasing x, then y, then z
    var p3X := SortBy(Tagged(lvd), CornerLe);
    SortedCorners(lvd);
    vdX, ltd := Dedup(lvd, p3X);
    forall p | p in lvd
      ensures p in vdX
    {
      var k :| 0 <= k < |lvd| && lvd[k] == p;
      assert vdX[ltd[k]] == p;
    }
  }

  /** The middle of Build: the half-edges, sorted by edgeXr_order and fused into edges. */
  method BuildEdges(vdX: seq<P3>, ttx: seq<TriangXr>) returns (edX: seq<EdgeX>)
    requires CornersIn(vdX, ttx)
    ensures EdgeSides(edX) == multiset(Halves(vdX, ttx))
    ensures forall s :: 0 <= s < |edX| ==> EdgeIn(edX[s], |vdX|, |ttx|)
  {
    var edXr := MakeHalves(vdX, ttx);
    HalvesIn(vdX, ttx);
    var pedXr := SortBy(edXr, EdgeLe);
    SortedHalvesIn(edXr, |vdX|, |ttx|);
    edX := FuseEdges(pedXr);
    FuseKeepsSides(pedXr, 0);
    FuseInRange(pedXr, 0, |vdX|, |ttx|);
    assert pedXr[0..] == pedXr;
  }

  /** Triangle t of the corner list has three different corners. */
  predicate Distinct3(lvd: seq<P3>, t: nat) {
    3 * t + 2 < |lvd| && lvd[3 * t] != lvd[3 * t + 1] && lvd[3 * t] != lvd[3 * t + 2] && lvd[3 * t + 1] != lvd[3 * t + 2]
  }

  /**
    * Every triangle taken has three different corners.  A triangle with
    * two equal corners makes an edge with the triangle on both sides, and
    * SetEdge's assertion that the slot is empty fails on its second side.
    */
  predicate NonDegenerate(lvd: seq<P3>) {
    forall t :: 0 <= t < |lvd| / 3 ==> Distinct3(lvd, t)
  }

  /** Different corners map to different vertices, so the oriented triangles have three different corners. */
  lemma ProperTriangles(vdX: seq<P3>, lvd: seq<P3>, ltd: seq<nat>)
    requires NonDegenerate(lvd)
    requires |ltd| == |lvd| && forall k :: 0 <= k < |lvd| ==> ltd[k] < |vdX| && vdX[ltd[k]] == lvd[k]
    ensures AllProper(TriangsOf(vdX, ltd, |lvd| / 3))
  {
    var ttx := TriangsOf(vdX, ltd, |lvd| / 3);
    forall t | 0 <= t < |ttx|
      ensures Proper(ttx[t])
    {
      assert Distinct3(lvd, t);
      assert vdX[ltd[3 * t]] == lvd[3 * t] && vdX[ltd[3 * t + 1]] == lvd[3 * t + 1] && vdX[ltd[3 * t + 2]] == lvd[3 * t + 2];
      RearrangedCorners(ttx[t], ltd[3 * t], ltd[3 * t + 1], ltd[3 * t + 2]);
    }
  }

  /**
    * SurfXBuilder::Build: the surface made from the corners in lvd, three
    * to a triangle.  ltd maps each corner to its vertex.
    */
  method BuildSurface(lvd: seq<P3>, gxrg: I1, gyrg: I1, gzrg: I1) returns (sx: SurfX, ghost ltd: seq<nat>)
    requires NonDegenerate(lvd)
    ensures sx.gxrg == gxrg && sx.gyrg == gyrg && sx.gzrg == gzrg
    ensures Increasing(sx.vdX) && forall p :: p in sx.vdX <==> p in lvd
    ensures |ltd| == |lvd| && forall k :: 0 <= k < |lvd| ==> ltd[k] < |sx.vdX| && sx.vdX[ltd[k]] == lvd[k]
    ensures |sx.trX| == |lvd| / 3
    ensures sx.Complete()
    ensures EdgeSides(sx.edX) == multiset(Halves(sx.vdX, TriangsOf(sx.vdX, ltd, |lvd| / 3)))
    ensures forall t :: 0 <= t < |sx.trX| ==>
              var c := TriangsOf(sx.vdX, ltd, |lvd| / 3)[t];
              sx.HasCorners(t, c.a, c.b1, c.b2) && SlotsSound(sx.edX, c, sx.trX[t], t, |sx.edX|)
  {
    var vdX, ltd' := BuildVertices(lvd);
    ltd := ltd';
    // build up oriented triangles
    var nt := |lvd| / 3;
    var ttx := MakeTriangles(vdX, ltd', nt);
    // now make the array of linked edges
    var edX := BuildEdges(vdX, ttx);
    // the triangles, with the back-links to their edges
    ProperTriangles(vdX, lvd, ltd');
    var trX := LinkBack(edX, ttx, seq(nt, _ => Unlinked), vdX);
    sx := SurfX(vdX, edX, trX, gxrg, gyrg, gzrg);
    BuiltLinked(sx, ttx);
  }

  /** Edges in range and sound slots make a linked surface. */
  lemma BuiltLinked(sx: SurfX, ttx: seq<TriangXr>)
    requires |sx.trX| == |ttx|
    requires forall s :: 0 <= s < |sx.edX| ==> EdgeIn(sx.edX[s], |sx.vdX|, |ttx|)
    requires forall t :: 0 <= t < |sx.trX| ==> SlotsSound(sx.edX, ttx[t], sx.trX[t], t, |sx.edX|)
    ensures sx.Linked()
    ensures (forall t :: 0 <= t < |sx.trX| ==> sx.trX[t].ab1 != -1 && sx.trX[t].ab2 != -1 && sx.trX[t].b12 != -1) ==>
      sx.Complete() && forall t :: 0 <= t < |sx.trX| ==> sx.HasCorners(t, ttx[t].a, ttx[t].b1, ttx[t].b2)
  {
  }

  /** How the builder's ranges are set: not yet, grown from the triangles, or fixed at construction. */
  datatype RangeState = NoRange | Adsorbing | Hardset

  /** All three values lie strictly below lo, or all three strictly above hi. */
  predicate AllBeyond(a: real, b: real, c: real, rg: I1) {
    (a < rg.lo && b < rg.lo && c < rg.lo) || (a > rg.hi && b > rg.hi && c > rg.hi)
  }

  /** The hardset test for dropping a triangle: beyond one bound of x, y or z with all three corners. */
  predicate Misses(p0: P3, p1: P3, p2: P3, gxrg: I1, gyrg: I1, gzrg: I1) {
    || AllBeyond(p0.x, p1.x, p2.x, gxrg)
    || AllBeyond(p0.y, p1.y, p2.y, gyrg)
    || AllBeyond(p0.z, p1.z, p2.z, gzrg)
  }

  /** The span of three values reaches the range: its greatest is at least lo and its least at most hi. */
  predicate SpanTouches(a: real, b: real, c: real, rg: I1) {
    Max(Max(a, b), c) >= rg.lo && Min(Min(a, b), c) <= rg.hi
  }

  /**
    * A triangle is dropped exactly when its bounding box misses the box
    * of the ranges along some axis.
    */
  lemma MissesBox(p0: P3, p1: P3, p2: P3, gxrg: I1, gyrg: I1, gzrg: I1)
    ensures !Misses(p0, p1, p2, gxrg, gyrg, gzrg) <==>
      && SpanTouches(p0.x, p1.x, p2.x, gxrg)
      && SpanTouches(p0.y, p1.y, p2.y, gyrg)
      && SpanTouches(p0.z, p1.z, p2.z, gzrg)
  {
  }

  /** Three Absorbs of one coordinate, in corner order, all with the same bFirst. */
  function Absorb3(rg: I1, a: real, b: real, c: real, bFirst: bool): (r: I1)
    requires bFirst || rg.lo <= rg.hi
    ensures r.lo <= r.hi && r.Contains(c)
    ensures !bFirst ==> r.Contains(a) && r.Contains(b) && forall y :: rg.Contains(y) ==> r.Contains(y)
    ensures bFirst ==> r == I1(c, c)
  {
    Absorb(Absorb(Absorb(rg, a, bFirst), b, bFirst), c, bFirst)
  }

  /** The point lies in the three ranges. */
  predicate InRanges(p: P3, gxrg: I1, gyrg: I1, gzrg: I1) {
    gxrg.Contains(p.x) && gyrg.Contains(p.y) && gzrg.Contains(p.z)
  }

  /** Triangle t of the corner list was kept by the hardset test. */
  predicate Kept(lvd: seq<P3>, t: nat, gxrg: I1, gyrg: I1, gzrg: I1)
    requires 3 * t + 2 < |lvd|
  {
    !Misses(lvd[3 * t], lvd[3 * t + 1], lvd[3 * t + 2], gxrg, gyrg, gzrg)
  }

  /** Appending a triangle that the fixed ranges keep keeps every triangle kept. */
  lemma KeptAppend(lvd: seq<P3>, p0: P3, p1: P3, p2: P3, gxrg: I1, gyrg: I1, gzrg: I1)
    requires |lvd| % 3 == 0
    requires forall t :: 0 <= t < |lvd| / 3 ==> Kept(lvd, t, gxrg, gyrg, gzrg)
    requires !Misses(p0, p1, p2, gxrg, gyrg, gzrg)
    ensures forall t :: 0 <= t < |lvd + [p0, p1, p2]| / 3 ==> Kept(lvd + [p0, p1, p2], t, gxrg, gyrg, gzrg)
  {
    var w := lvd + [p0, p1, p2];
    assert |w| / 3 == |lvd| / 3 + 1;
    forall t | 0 <= t < |w| / 3
      ensures Kept(w, t, gxrg, gyrg, gzrg)
    {
      if t < |lvd| / 3 {
        assert Kept(lvd, t, gxrg, gyrg, gzrg);
        assert w[3 * t] == lvd[3 * t] && w[3 * t + 1] == lvd[3 * t + 1] && w[3 * t + 2] == lvd[3 * t + 2];
      } else {
        assert 3 * t == |lvd|;
        assert w[3 * t] == p0 && w[3 * t + 1] == p1 && w[3 * t + 2] == p2;
      }
    }
  }

  /** After absorbing a triangle, the grown ranges hold every corner from the third on. */
  lemma AbsorbAppend(lvd: seq<P3>, p0: P3, p1: P3, p2: P3, gxrg: I1, gyrg: I1, gzrg: I1, bFirst: bool)
    requires bFirst ==> lvd == []
    requires !bFirst ==> gxrg.lo <= gxrg.hi && gyrg.lo <= gyrg.hi && gzrg.lo <= gzrg.hi
    requires !bFirst ==> forall k :: 2 <= k < |lvd| ==> InRanges(lvd[k], gxrg, gyrg, gzrg)
    ensures var w := lvd + [p0, p1, p2];
      var nx := Absorb3(gxrg, p0.x, p1.x, p2.x, bFirst);
      var ny := Absorb3(gyrg, p0.y, p1.y, p2.y, bFirst);
      var nz := Absorb3(gzrg, p0.z, p1.z, p2.z, bFirst);
      forall k :: 2 <= k < |w| ==> InRanges(w[k], nx, ny, nz)
  {
    var w := lvd + [p0, p1, p2];
    var nx := Absorb3(gxrg, p0.x, p1.x, p2.x, bFirst);
    var ny := Absorb3(gyrg, p0.y, p1.y, p2.y, bFirst);
    var nz := Absorb3(gzrg, p0.z, p1.z, p2.z, bFirst);
    forall k | 2 <= k < |w|
      ensures InRanges(w[k], nx, ny, nz)
    {
      if k < |lvd| {
        assert InRanges(lvd[k], gxrg, gyrg, gzrg);
      }
    }
  }

  /**
    * SurfXBuilder: takes triangles as triples of points, keeping those that
    * touch fixed ranges or growing the ranges to take in every triangle,
    * then builds the SurfX.
    */
  class SurfXBuilder {
    var gxrg: I1
    var gyrg: I1
    var gzrg: I1
    var rangestate: RangeState
    /** The corners of the triangles taken so far, three to a triangle. */
    var lvd: seq<P3>

    /**
      * Whole triangles; no corners before any range is grown; grown ranges
      * in order, holding every corner from the third on; fixed ranges
      * touched by every triangle kept.
      */
    ghost predicate Valid()
      reads this`gxrg, this`gyrg, this`gzrg, this`rangestate, this`lvd
    {
      && |lvd| % 3 == 0
      && (rangestate == NoRange ==> lvd == [])
      && (rangestate == Adsorbing ==>
            && gxrg.lo <= gxrg.hi && gyrg.lo <= gyrg.hi && gzrg.lo <= gzrg.hi
            && forall k :: 2 <= k < |lvd| ==> InRanges(lvd[k], gxrg, gyrg, gzrg))
      && (rangestate == Hardset ==>
            forall t :: 0 <= t < |lvd| / 3 ==> Kept(lvd, t, gxrg, gyrg, gzrg))
    }

    /** SurfXBuilder(lgxrg, lgyrg, lgzrg): fixed ranges. */
    constructor Fixed(lgxrg: I1, lgyrg: I1, lgzrg: I1)
      ensures Valid()
      ensures gxrg == lgxrg && gyrg == lgyrg && gzrg == lgzrg && rangestate == RangeState.Hardset && lvd == []
    {
      gxrg, gyrg, gzrg := lgxrg, lgyrg, lgzrg;
      rangestate := RangeState.Hardset;
      lvd := [];
    }

    /** SurfXBuilder(): ranges grown from the triangles; until the first one they are not set. */
    constructor ()
      ensures Valid()
      ensures rangestate == NoRange && lvd == []
    {
      gxrg, gyrg, gzrg := I1(0.0, 0.0), I1(0.0, 0.0), I1(0.0, 0.0);
      rangestate := NoRange;
      lvd := [];
    }

    /**
      * PushTriangle: with fixed ranges a triangle that misses them is
      * dropped; otherwise the ranges grow to take in its corners (each
      * Absorb restarting them while the first triangle is taken) and the
      * corners are appended.
      */
    method PushTriangle(p0: P3, p1: P3, p2: P3)
      requires Valid()
      modifies this`gxrg, this`gyrg, this`gzrg, this`rangestate, this`lvd
      ensures Valid()
      ensures old(rangestate) == RangeState.Hardset ==>
        && rangestate == RangeState.Hardset
        && gxrg == old(gxrg) && gyrg == old(gyrg) && gzrg == old(gzrg)
        && lvd == old(lvd) + (if Misses(p0, p1, p2, gxrg, gyrg, gzrg) then [] else [p0, p1, p2])
      ensures old(rangestate) != RangeState.Hardset ==>
        && rangestate == Adsorbing
        && lvd == old(lvd) + [p0, p1, p2]
        && gxrg == Absorb3(old(gxrg), p0.x, p1.x, p2.x, old(rangestate) == NoRange)
        && gyrg == Absorb3(old(gyrg), p0.y, p1.y, p2.y, old(rangestate) == NoRange)
        && gzrg == Absorb3(old(gzrg), p0.z, p1.z, p2.z, old(rangestate) == NoRange)
    {
      if rangestate == RangeState.Hardset {
        if !Misses(p0, p1, p2, gxrg, gyrg, gzrg) {
          KeptAppend(lvd, p0, p1, p2, gxrg, gyrg, gzrg);
          lvd := lvd + [p0, p1, p2];
        }
      } else {
        // The source absorbs x, y and z of each corner in turn; the axes
        // are independent, so each axis sees its three values in corner order.
        var bFirst := rangestate == NoRange;
        AbsorbAppend(lvd, p0, p1, p2, gxrg, gyrg, gzrg, bFirst);
        rangestate := Adsorbing;
        gxrg := Absorb3(gxrg, p0.x, p1.x, p2.x, bFirst);
        gyrg := Absorb3(gyrg, p0.y, p1.y, p2.y, bFirst);
        gzrg := Absorb3(gzrg, p0.z, p1.z, p2.z, bFirst);
        lvd := lvd + [p0, p1, p2];
      }
    }

    /** SurfXBuilder::Build: the linked surface of the triangles taken, within the ranges. */
    method Build() returns (sx: SurfX)
      requires NonDegenerate(lvd)
      ensures sx.gxrg == gxrg && sx.gyrg == gyrg && sx.gzrg == gzrg
      ensures Increasing(sx.vdX) && forall p :: p in sx.vdX <==> p in lvd
      ensures |sx.trX| == |lvd| / 3
      ensures sx.Complete()
    {
      ghost var ltd;
      sx, ltd := BuildSurface(lvd, gxrg, gyrg, gzrg);
    }

    /** SurfXBuilder::Reset: drops the triangles taken; the ranges stay. */
    method Reset()
      requires Valid()
      modifies this`lvd
      ensures Valid() && lvd == []
    {
      lvd := [];
    }
  }
}
