// The crossings the spatial index uses to bound an edge or a triangle
// within one strip of the grid: where the primitive meets a line x = lx,
// seen in the (z, y) plane, and the z height of a cross-section at a
// given y.  Coordinates are exact reals.

module Crossings {
  import opened Geom
  import opened Partitions

  /** A point seen in the (z, y) plane, as the crossings return it. */
  function Flat(p: P3): P2 { P2(p.z, p.y) }

  /** InvAlong undone: the fraction times the length is the offset. */
  lemma InvAlongScale(x: real, a: real, b: real)
    requires a != b
    ensures InvAlong(x, a, b) * (b - a) == x - a
    ensures x == b ==> InvAlong(x, a, b) == 1.0
  {
    var t := InvAlong(x, a, b);
    assert t * (b - a) == x - a;
    if x == b {
      var d := b - a;
      assert t == d / d;
      assert d / d == 1.0;
    }
  }

  /** A fraction whose multiple of m > 0 lies strictly between 0 and m lies strictly between 0 and 1. */
  lemma Between(t: real, p: real, m: real)
    requires m > 0.0 && t * m == p && 0.0 < p < m
    ensures 0.0 < t < 1.0
  {
    assert m * t == p;
    Scale(m, t, 0.0);
    Scale(m, 1.0, t);
  }

  /** The fraction of the way from x0 to x1 at which lx lies, clamped to [0, 1]. */
  function Frac(lx: real, x0: real, x1: real): (t: real)
    requires x0 < x1
    ensures 0.0 <= t <= 1.0
  {
    if lx <= x0 then 0.0
    else if lx >= x1 then 1.0
    else
      var t := InvAlong(lx, x0, x1);
      InvAlongScale(lx, x0, x1);
      Between(t, lx - x0, x1 - x0);
      t
  }

  /** Within [x0, x1], the fraction scaled back is the offset of lx. */
  lemma FracScale(lx: real, x0: real, x1: real)
    requires x0 < x1 && x0 <= lx <= x1
    ensures lx == x0 + (x1 - x0) * Frac(lx, x0, x1)
  {
    if x0 < lx < x1 {
      InvAlongScale(lx, x0, x1);
    }
  }

  /** Frac grows with lx. */
  lemma FracMonotone(a: real, c: real, x0: real, x1: real)
    requires x0 < x1 && a <= c
    ensures Frac(a, x0, x1) <= Frac(c, x0, x1)
  {
    if x0 < a && c < x1 {
      var ta, tc, m := InvAlong(a, x0, x1), InvAlong(c, x0, x1), x1 - x0;
      InvAlongScale(a, x0, x1);
      InvAlongScale(c, x0, x1);
      assert ta * m == a - x0;
      assert tc * m == c - x0;
      assert m * ta <= m * tc;
      Scale(m, ta, tc);
    }
  }

  /**
    * TcrossX for an edge whose ends are ordered by x: the (z, y) where the
    * edge meets x = lx, held at an end's value outside [q0.x, q1.x].
    */
  function TcrossX(lx: real, q0: P3, q1: P3): (r: P2)
    requires q0.x <= q1.x
    ensures q0.x < q1.x ==> r == AlongP2(Frac(lx, q0.x, q1.x), Flat(q0), Flat(q1))
    ensures q0.x == q1.x ==> r == if lx <= q0.x then Flat(q0) else Flat(q1)
  {
    var fp0, fp1 := Flat(q0), Flat(q1);
    if lx <= q0.x then fp0
    else if lx >= q1.x then fp1
    else AlongP2(InvAlong(lx, q0.x, q1.x), fp0, fp1)
  }

  /** The y of the crossing, on an edge that is not upright in x. */
  lemma TcrossXY(lx: real, q0: P3, q1: P3)
    requires q0.x < q1.x
    ensures TcrossX(lx, q0, q1).v == q0.y + (q1.y - q0.y) * Frac(lx, q0.x, q1.x)
  {
  }

  /** y0 + (y1 - y0) * s moves from y0 towards y1 as s grows. */
  lemma LerpMonotone(y0: real, y1: real, sa: real, sb: real, ya: real, yb: real)
    requires sa <= sb && ya == y0 + (y1 - y0) * sa && yb == y0 + (y1 - y0) * sb
    ensures y0 <= y1 ==> ya <= yb
    ensures y0 >= y1 ==> ya >= yb
  {
    MulMonotone(y1 - y0, sa, sb);
  }

  /** A fraction in [0, 1] of the way from x0 to x1 stays within [x0, x1]. */
  lemma LerpWithin(x0: real, x1: real, lam: real, lx: real)
    requires x0 < x1 && 0.0 <= lam <= 1.0 && lx == x0 + (x1 - x0) * lam
    ensures x0 <= lx <= x1
  {
    MulMonotone(x1 - x0, 0.0, lam);
    MulMonotone(x1 - x0, lam, 1.0);
  }

  /** Two fractions giving the same point of a non-empty span are equal. */
  lemma SameFraction(x0: real, x1: real, t: real, lam: real, lx: real)
    requires x0 < x1 && lx == x0 + (x1 - x0) * t && lx == x0 + (x1 - x0) * lam
    ensures t == lam
  {
    var m := x1 - x0;
    assert m * t == m * lam;
    Scale(m, t, lam);
    Scale(m, lam, t);
  }

  /** y0 + (y1 - y0) * lam for lam in [0, 1] lies between y0 and y1. */
  lemma LerpBetween(y0: real, y1: real, lam: real, r: real)
    requires 0.0 <= lam <= 1.0 && r == y0 + (y1 - y0) * lam
    ensures SCombine(y0, y1).Contains(r)
  {
    var d := y1 - y0;
    var m := d * lam;
    assert r == y0 + m;
    MulUnit(d, lam);
  }

  /** d * lam for lam in [0, 1] lies between 0 and d. */
  lemma MulUnit(d: real, lam: real)
    requires 0.0 <= lam <= 1.0
    ensures d >= 0.0 ==> 0.0 <= d * lam <= d
    ensures d <= 0.0 ==> d <= d * lam <= 0.0
  {
    MulMonotone(d, 0.0, lam);
    MulMonotone(d, lam, 1.0);
    assert d * 0.0 == 0.0;
    assert d * 1.0 == d;
  }

  /** Multiplying by d keeps the order when d >= 0 and reverses it when d <= 0. */
  lemma MulMonotone(d: real, s: real, t: real)
    requires s <= t
    ensures d >= 0.0 ==> d * s <= d * t
    ensures d <= 0.0 ==> d * s >= d * t
  {
    var e := t - s;
    assert d * t == d * s + d * e;
    if d >= 0.0 {
      assert d * e >= 0.0;
    } else {
      assert d * e <= 0.0;
    }
  }

  /**
    * Along the x axis the crossing's y moves one way only: up when the
    * edge rises in y, down when it falls.
    */
  lemma TcrossXMonotone(a: real, b: real, q0: P3, q1: P3)
    requires q0.x <= q1.x && a <= b
    ensures q0.y <= q1.y ==> TcrossX(a, q0, q1).v <= TcrossX(b, q0, q1).v
    ensures q0.y >= q1.y ==> TcrossX(a, q0, q1).v >= TcrossX(b, q0, q1).v
  {
    var ya, yb := TcrossX(a, q0, q1).v, TcrossX(b, q0, q1).v;
    if q0.x < q1.x {
      var sa, sb := Frac(a, q0.x, q1.x), Frac(b, q0.x, q1.x);
      TcrossXY(a, q0, q1);
      TcrossXY(b, q0, q1);
      FracMonotone(a, b, q0.x, q1.x);
      LerpMonotone(q0.y, q1.y, sa, sb, ya, yb);
    } else if b <= q0.x {
      assert ya == q0.y && yb == q0.y;
    } else if a <= q0.x {
      assert ya == q0.y && yb == q1.y;
    } else {
      assert ya == q1.y && yb == q1.y;
    }
  }

  /**
    * Along the x axis the crossing never leaves the span of the crossings
    * on either side: the y at b lies between the y at a and at c.
    */
  lemma TcrossXBetween(a: real, b: real, c: real, q0: P3, q1: P3)
    requires q0.x <= q1.x && a <= b <= c
    ensures SCombine(TcrossX(a, q0, q1).v, TcrossX(c, q0, q1).v).Contains(TcrossX(b, q0, q1).v)
  {
    TcrossXMonotone(a, b, q0, q1);
    TcrossXMonotone(b, c, q0, q1);
  }

  /** At the x of any point of the edge, the crossing is that point's (z, y). */
  lemma TcrossXOnEdge(q0: P3, q1: P3, lam: real)
    requires q0.x < q1.x && 0.0 <= lam <= 1.0
    ensures var q := P3(q0.x + (q1.x - q0.x) * lam, q0.y + (q1.y - q0.y) * lam, q0.z + (q1.z - q0.z) * lam);
      TcrossX(q.x, q0, q1) == Flat(q)
  {
    var lx := q0.x + (q1.x - q0.x) * lam;
    LerpWithin(q0.x, q1.x, lam, lx);
    var t := Frac(lx, q0.x, q1.x);
    FracScale(lx, q0.x, q1.x);
    SameFraction(q0.x, q1.x, t, lam, lx);
  }

  /**
    * TcrossX for a triangle whose corners are ordered by x: the two ends
    * of its cross-section at x = lx, the first on the long edge q0-q2 and
    * the second on whichever short edge spans lx; both collapse onto a
    * corner outside [q0.x, q2.x].
    */
  function TcrossX3(lx: real, q0: P3, q1: P3, q2: P3): (r: (P2, P2))
    requires q0.x <= q1.x <= q2.x
    ensures r.0 == TcrossX(lx, q0, q2)
    ensures q0.x < lx < q2.x ==> r.1 == if lx <= q1.x then TcrossX(lx, q0, q1) else TcrossX(lx, q1, q2)
    ensures lx <= q0.x ==> r.1 == Flat(q0)
    ensures !(lx <= q0.x) && lx >= q2.x ==> r.1 == Flat(q2)
  {
    var fp0, fp1, fp2 := Flat(q0), Flat(q1), Flat(q2);
    if lx <= q0.x then (fp0, fp0)
    else if lx >= q2.x then (fp2, fp2)
    else
      var first := AlongP2(InvAlong(lx, q0.x, q2.x), fp0, fp2);
      if lx <= q1.x then
        InvAlongScale(lx, q0.x, q1.x);
        (first, AlongP2(InvAlong(lx, q0.x, q1.x), fp0, fp1))
      else
        (first, AlongP2(InvAlong(lx, q1.x, q2.x), fp1, fp2))
  }

  /**
    * TcrossY for a triangle: the z height at y = ly of the cross-section
    * fp, held at an end's height outside the section's span in y.
    */
  function TcrossY3(ly: real, fp: (P2, P2)): (r: real)
    ensures SCombine(fp.0.u, fp.1.u).Contains(r)
    ensures ly <= Min(fp.0.v, fp.1.v) ==> r == (if fp.0.v <= fp.1.v then fp.0.u else fp.1.u)
  {
    var a, b := fp.0, fp.1;
    if a.v <= b.v && ly <= a.v then a.u
    else if a.v <= b.v && ly >= b.v then b.u
    else if a.v > b.v && ly <= b.v then b.u
    else if a.v > b.v && ly >= a.v then a.u
    else
      var lam := InvAlong(ly, a.v, b.v);
      InvAlongScale(ly, a.v, b.v);
      assert 0.0 < lam < 1.0 by {
        if a.v < b.v {
          Between(lam, ly - a.v, b.v - a.v);
        } else {
          assert lam * (a.v - b.v) == a.v - ly;
          Between(lam, a.v - ly, a.v - b.v);
        }
      }
      var r := a.u + (b.u - a.u) * lam;
      LerpBetween(a.u, b.u, lam, r);
      r
  }

  // ---------------------------------------------------------------------
  // Clipping to the grid

  /** A range cut back to a bound, with a flag for each side that was cut. */
  datatype Clipped = Clipped(rg: I1, below: bool, above: bool)

  /**
    * The clipping Add*Bucket apply: a low end below the bound is raised to
    * it and a high end above it lowered to it, each setting its flag.
    */
  function Clip(rg: I1, bound: I1): (c: Clipped)
    ensures c.below <==> rg.lo < bound.lo
    ensures c.above <==> rg.hi > bound.hi
    ensures forall x :: c.rg.Contains(x) <==> rg.Contains(x) && bound.Contains(x)
    ensures c.rg.lo <= c.rg.hi ==> bound.Contains(c.rg.lo) && bound.Contains(c.rg.hi)
  {
    Clipped(I1(if rg.lo < bound.lo then bound.lo else rg.lo, if rg.hi > bound.hi then bound.hi else rg.hi),
            rg.lo < bound.lo, rg.hi > bound.hi)
  }

  // ---------------------------------------------------------------------
  // The order of a triangle's corners

  /** r holds a, b and c in some order. */
  predicate Reordering(r: (P3, P3, P3), a: P3, b: P3, c: P3) {
    r == (a, b, c) || r == (a, c, b) || r == (b, a, c) ||
    r == (b, c, a) || r == (c, a, b) || r == (c, b, a)
  }

  /**
    * AddTriangBucket's corner order as written: b12's ends by x, then the
    * third point; when the third point is rightmost it is swapped with the
    * leftmost (line 226) rather than with the rightmost end.
    */
  function CornerOrderAsWritten(e0: P3, e1: P3, t: P3): (r: (P3, P3, P3))
    ensures Reordering(r, e0, e1, t)
  {
    var pp0 := if e0.x <= e1.x then e0 else e1;
    var pp2 := if e0.x <= e1.x then e1 else e0;
    if t.x < pp0.x then (t, pp0, pp2)
    else if t.x > pp2.x then (t, pp0, pp2)
    else (pp0, t, pp2)
  }

  /**
    * With the third point rightmost, the order as written is not by x,
    * and the x-range from its first to its last corner is empty at every
    * clipping, so the triangle is put in no cell.
    */
  lemma CornerOrderAsWrittenUnsorted(gbxrg: I1)
    ensures var r := CornerOrderAsWritten(P3(0.0, 0.0, 0.0), P3(1.0, 0.0, 0.0), P3(2.0, 0.0, 0.0));
      && r.1.x < r.0.x
      && Clip(I1(r.0.x, r.2.x), gbxrg).rg.lo > Clip(I1(r.0.x, r.2.x), gbxrg).rg.hi
  {
    var r := CornerOrderAsWritten(P3(0.0, 0.0, 0.0), P3(1.0, 0.0, 0.0), P3(2.0, 0.0, 0.0));
    assert r == (P3(2.0, 0.0, 0.0), P3(0.0, 0.0, 0.0), P3(1.0, 0.0, 0.0));
  }

  /** The corner order with the rightmost third point swapped with the rightmost end. */
  function CornerOrder(e0: P3, e1: P3, t: P3): (r: (P3, P3, P3))
    ensures r.0.x <= r.1.x <= r.2.x
    ensures Reordering(r, e0, e1, t)
  {
    var pp0 := if e0.x <= e1.x then e0 else e1;
    var pp2 := if e0.x <= e1.x then e1 else e0;
    if t.x < pp0.x then (t, pp0, pp2)
    else if t.x > pp2.x then (pp0, pp2, t)
    else (pp0, t, pp2)
  }

  // ---------------------------------------------------------------------
  // The y-range of a triangle within one strip

  /**
    * The y-range of lines 257-265: the spans of the cross-sections at the
    * strip's two sides, together with the middle corner when the strip
    * holds its x.
    */
  function SectionSpan(fpl: (P2, P2), fpr: (P2, P2), part: I1, q1: P3): (r: I1)
    ensures r.lo <= r.hi
    ensures r.Contains(fpl.0.v) && r.Contains(fpl.1.v) && r.Contains(fpr.0.v) && r.Contains(fpr.1.v)
    ensures part.Contains(q1.x) ==> r.Contains(q1.y)
  {
    var yrgl, yrgr := SCombine(fpl.0.v, fpl.1.v), SCombine(fpr.0.v, fpr.1.v);
    var yrg := I1(Min(yrgl.lo, yrgr.lo), Max(yrgl.hi, yrgr.hi));
    if part.Contains(q1.x) then Absorb(yrg, q1.y, false) else yrg
  }

  /** A range holding a and b holds everything between them. */
  lemma SpanBetween(r: I1, a: real, b: real, y: real)
    requires r.Contains(a) && r.Contains(b) && SCombine(a, b).Contains(y)
    ensures r.Contains(y)
  {
  }

  /**
    * Within a strip lo..hi, both ends of the triangle's cross-section at
    * any x lie in the span of the sections at the strip's sides together
    * with the middle corner when the strip holds it.
    */
  lemma SectionInSpan(lo: real, x: real, hi: real, q0: P3, q1: P3, q2: P3)
    requires lo <= x <= hi && q0.x <= q1.x <= q2.x
    ensures var span := SectionSpan(TcrossX3(lo, q0, q1, q2), TcrossX3(hi, q0, q1, q2), I1(lo, hi), q1);
      span.Contains(TcrossX3(x, q0, q1, q2).0.v) && span.Contains(TcrossX3(x, q0, q1, q2).1.v)
  {
    var span := SectionSpan(TcrossX3(lo, q0, q1, q2), TcrossX3(hi, q0, q1, q2), I1(lo, hi), q1);
    TcrossXBetween(lo, x, hi, q0, q2);
    SpanBetween(span, TcrossX(lo, q0, q2).v, TcrossX(hi, q0, q2).v, TcrossX(x, q0, q2).v);
    if x <= q0.x || x >= q2.x {
      assert TcrossX3(x, q0, q1, q2).1 == TcrossX3(x, q0, q1, q2).0;
    } else if x <= q1.x {
      ShortLeft(lo, x, hi, q0, q1, q2);
    } else {
      ShortRight(lo, x, hi, q0, q1, q2);
    }
  }

  /** SectionInSpan's short side left of the middle corner: the edge q0-q1. */
  lemma ShortLeft(lo: real, x: real, hi: real, q0: P3, q1: P3, q2: P3)
    requires lo <= x <= hi && q0.x <= q1.x <= q2.x && q0.x < x < q2.x && x <= q1.x
    ensures SectionSpan(TcrossX3(lo, q0, q1, q2), TcrossX3(hi, q0, q1, q2), I1(lo, hi), q1).Contains(TcrossX(x, q0, q1).v)
  {
    var span := SectionSpan(TcrossX3(lo, q0, q1, q2), TcrossX3(hi, q0, q1, q2), I1(lo, hi), q1);
    assert TcrossX3(lo, q0, q1, q2).1 == TcrossX(lo, q0, q1);
    if q1.x <= hi {
      assert TcrossX(q1.x, q0, q1) == Flat(q1);
      TcrossXBetween(lo, x, q1.x, q0, q1);
      SpanBetween(span, TcrossX(lo, q0, q1).v, q1.y, TcrossX(x, q0, q1).v);
    } else {
      assert TcrossX3(hi, q0, q1, q2).1 == TcrossX(hi, q0, q1);
      TcrossXBetween(lo, x, hi, q0, q1);
      SpanBetween(span, TcrossX(lo, q0, q1).v, TcrossX(hi, q0, q1).v, TcrossX(x, q0, q1).v);
    }
  }

  /** SectionInSpan's short side right of the middle corner: the edge q1-q2. */
  lemma ShortRight(lo: real, x: real, hi: real, q0: P3, q1: P3, q2: P3)
    requires lo <= x <= hi && q0.x <= q1.x <= q2.x && q0.x < x < q2.x && x > q1.x
    ensures SectionSpan(TcrossX3(lo, q0, q1, q2), TcrossX3(hi, q0, q1, q2), I1(lo, hi), q1).Contains(TcrossX(x, q1, q2).v)
  {
    var span := SectionSpan(TcrossX3(lo, q0, q1, q2), TcrossX3(hi, q0, q1, q2), I1(lo, hi), q1);
    assert TcrossX3(hi, q0, q1, q2).1 == TcrossX(hi, q1, q2);
    if lo <= q1.x {
      assert TcrossX(q1.x, q1, q2) == Flat(q1);
      TcrossXBetween(q1.x, x, hi, q1, q2);
      SpanBetween(span, q1.y, TcrossX(hi, q1, q2).v, TcrossX(x, q1, q2).v);
    } else {
      assert TcrossX3(lo, q0, q1, q2).1 == TcrossX(lo, q1, q2);
      TcrossXBetween(lo, x, hi, q1, q2);
      SpanBetween(span, TcrossX(lo, q1, q2).v, TcrossX(hi, q1, q2).v, TcrossX(x, q1, q2).v);
    }
  }

  /**
    * The y-range of strip ix as written: the cross-section on the right is
    * taken at the first strip's high side in every strip (line 256), so
    * after the first strip both sides are that one section.
    */
  function TriStripYAsWritten(xpart: Partition1, first: int, ix: int, q0: P3, q1: P3, q2: P3): (r: I1)
    requires xpart.Valid() && xpart.bRegular && 0 <= first <= ix < xpart.NumParts()
    requires q0.x <= q1.x <= q2.x
    ensures ix == first ==> r == TriStripY(xpart, ix, q0, q1, q2)
  {
    var fpl := if ix == first then TcrossX3(xpart.GetPart(first).lo, q0, q1, q2)
               else TcrossX3(xpart.GetPart(first).hi, q0, q1, q2);
    var fpr := TcrossX3(xpart.GetPart(first).hi, q0, q1, q2);
    SectionSpan(fpl, fpr, xpart.GetPart(ix), q1)
  }

  /** The y-range of strip ix: the cross-sections at its own two sides. */
  function TriStripY(xpart: Partition1, ix: int, q0: P3, q1: P3, q2: P3): (r: I1)
    requires xpart.Valid() && xpart.bRegular && 0 <= ix < xpart.NumParts()
    requires q0.x <= q1.x <= q2.x
    ensures forall lx :: lx == xpart.GetPart(ix).lo || lx == xpart.GetPart(ix).hi ==>
      r.Contains(TcrossX3(lx, q0, q1, q2).0.v) && r.Contains(TcrossX3(lx, q0, q1, q2).1.v)
    ensures xpart.GetPart(ix).Contains(q1.x) ==> r.Contains(q1.y)
  {
    SectionSpan(TcrossX3(xpart.GetPart(ix).lo, q0, q1, q2), TcrossX3(xpart.GetPart(ix).hi, q0, q1, q2),
                xpart.GetPart(ix), q1)
  }

  /** Two strips over [0, 2], each one long. */
  const TwoStrips := Partition1([0.0, 1.0, 2.0], true)

  /**
    * With the triangle (0,0,0), (1,0,0), (2,2,0) on TwoStrips, the corner
    * (2,2,0) lies in the second strip, but the y-range as written for that
    * strip is [0, 1] and misses its y; the y-range of the strip's own
    * sides holds it.
    */
  lemma TriStripYAsWrittenMisses()
    ensures TwoStrips.Valid() && TwoStrips.bRegular && TwoStrips.NumParts() == 2
    ensures TwoStrips.GetPart(1).Contains(2.0)
    ensures !TriStripYAsWritten(TwoStrips, 0, 1, P3(0.0, 0.0, 0.0), P3(1.0, 0.0, 0.0), P3(2.0, 2.0, 0.0)).Contains(2.0)
    ensures TriStripY(TwoStrips, 1, P3(0.0, 0.0, 0.0), P3(1.0, 0.0, 0.0), P3(2.0, 2.0, 0.0)).Contains(2.0)
  {
    TwoStripsValid();
    TwoStripsParts();
    SampleAsWritten();
    SampleCorrected();
  }

  /** The as-written y-range of the sample's second strip is [0, 1]. */
  lemma SampleAsWritten()
    requires TwoStrips.Valid() && TwoStrips.NumParts() == 2
    requires TwoStrips.GetPart(0).hi == 1.0 && TwoStrips.GetPart(1) == I1(1.0, 2.0)
    ensures TriStripYAsWritten(TwoStrips, 0, 1, P3(0.0, 0.0, 0.0), P3(1.0, 0.0, 0.0), P3(2.0, 2.0, 0.0)) == I1(0.0, 1.0)
  {
    var q0, q1, q2 := P3(0.0, 0.0, 0.0), P3(1.0, 0.0, 0.0), P3(2.0, 2.0, 0.0);
    AsWrittenLaterStrip(TwoStrips, 1, q0, q1, q2);
    SampleSection();
    SampleSpan();
  }

  /** After the first strip, both sides of the y-range as written are the first strip's high side. */
  lemma AsWrittenLaterStrip(xpart: Partition1, ix: int, q0: P3, q1: P3, q2: P3)
    requires xpart.Valid() && xpart.bRegular && 0 < ix < xpart.NumParts()
    requires q0.x <= q1.x <= q2.x
    ensures var sec := TcrossX3(xpart.GetPart(0).hi, q0, q1, q2);
      TriStripYAsWritten(xpart, 0, ix, q0, q1, q2) == SectionSpan(sec, sec, xpart.GetPart(ix), q1)
  {
  }

  /** The corrected y-range of the sample's second strip holds the corner's y. */
  lemma SampleCorrected()
    requires TwoStrips.Valid() && TwoStrips.NumParts() == 2 && TwoStrips.GetPart(1) == I1(1.0, 2.0)
    ensures TriStripY(TwoStrips, 1, P3(0.0, 0.0, 0.0), P3(1.0, 0.0, 0.0), P3(2.0, 2.0, 0.0)).Contains(2.0)
  {
    var q0, q1, q2 := P3(0.0, 0.0, 0.0), P3(1.0, 0.0, 0.0), P3(2.0, 2.0, 0.0);
    assert TcrossX3(2.0, q0, q1, q2).0 == TcrossX(2.0, q0, q2) == P2(0.0, 2.0);
  }

  lemma TwoStripsValid()
    ensures TwoStrips.Valid() && TwoStrips.bRegular && TwoStrips.NumParts() == 2
  {
    var p := TwoStrips;
    forall i | 0 <= i < |p.b| ensures p.b[i] == I1(p.b[0], p.b[|p.b| - 1]).Along(i as real / (|p.b| - 1) as real) {
      assert i == 0 || i == 1 || i == 2;
    }
  }

  lemma TwoStripsParts()
    requires TwoStrips.Valid()
    ensures TwoStrips.GetPart(0).hi == 1.0 && TwoStrips.GetPart(1) == I1(1.0, 2.0)
  {
  }

  /** The span of the sample's section at x = 1, with the middle corner (1, 0, 0). */
  lemma SampleSpan()
    ensures SectionSpan((P2(0.0, 1.0), P2(0.0, 0.0)), (P2(0.0, 1.0), P2(0.0, 0.0)), I1(1.0, 2.0), P3(1.0, 0.0, 0.0)) == I1(0.0, 1.0)
  {
  }

  /** The cross-section of the sample triangle at x = 1 runs from (0, 1) to (0, 0). */
  lemma SampleSection()
    ensures TcrossX3(1.0, P3(0.0, 0.0, 0.0), P3(1.0, 0.0, 0.0), P3(2.0, 2.0, 0.0)) == (P2(0.0, 1.0), P2(0.0, 0.0))
  {
    var q0, q1, q2 := P3(0.0, 0.0, 0.0), P3(1.0, 0.0, 0.0), P3(2.0, 2.0, 0.0);
    assert InvAlong(1.0, 0.0, 2.0) == 0.5;
    assert InvAlong(1.0, 0.0, 1.0) == 1.0;
  }
}
