// Area2_gen: a weave over a region, sliced from a boxed surface at height z,
// whose closed contours are traced into a path series.

module Area {
  import opened Maybe
  import opened Geom
  import opened Endpoints
  import opened Weave
  import opened PathSeries
  import opened Fibres
  import opened Slicers
  import opened Surfaces
  import opened Windows
  import opened Boxes

  // ---------------------------------------------------------------------
  // Which endpoint a scan cursor names

  /** No two lower (or two upper) endpoints of a fibre at the same position. */
  predicate SlotsApart(ep: seq<B1>) {
    forall i :: 0 <= i && i + 2 < |ep| ==> ep[i].w < ep[i + 2].w
  }

  /** SlotsApart on every fibre of a family. */
  predicate FamilyApart(vs: seq<Fibre>) {
    forall i :: 0 <= i < |vs| ==> SlotsApart(vs[i].ep)
  }

  /**
    * On a well-formed fibre ContourNumber always finds an endpoint for the
    * position and side of endpoint i, and when the slots lie apart it finds
    * endpoint i itself.
    */
  lemma SlotFound(ep: seq<B1>, i: nat)
    requires WellFormed(ep) && i < |ep|
    ensures ContourIndex(ep, ep[i].w, ep[i].blower).Just?
    ensures SlotsApart(ep) ==> ContourIndex(ep, ep[i].w, ep[i].blower) == Just(i)
  {
    if SlotsApart(ep) {
      forall j | 0 <= j < i && j % 2 == i % 2
        ensures ep[j].w < ep[i].w
      {
        assert ep[j].w < ep[j + 2].w;
        if j + 2 < i {
          assert InOrder(ep, j + 2, i);
        }
      }
    }
    ContourIndexChar(ep, ep[i].w, ep[i].blower);
    assert Parity(ep[i].blower) == i % 2;
  }

  /**
    * Without SlotsApart the lookup can land on another slot: in a fibre
    * with an empty interval at 1 touching the next one, ContourNumber for
    * the lower endpoint in slot 2 refers to the one in slot 0, so a scan
    * reading numbers through it takes slot 2 as numbered when slot 0 is.
    */
  lemma SharedSlot()
    ensures var ep := [NewB1(1.0, true, false), NewB1(1.0, false, false), NewB1(1.0, true, false), NewB1(2.0, false, false)];
      && WellFormed(ep) && !SlotsApart(ep)
      && ContourIndex(ep, ep[2].w, ep[2].blower) == Just(0)
  {
    var ep := [NewB1(1.0, true, false), NewB1(1.0, false, false), NewB1(1.0, true, false), NewB1(2.0, false, false)];
    assert ContourIndexFrom(ep, 1.0, 0) == Just(0);
    assert !(ep[0].w < ep[2].w);
  }

  /** Positions alone decide SlotsApart. */
  lemma SlotsApartSamePositions(a: seq<B1>, b: seq<B1>)
    requires SamePositions(a, b) && SlotsApart(a)
    ensures SlotsApart(b)
  {
  }

  /** SamePlaces is transitive. */
  lemma SamePlacesTrans(a: seq<Fibre>, b: seq<Fibre>, c: seq<Fibre>)
    requires SamePlaces(a, b) && SamePlaces(b, c)
    ensures SamePlaces(a, c)
  {
    forall i | 0 <= i < |a|
      ensures SamePositions(a[i].ep, c[i].ep)
    {
      assert SamePositions(a[i].ep, b[i].ep) && SamePositions(b[i].ep, c[i].ep);
    }
  }

  /**
    * Every endpoint of the u-fibres before fibre ix, and of fibre ix before
    * endpoint i, is numbered at least f.
    */
  predicate ScannedUpTo(us: seq<Fibre>, f: int, ix: int, i: int) {
    forall a, j :: 0 <= a < |us| && 0 <= j < |us[a].ep| && (a < ix || (a == ix && j < i)) ==>
      us[a].ep[j].contournumber >= f
  }

  /** Stamping with a number at or above f keeps everything scanned. */
  lemma ScannedRestamped(us: seq<Fibre>, us': seq<Fibre>, f: int, n: int, ix: int, i: int)
    requires ScannedUpTo(us, f, ix, i) && RestampedFamily(us, us', n) && n >= f
    ensures ScannedUpTo(us', f, ix, i)
  {
    forall a, j | 0 <= a < |us'| && 0 <= j < |us'[a].ep| && (a < ix || (a == ix && j < i))
      ensures us'[a].ep[j].contournumber >= f
    {
      assert Restamped(us[a].ep, us'[a].ep, n);
    }
  }

  /**
    * A traced contour ends on an endpoint numbered at least f, and stamps
    * every endpoint it departs from with n: either way the endpoint the walk
    * starts from ends up numbered at least f.
    */
  lemma {:induction false} StartNumbered(us0: seq<Fibre>, vs0: seq<Fibre>, al0: Cursor, budget: nat, pth: seq<P2>,
                                          us: seq<Fibre>, vs: seq<Fibre>, n: int, f: int)
    requires OnFamily(us0, vs0, al0) && OnFamily(us, vs, al0) && pth != [] && n >= f
    requires Traced(us0, vs0, al0, budget, pth[..|pth| - 1], us, vs, n)
    requires var c := Walk(us0, vs0, al0, budget, |pth| - 1);
      && c.Just? && OnFamily(us, vs, c.value)
      && NumberAt(us, vs, c.value).Just? && NumberAt(us, vs, c.value).value >= f
    ensures NumberAt(us, vs, al0).Just? && NumberAt(us, vs, al0).value >= f
  {
    assert Walk(us0, vs0, al0, budget, 0) == Just(al0);
    if |pth| > 1 {
      assert 0 < |pth[..|pth| - 1]|;
    }
  }

  /**
    * What a traced contour leaves behind for MakeContours' scan: the fibres
    * keep their places, and when the slots lie apart the scanned endpoints,
    * and now the one the trace started from, are numbered at least f.
    */
  lemma TrackedScan(u0: seq<Fibre>, v0: seq<Fibre>, us: seq<Fibre>, vs: seq<Fibre>, us': seq<Fibre>, vs': seq<Fibre>,
                    al0: Cursor, budget: nat, pth: seq<P2>, ok: bool, f: int, n: int, ix: nat, i: nat)
    requires SamePlaces(u0, us) && SamePlaces(v0, vs)
    requires RestampedFamily(us, us', n) && RestampedFamily(vs, vs', n) && n >= f
    requires AllValid(us) && ix < |us| && i < |us[ix].ep|
    requires al0 == Cursor(UFibre, us[ix].ep[i].blower, us[ix].ep[i].w, us[ix].wp, ix)
    requires FamilyApart(u0) ==> ScannedUpTo(us, f, ix, i)
    requires ok ==> pth != [] && OnFamily(us, vs, al0) && OnFamily(us', vs', al0)
    requires ok ==> Traced(us, vs, al0, budget, pth[..|pth| - 1], us', vs', n)
    requires ok ==>
      var c := Walk(us, vs, al0, budget, |pth| - 1);
      && c.Just? && OnFamily(us', vs', c.value)
      && NumberAt(us', vs', c.value).Just? && NumberAt(us', vs', c.value).value >= f
    ensures SamePlaces(u0, us') && SamePlaces(v0, vs')
    ensures ok && FamilyApart(u0) ==> ScannedUpTo(us', f, ix, i + 1)
  {
    RestampedSamePlaces(us, us', n);
    RestampedSamePlaces(vs, vs', n);
    SamePlacesTrans(u0, us, us');
    SamePlacesTrans(v0, vs, vs');
    if ok && FamilyApart(u0) {
      ScannedRestamped(us, us', f, n, ix, i);
      StartNumbered(us, vs, al0, budget, pth, us', vs', n, f);
      var ep, ep' := us[ix].ep, us'[ix].ep;
      assert SamePositions(u0[ix].ep, ep) && SamePositions(ep, ep');
      assert SlotsApart(u0[ix].ep);
      SlotsApartSamePositions(u0[ix].ep, ep);
      SlotsApartSamePositions(ep, ep');
      assert Restamped(ep, ep', n);
      RestampedKeeps(ep, ep', n);
      SlotFound(ep', i);
    }
  }

  // ---------------------------------------------------------------------
  // What MakeContours appends

  /** The scan cursor at endpoint i of u-fibre ix, as MakeContours sets alscan. */
  function ScanCursor(us: seq<Fibre>, ix: nat, i: nat): Cursor
    requires ix < |us| && i < |us[ix].ep|
  {
    Cursor(UFibre, us[ix].ep[i].blower, us[ix].ep[i].w, us[ix].wp, ix)
  }

  /** s names endpoint s.1 of u-fibre s.0. */
  predicate IsEndpoint(us: seq<Fibre>, s: (nat, nat)) {
    s.0 < |us| && s.1 < |us[s.0].ep|
  }

  /** a comes strictly before b in the scan's order: by fibre, then by slot. */
  predicate ScanBefore(a: (nat, nat), b: (nat, nat)) {
    a.0 < b.0 || (a.0 == b.0 && a.1 < b.1)
  }

  /** The points of the contours, one contour after the other. */
  function Joined(cs: seq<seq<P2>>): seq<P2> {
    if cs == [] then [] else Joined(cs[..|cs| - 1]) + cs[|cs| - 1]
  }

  /** The break closing each contour, for points appended after n0 others. */
  function Breaks(n0: int, cs: seq<seq<P2>>): (r: seq<int>)
    ensures |r| == |cs|
  {
    if cs == [] then [] else Breaks(n0, cs[..|cs| - 1]) + [n0 + |Joined(cs)|]
  }

  /**
    * Contour m is the walk, over fibres at the places of us and vs, from the
    * scan cursor at the m-th start, and the starts are endpoints of the
    * u-fibres in strictly increasing scan order.  The statement sits behind
    * Gate, so that the scan's loops carry it without unfolding the walks.
    */
  ghost predicate Contours(us: seq<Fibre>, vs: seq<Fibre>, budget: nat, starts: seq<(nat, nat)>, cs: seq<seq<P2>>) {
    forall g {:trigger Gate(g)} :: Gate(g) ==>
      && |starts| == |cs|
      && (forall m :: 0 <= m < |starts| ==>
            && IsEndpoint(us, starts[m]) && cs[m] != []
            && WalkedPath(us, vs, ScanCursor(us, starts[m].0, starts[m].1), budget, cs[m]))
      && (forall m :: 0 < m < |starts| ==> ScanBefore(starts[m - 1], starts[m]))
  }

  /** Appending one contour appends its points, and one break at their end. */
  lemma JoinedSnoc(n0: int, cs: seq<seq<P2>>, p: seq<P2>)
    ensures Joined(cs + [p]) == Joined(cs) + p
    ensures Breaks(n0, cs + [p]) == Breaks(n0, cs) + [n0 + |Joined(cs)| + |p|]
  {
    assert (cs + [p])[..|cs|] == cs;
  }

  /** Appending one more contour to points holding the earlier ones after pths0 keeps them their join. */
  lemma AppendJoined(pths0: seq<P2>, cs: seq<seq<P2>>, p: seq<P2>, pths: seq<P2>)
    requires pths == pths0 + Joined(cs)
    ensures pths + p == pths0 + Joined(cs + [p])
  {
    JoinedSnoc(0, cs, p);
    ConcatAssoc(pths0, Joined(cs), p);
  }

  /** Its break, e, at the end of the points, keeps the breaks those of the contours. */
  lemma AppendBreaks(brks0: seq<int>, cs: seq<seq<P2>>, p: seq<P2>, brks: seq<int>, n0: int, e: int)
    requires brks == brks0 + Breaks(n0, cs) && e == n0 + |Joined(cs)| + |p|
    ensures brks + [e] == brks0 + Breaks(n0, cs + [p])
  {
    JoinedSnoc(n0, cs, p);
    ConcatAssoc(brks0, Breaks(n0, cs), [e]);
  }

  /**
    * The series holds pths0 and brks0 followed by the contours cs, one
    * break closing each; behind Gate, so that the scan carries it unopened.
    */
  ghost predicate SeriesOf(pths: seq<P2>, brks: seq<int>, pths0: seq<P2>, brks0: seq<int>, cs: seq<seq<P2>>) {
    forall g {:trigger Gate(g)} :: Gate(g) ==>
      pths == pths0 + Joined(cs) && brks == brks0 + Breaks(|pths0|, cs)
  }

  /** PathXSeries::Append of one more contour keeps the series that of the contours. */
  lemma AppendSeries(pths: seq<P2>, brks: seq<int>, pths0: seq<P2>, brks0: seq<int>, cs: seq<seq<P2>>, p: seq<P2>)
    requires SeriesOf(pths, brks, pths0, brks0, cs)
    ensures SeriesOf(pths + p, brks + [|pths| + |p|], pths0, brks0, cs + [p])
  {
    assert Gate(0);
    AppendJoined(pths0, cs, p, pths);
    AppendBreaks(brks0, cs, p, brks, |pths0|, |pths| + |p|);
  }

  lemma ConcatAssoc<T>(a: seq<T>, b: seq<T>, c: seq<T>)
    ensures (a + b) + c == a + (b + c)
  {
  }

  /** A contour traced from an endpoint later in the scan extends the contours. */
  lemma ContoursExtend(us: seq<Fibre>, vs: seq<Fibre>, budget: nat, starts: seq<(nat, nat)>, cs: seq<seq<P2>>,
                       ix: nat, i: nat, p: seq<P2>)
    requires Contours(us, vs, budget, starts, cs)
    requires IsEndpoint(us, (ix, i)) && (starts == [] || ScanBefore(starts[|starts| - 1], (ix, i)))
    requires p != [] && WalkedPath(us, vs, ScanCursor(us, ix, i), budget, p)
    ensures Contours(us, vs, budget, starts + [(ix, i)], cs + [p])
  {
    var starts', cs' := starts + [(ix, i)], cs + [p];
    assert Gate(0);
    forall m | 0 <= m < |starts'|
      ensures && IsEndpoint(us, starts'[m]) && cs'[m] != []
              && WalkedPath(us, vs, ScanCursor(us, starts'[m].0, starts'[m].1), budget, cs'[m])
    {
      if m < |starts| {
        assert starts'[m] == starts[m] && cs'[m] == cs[m];
      }
    }
  }

  /** On well-formed fibres in the same places the scan cursor is the same: blower follows the slot's parity. */
  lemma ScanCursorSamePlaces(us: seq<Fibre>, us': seq<Fibre>, ix: nat, i: nat)
    requires SamePlaces(us, us') && AllValid(us) && AllValid(us') && ix < |us| && i < |us[ix].ep|
    ensures i < |us'[ix].ep| && ScanCursor(us, ix, i) == ScanCursor(us', ix, i)
  {
    assert SamePositions(us[ix].ep, us'[ix].ep);
    assert WellFormed(us[ix].ep) && WellFormed(us'[ix].ep);
    assert Alternating(us[ix].ep) && Alternating(us'[ix].ep);
  }

  // ---------------------------------------------------------------------
  // Slicing the weave's fibres

  /** A fibre once the cuts of everything offered, in order, are merged into it; its position stays. */
  function Sliced(f: Fibre, cut: (Prim, FibreType, real, real) -> Option<OrderedCut>, offers: seq<Prim>,
                  ft: FibreType, z: real): Fibre
  {
    Fibre(MergeCuts(f.ep, CutsOf(cut, offers, ft, f.wp, z)), f.wp)
  }

  /**
    * A sliced fibre is well formed when the fibre was, and covers exactly
    * what it covered before together with what some cut of an offered
    * primitive covers.
    */
  lemma SlicedUnion(f: Fibre, cut: (Prim, FibreType, real, real) -> Option<OrderedCut>, offers: seq<Prim>,
                    ft: FibreType, z: real, x: real)
    requires WellFormed(f.ep)
    ensures Sliced(f, cut, offers, ft, z).wp == f.wp && WellFormed(Sliced(f, cut, offers, ft, z).ep)
    ensures Covers(Sliced(f, cut, offers, ft, z).ep, x) <==> Covers(f.ep, x) || CutCovers(CutsOf(cut, offers, ft, f.wp, z), x)
  {
    MergeCutsUnion(f.ep, CutsOf(cut, offers, ft, f.wp, z), x);
  }

  /**
    * What the boxed surface offers a fibre of family ft at wp over wrg to
    * a ball of radius radball: SliceUFibre's window for a u-fibre,
    * SliceVFibre's for a v-fibre.
    */
  ghost function HackOffers(xb: SurfXboxed, ft: FibreType, radball: real, wp: real, wrg: I1): seq<Prim>
    reads xb
    requires xb.Sliceable()
  {
    if ft == UFibre then UOffers(xb.sx, xb.Layout(), xb.buckets, radball, xb.searchbox_epsilon, wp, wrg)
    else VOffers(xb.sx, xb.Layout(), xb.buckets, radball, xb.searchbox_epsilon, wp, wrg)
  }

  /** The boxed surface offers only primitives of its surface. */
  lemma HackOffersFromSurface(xb: SurfXboxed, ft: FibreType, radball: real, wp: real, wrg: I1)
    requires xb.Sliceable()
    ensures forall pr :: pr in HackOffers(xb, ft, radball, wp, wrg) ==> pr in xb.sx.AllPrims()
  {
    if ft == UFibre {
      OffersFromSurface(xb.sx, xb.Layout(), xb.buckets, Across(wp, radball + xb.searchbox_epsilon), wrg.Inflate(radball + xb.searchbox_epsilon));
    } else {
      OffersFromSurface(xb.sx, xb.Layout(), xb.buckets, wrg.Inflate(radball + xb.searchbox_epsilon), Across(wp, radball + xb.searchbox_epsilon));
    }
  }

  /**
    * One pass of HackDowntoZ's loops: rgen holds a copy of fibre f, the
    * boxed surface slices it, and the sliced copy is handed back.
    */
  method HackFibre(xb: SurfXboxed, rgen: RayGen, f: Fibre, ft: FibreType, wrg: I1, z: real) returns (g: Fibre)
    requires xb.Sliceable() && WellFormed(f.ep) && (ft == UFibre || ft == VFibre)
    modifies rgen`fib, rgen`ftype, rgen`wrg, rgen`z, rgen`offered
    ensures g == Sliced(f, rgen.cut, HackOffers(xb, ft, rgen.radball, f.wp, wrg), ft, z)
    ensures Hacked(xb, rgen.cut, rgen.radball, f, g, ft, wrg, z)
    ensures WellFormed(g.ep)
  {
    rgen.HoldFibre(f, ft, wrg, z);
    if ft == UFibre {
      xb.SliceUFibre(rgen);
    } else {
      xb.SliceVFibre(rgen);
    }
    g := rgen.fib;
    assert Gate(0);
  }

  /**
    * g is f sliced by the boxed surface; the equation sits behind Gate so
    * that HackFamily's loop carries it without unfolding the offers.
    */
  ghost predicate Hacked(xb: SurfXboxed, cut: (Prim, FibreType, real, real) -> Option<OrderedCut>, radball: real, f: Fibre, g: Fibre, ft: FibreType, wrg: I1, z: real)
    reads xb
    requires xb.Sliceable() && (ft == UFibre || ft == VFibre)
  {
    forall k {:trigger Gate(k)} :: Gate(k) ==> g == Sliced(f, cut, HackOffers(xb, ft, radball, f.wp, wrg), ft, z)
  }

  /**
    * HackDowntoZ's loop over one family: each fibre in turn held, sliced
    * and handed back, all with the one ball slicer.
    */
  method HackFamily(xb: SurfXboxed, rgen: RayGen, fibs: seq<Fibre>, ft: FibreType, wrg: I1, z: real)
      returns (out: seq<Fibre>)
    requires xb.Sliceable() && AllValid(fibs) && (ft == UFibre || ft == VFibre)
    modifies rgen`fib, rgen`ftype, rgen`wrg, rgen`z, rgen`offered
    ensures |out| == |fibs| && AllValid(out)
    ensures forall i :: 0 <= i < |fibs| ==> out[i] == Sliced(fibs[i], rgen.cut, HackOffers(xb, ft, rgen.radball, fibs[i].wp, wrg), ft, z)
  {
    out := fibs;
    var i := 0;
    while i < |fibs|
      invariant 0 <= i <= |fibs| == |out| && AllValid(out)
      invariant forall k :: 0 <= k < i ==> Hacked(xb, rgen.cut, rgen.radball, fibs[k], out[k], ft, wrg, z)
      invariant forall k :: i <= k < |fibs| ==> out[k] == fibs[k]
    {
      out := HackStep(xb, rgen, fibs, out, i, ft, wrg, z);
      i := i + 1;
    }
    assert Gate(0);
  }

  /** One pass of HackFamily's loop: fibre i is held, sliced and handed back in place. */
  method HackStep(xb: SurfXboxed, rgen: RayGen, fibs: seq<Fibre>, out: seq<Fibre>, i: nat, ft: FibreType, wrg: I1, z: real)
      returns (out': seq<Fibre>)
    requires xb.Sliceable() && (ft == UFibre || ft == VFibre)
    requires i < |fibs| == |out| && AllValid(out)
    requires forall k :: 0 <= k < i ==> Hacked(xb, rgen.cut, rgen.radball, fibs[k], out[k], ft, wrg, z)
    requires forall k :: i <= k < |fibs| ==> out[k] == fibs[k]
    modifies rgen`fib, rgen`ftype, rgen`wrg, rgen`z, rgen`offered
    ensures |out'| == |fibs| && AllValid(out')
    ensures forall k :: 0 <= k <= i ==> Hacked(xb, rgen.cut, rgen.radball, fibs[k], out'[k], ft, wrg, z)
    ensures forall k :: i < k < |fibs| ==> out'[k] == fibs[k]
  {
    var g := HackFibre(xb, rgen, out[i], ft, wrg, z);
    out' := out[i := g];
  }

  /** The spans merged into a list from the back, the order FindInterior pops them in. */
  function MergeBack(ep: seq<B1>, res: seq<Span>): seq<B1>
    decreases |res|
  {
    if res == [] then ep
    else MergeBack(Merged(ep, res[|res| - 1].lo, false, res[|res| - 1].hi, false), res[..|res| - 1])
  }

  /** Some span of res covers x. */
  ghost predicate SpanCovers(res: seq<Span>, x: real) {
    exists k :: 0 <= k < |res| && res[k].lo <= x <= res[k].hi
  }

  /**
    * Merging spans from the back keeps the list well formed and covers
    * exactly what it covered before together with every span.
    */
  lemma {:induction false} MergeBackUnion(ep: seq<B1>, res: seq<Span>, x: real)
    requires WellFormed(ep)
    ensures WellFormed(MergeBack(ep, res))
    ensures Covers(MergeBack(ep, res), x) <==> Covers(ep, x) || SpanCovers(res, x)
    decreases |res|
  {
    if res != [] {
      var s, init := res[|res| - 1], res[..|res| - 1];
      var e := Merged(ep, s.lo, false, s.hi, false);
      MergeUnion(ep, s.lo, false, s.hi, false);
      assert Covers(e, x) <==> Covers(ep, x) || s.lo <= x <= s.hi;
      MergeBackUnion(e, init, x);
      SpanCoversLast(res, x);
    }
  }

  /** A list of spans covers x when the ones before the last do or the last one does. */
  lemma SpanCoversLast(res: seq<Span>, x: real)
    requires res != []
    ensures SpanCovers(res, x) <==> SpanCovers(res[..|res| - 1], x) || res[|res| - 1].lo <= x <= res[|res| - 1].hi
  {
    var init := res[..|res| - 1];
    if SpanCovers(init, x) {
      var k :| 0 <= k < |init| && init[k].lo <= x <= init[k].hi;
      assert res[k] == init[k];
    }
  }

  /** FindInterior's inner loop: the spans popped off the back of res and merged into the fibre. */
  method MergeSpansBack(f: Fibre, res: seq<Span>) returns (g: Fibre)
    requires WellFormed(f.ep)
    ensures g == Fibre(MergeBack(f.ep, res), f.wp)
    ensures WellFormed(g.ep)
  {
    var ep, rest := f.ep, res;
    while rest != []
      invariant WellFormed(ep) && MergeBack(ep, rest) == MergeBack(f.ep, res)
      decreases |rest|
    {
      var s := rest[|rest| - 1];
      ep := MergeEndpoints(ep, s.lo, false, s.hi, false);
      rest := rest[..|rest| - 1];
    }
    g := Fibre(ep, f.wp);
  }

  /**
    * The spans Convert makes of the triangles' crossings of the line from
    * p0 to p1, within xrg, yrg and the surface's z-range.
    */
  function Interior(sx: SurfX, crossings: (P3, P3, Prim) -> seq<real>, convert: (P3, P3, seq<real>, I1, I1, I1) -> seq<Span>,
                    p0: P3, p1: P3, xrg: I1, yrg: I1): seq<Span>
    requires sx.Complete()
  {
    convert(p0, p1, CrossingsOf(crossings, p0, p1, sx.FacePrims(|sx.trX|)), xrg, yrg, sx.gzrg)
  }

  /**
    * One pass of FindInterior's loops: the line from p0 to p1 sliced
    * against every triangle, the crossings converted and the spans merged
    * into fibre f.
    */
  method InteriorFibre(sx: SurfX, sgen: SLiGen, f: Fibre, p0: P3, p1: P3, xrg: I1, yrg: I1) returns (g: Fibre)
    requires sx.Complete() && WellFormed(f.ep)
    modifies sgen`p0, sgen`p1, sgen`inter, sgen`offered
    ensures g == Fibre(MergeBack(f.ep, Interior(sx, sgen.crossings, sgen.convert, p0, p1, xrg, yrg)), f.wp)
    ensures WellFormed(g.ep)
  {
    sgen.SetSlicePos(p0, p1);
    SliceRay(sx, sgen);
    var res := sgen.Convert(xrg, yrg, sx.gzrg);
    assert sgen.inter == CrossingsOf(sgen.crossings, p0, p1, sx.FacePrims(|sx.trX|));
    g := MergeSpansBack(f, res);
  }

  /** The spans along the line at u = wp from vrg.lo to vrg.hi, at height z: a u-fibre's interior. */
  function UInterior(sx: SurfX, sgen: SLiGen, urg: I1, vrg: I1, z: real, wp: real): seq<Span>
    requires sx.Complete()
  {
    Interior(sx, sgen.crossings, sgen.convert, P3(wp, vrg.lo, z), P3(wp, vrg.hi, z), urg, vrg)
  }

  /** The spans along the line at v = wp from urg.lo to urg.hi, at height z, converted within urg and urg. */
  function VInterior(sx: SurfX, sgen: SLiGen, urg: I1, z: real, wp: real): seq<Span>
    requires sx.Complete()
  {
    Interior(sx, sgen.crossings, sgen.convert, P3(urg.lo, wp, z), P3(urg.hi, wp, z), urg, urg)
  }

  /** FindInterior's first loop: every u-fibre in turn. */
  method InteriorU(sx: SurfX, sgen: SLiGen, fibs: seq<Fibre>, urg: I1, vrg: I1, z: real) returns (out: seq<Fibre>)
    requires sx.Complete() && AllValid(fibs)
    modifies sgen`p0, sgen`p1, sgen`inter, sgen`offered
    ensures |out| == |fibs| && AllValid(out)
    ensures forall i :: 0 <= i < |fibs| ==> out[i] == Fibre(MergeBack(fibs[i].ep, UInterior(sx, sgen, urg, vrg, z, fibs[i].wp)), fibs[i].wp)
  {
    out := fibs;
    var i := 0;
    while i < |fibs|
      invariant 0 <= i <= |fibs| == |out| && AllValid(out)
      invariant forall k :: 0 <= k < i ==> out[k] == Fibre(MergeBack(fibs[k].ep, UInterior(sx, sgen, urg, vrg, z, fibs[k].wp)), fibs[k].wp)
      invariant forall k :: i <= k < |fibs| ==> out[k] == fibs[k]
    {
      var wp := out[i].wp;
      var g := InteriorFibre(sx, sgen, out[i], P3(wp, vrg.lo, z), P3(wp, vrg.hi, z), urg, vrg);
      out := out[i := g];
      i := i + 1;
    }
  }

  /** FindInterior's second loop: every v-fibre in turn. */
  method InteriorV(sx: SurfX, sgen: SLiGen, fibs: seq<Fibre>, urg: I1, z: real) returns (out: seq<Fibre>)
    requires sx.Complete() && AllValid(fibs)
    modifies sgen`p0, sgen`p1, sgen`inter, sgen`offered
    ensures |out| == |fibs| && AllValid(out)
    ensures forall i :: 0 <= i < |fibs| ==> out[i] == Fibre(MergeBack(fibs[i].ep, VInterior(sx, sgen, urg, z, fibs[i].wp)), fibs[i].wp)
  {
    out := fibs;
    var i := 0;
    while i < |fibs|
      invariant 0 <= i <= |fibs| == |out| && AllValid(out)
      invariant forall k :: 0 <= k < i ==> out[k] == Fibre(MergeBack(fibs[k].ep, VInterior(sx, sgen, urg, z, fibs[k].wp)), fibs[k].wp)
      invariant forall k :: i <= k < |fibs| ==> out[k] == fibs[k]
    {
      var wp := out[i].wp;
      var g := InteriorFibre(sx, sgen, out[i], P3(urg.lo, wp, z), P3(urg.hi, wp, z), urg, urg);
      out := out[i := g];
      i := i + 1;
    }
  }

  // ---------------------------------------------------------------------
  // The area

  class Area2 {
    /** The weave this area extends. */
    const wve: S2weave
    /** The height of the slice. */
    var z: real
    /** The tool radius. */
    var r: real
    /** The boxed surface the fibres are sliced against; none until SetSurfaceTop. */
    var psxb: SurfXboxed?

    constructor (lwve: S2weave, lz: real, lr: real)
      ensures wve == lwve && z == lz && r == lr && psxb == null
    {
      wve := lwve;
      z := lz;
      r := lr;
      psxb := null;
    }

    /**
      * Area2_gen::SetSurfaceTop: takes the tool radius and the boxed
      * surface, and starts at the top of the surface's z-range.
      */
    method SetSurfaceTop(lpsxb: SurfXboxed, lr: real)
      modifies this`r, this`psxb, this`z
      ensures r == lr && psxb == lpsxb && z == lpsxb.sx.gzrg.hi
    {
      r := lr;
      psxb := lpsxb;
      z := psxb.sx.gzrg.hi;
    }

    /**
      * Area2_gen::HackDowntoZ: lowers the slice to lz, then slices every
      * u-fibre, and after them every v-fibre, with a ball of the tool's
      * radius against the boxed surface.  Each fibre gains exactly the cuts
      * of what SliceUFibre or SliceVFibre offers it, trimmed to vrg on the
      * u-fibres and to urg on the v-fibres, and keeps its place.
      */
    method HackDowntoZ(lz: real, geometry: (Prim, FibreType, real, real, I1) -> Option<OrderedCut>)
      requires psxb != null && psxb.Sliceable() && wve.Valid() && lz <= z
      modifies this`z, wve`ufibs, wve`vfibs
      ensures z == lz && wve.Valid()
      ensures |wve.ufibs| == |old(wve.ufibs)| && |wve.vfibs| == |old(wve.vfibs)|
      ensures forall i :: 0 <= i < |wve.ufibs| ==>
        wve.ufibs[i] == Sliced(old(wve.ufibs)[i], Trimmed(geometry, wve.vrg), HackOffers(psxb, UFibre, r, old(wve.ufibs)[i].wp, wve.vrg), UFibre, lz)
      ensures forall j :: 0 <= j < |wve.vfibs| ==>
        wve.vfibs[j] == Sliced(old(wve.vfibs)[j], Trimmed(geometry, wve.urg), HackOffers(psxb, VFibre, r, old(wve.vfibs)[j].wp, wve.urg), VFibre, lz)
    {
      z := lz;
      var uryg := new RayGen(r, wve.vrg, geometry);
      var us := HackFamily(psxb, uryg, wve.ufibs, UFibre, wve.vrg, z);
      wve.ufibs := us;
      var vryg := new RayGen(r, wve.urg, geometry);
      var vs := HackFamily(psxb, vryg, wve.vfibs, VFibre, wve.urg, z);
      wve.vfibs := vs;
    }

    /**
      * Area2_gen::FindInterior: slices the line along every u-fibre, at
      * height z over vrg, against every triangle of sx, and merges the spans
      * Convert makes of the crossings into that fibre; then the same along
      * every v-fibre over urg.  Convert is given urg for both of its ranges
      * on the v-fibres, as written.
      */
    method FindInterior(sx: SurfX, sgen: SLiGen)
      requires sx.Complete() && wve.Valid()
      modifies wve`ufibs, wve`vfibs, sgen`p0, sgen`p1, sgen`inter, sgen`offered
      ensures wve.Valid()
      ensures |wve.ufibs| == |old(wve.ufibs)| && |wve.vfibs| == |old(wve.vfibs)|
      ensures forall i :: 0 <= i < |wve.ufibs| ==>
        wve.ufibs[i] == Fibre(MergeBack(old(wve.ufibs)[i].ep, UInterior(sx, sgen, wve.urg, wve.vrg, z, old(wve.ufibs)[i].wp)), old(wve.ufibs)[i].wp)
      ensures forall j :: 0 <= j < |wve.vfibs| ==>
        wve.vfibs[j] == Fibre(MergeBack(old(wve.vfibs)[j].ep, VInterior(sx, sgen, wve.urg, z, old(wve.vfibs)[j].wp)), old(wve.vfibs)[j].wp)
    {
      var us := InteriorU(sx, sgen, wve.ufibs, wve.urg, wve.vrg, z);
      wve.ufibs := us;
      var vs := InteriorV(sx, sgen, wve.vfibs, wve.urg, z);
      wve.vfibs := vs;
    }

    /**
      * Area2_gen::MakeContours: restarts the epoch so that every earlier
      * contour number counts as unvisited, then scans the endpoints of the
      * u-fibres in order and traces a contour from each one still unvisited,
      * appending it to ftpaths with one break.  Every Advance gets the given
      * budget of turns; ok is false where a trace fails.
      */
    method MakeContours(ftpaths: PathXSeries, budget: nat)
        returns (ok: bool, ghost starts: seq<(nat, nat)>, ghost contours: seq<seq<P2>>)
      requires wve.Valid() && ftpaths.Valid()
      modifies wve, ftpaths
      ensures wve.firstcontournumber == old(wve.lastcontournumber) + 1
      ensures wve.lastcontournumber >= old(wve.lastcontournumber)
      ensures wve.urg == old(wve.urg) && wve.vrg == old(wve.vrg)
      ensures wve.Valid() && ftpaths.Valid()
      ensures SamePlaces(old(wve.ufibs), wve.ufibs) && SamePlaces(old(wve.vfibs), wve.vfibs)
      ensures old(ftpaths.pths) <= ftpaths.pths
      ensures Contours(old(wve.ufibs), old(wve.vfibs), budget, starts, contours)
      ensures ok ==> ftpaths.pths == old(ftpaths.pths) + Joined(contours)
      ensures ok ==> ftpaths.brks == old(ftpaths.brks) + Breaks(|old(ftpaths.pths)|, contours)
      ensures ok ==> |contours| == wve.lastcontournumber - old(wve.lastcontournumber)
      ensures ok ==> |ftpaths.brks| == |old(ftpaths.brks)| + (wve.lastcontournumber - old(wve.lastcontournumber))
      ensures wve.lastcontournumber == old(wve.lastcontournumber) ==> ftpaths.z == old(ftpaths.z)
      ensures ok && wve.lastcontournumber > old(wve.lastcontournumber) ==> ftpaths.z == z
      ensures ok && FamilyApart(old(wve.ufibs)) ==>
        ScannedUpTo(wve.ufibs, wve.firstcontournumber, |wve.ufibs|, 0)
    {
      wve.firstcontournumber := wve.lastcontournumber + 1;
      ghost var f := wve.firstcontournumber;
      ghost var u0, v0 := wve.ufibs, wve.vfibs;
      RestampedNone(u0, f);
      RestampedSamePlaces(u0, u0, f);
      RestampedSamePlaces(v0, v0, f);
      starts, contours := [], [];
      assert ftpaths.pths + Joined([]) == ftpaths.pths && ftpaths.brks + Breaks(|ftpaths.pths|, []) == ftpaths.brks;
      assert Gate(0);
      var ix := 0;
      while ix < |wve.ufibs|
        invariant 0 <= ix <= |wve.ufibs|
        invariant wve.Valid() && ftpaths.Valid()
        invariant wve.firstcontournumber == f && wve.lastcontournumber >= f - 1
        invariant wve.urg == old(wve.urg) && wve.vrg == old(wve.vrg)
        invariant SamePlaces(u0, wve.ufibs) && SamePlaces(v0, wve.vfibs)
        invariant old(ftpaths.pths) <= ftpaths.pths
        invariant SeriesOf(ftpaths.pths, ftpaths.brks, old(ftpaths.pths), old(ftpaths.brks), contours)
        invariant |contours| == wve.lastcontournumber - (f - 1)
        invariant Contours(u0, v0, budget, starts, contours)
        invariant starts == [] || ScanBefore(starts[|starts| - 1], (ix, 0))
        invariant wve.lastcontournumber == f - 1 ==> ftpaths.z == old(ftpaths.z)
        invariant wve.lastcontournumber > f - 1 ==> ftpaths.z == z
        invariant FamilyApart(u0) ==> ScannedUpTo(wve.ufibs, f, ix, 0)
      {
        ok, starts, contours := ScanFibre(ftpaths, ix, budget, u0, v0, old(ftpaths.pths), old(ftpaths.brks), old(ftpaths.z),
                                          starts, contours);
        if !ok {
          return;
        }
        ix := ix + 1;
      }
      ok := true;
      assert Gate(0);
    }

    /**
      * MakeContours' inner loop: scans the endpoints of u-fibre ix in order.
      * Its contract carries the scan's invariants from fibre ix to ix + 1.
      */
    method ScanFibre(ftpaths: PathXSeries, ix: nat, budget: nat, ghost u0: seq<Fibre>, ghost v0: seq<Fibre>,
                     ghost pths0: seq<P2>, ghost brks0: seq<int>, ghost z0: real,
                     ghost starts: seq<(nat, nat)>, ghost cs: seq<seq<P2>>)
        returns (ok: bool, ghost starts': seq<(nat, nat)>, ghost cs': seq<seq<P2>>)
      requires ix < |wve.ufibs|
      requires wve.Valid() && ftpaths.Valid() && AllValid(u0)
      requires wve.lastcontournumber >= wve.firstcontournumber - 1
      requires SamePlaces(u0, wve.ufibs) && SamePlaces(v0, wve.vfibs)
      requires pths0 <= ftpaths.pths
      requires SeriesOf(ftpaths.pths, ftpaths.brks, pths0, brks0, cs)
      requires |cs| == wve.lastcontournumber - (wve.firstcontournumber - 1)
      requires Contours(u0, v0, budget, starts, cs)
      requires starts == [] || ScanBefore(starts[|starts| - 1], (ix, 0))
      requires wve.lastcontournumber == wve.firstcontournumber - 1 ==> ftpaths.z == z0
      requires wve.lastcontournumber > wve.firstcontournumber - 1 ==> ftpaths.z == z
      requires FamilyApart(u0) ==> ScannedUpTo(wve.ufibs, wve.firstcontournumber, ix, 0)
      modifies wve, ftpaths
      ensures wve.firstcontournumber == old(wve.firstcontournumber)
      ensures wve.lastcontournumber >= old(wve.lastcontournumber)
      ensures wve.urg == old(wve.urg) && wve.vrg == old(wve.vrg)
      ensures wve.Valid() && ftpaths.Valid()
      ensures SamePlaces(u0, wve.ufibs) && SamePlaces(v0, wve.vfibs)
      ensures pths0 <= ftpaths.pths
      ensures Contours(u0, v0, budget, starts', cs')
      ensures wve.lastcontournumber == wve.firstcontournumber - 1 ==> ftpaths.z == z0
      ensures ok ==>
        && SeriesOf(ftpaths.pths, ftpaths.brks, pths0, brks0, cs')
        && |cs'| == wve.lastcontournumber - (wve.firstcontournumber - 1)
        && (starts' == [] || ScanBefore(starts'[|starts'| - 1], (ix + 1, 0)))
        && (wve.lastcontournumber > wve.firstcontournumber - 1 ==> ftpaths.z == z)
        && (FamilyApart(u0) ==> ScannedUpTo(wve.ufibs, wve.firstcontournumber, ix + 1, 0))
    {
      ghost var f := wve.firstcontournumber;
      starts', cs' := starts, cs;
      var i := 0;
      while i < |wve.ufibs[ix].ep|
        invariant 0 <= ix < |wve.ufibs| && 0 <= i <= |wve.ufibs[ix].ep|
        invariant wve.Valid() && ftpaths.Valid()
        invariant wve.firstcontournumber == f && wve.lastcontournumber >= old(wve.lastcontournumber)
        invariant wve.urg == old(wve.urg) && wve.vrg == old(wve.vrg)
        invariant SamePlaces(u0, wve.ufibs) && SamePlaces(v0, wve.vfibs)
        invariant pths0 <= ftpaths.pths
        invariant SeriesOf(ftpaths.pths, ftpaths.brks, pths0, brks0, cs')
        invariant |cs'| == wve.lastcontournumber - (f - 1)
        invariant Contours(u0, v0, budget, starts', cs')
        invariant starts' == [] || ScanBefore(starts'[|starts'| - 1], (ix, i))
        invariant wve.lastcontournumber == f - 1 ==> ftpaths.z == z0
        invariant wve.lastcontournumber > f - 1 ==> ftpaths.z == z
        invariant FamilyApart(u0) ==> ScannedUpTo(wve.ufibs, f, ix, i)
        decreases |wve.ufibs[ix].ep| - i
      {
        ok, starts', cs' := ScanStep(ftpaths, ix, i, budget, u0, v0, pths0, brks0, z0, starts', cs');
        if !ok {
          return;
        }
        i := i + 1;
      }
      ok := true;
    }

    /**
      * One round of ScanFibre's loop: scans endpoint i of u-fibre ix and
      * records the contour traced from it, if any.  Its contract carries the
      * loop's invariants from slot i to slot i + 1.
      */
    method ScanStep(ftpaths: PathXSeries, ix: nat, i: nat, budget: nat, ghost u0: seq<Fibre>, ghost v0: seq<Fibre>,
                    ghost pths0: seq<P2>, ghost brks0: seq<int>, ghost z0: real,
                    ghost starts: seq<(nat, nat)>, ghost cs: seq<seq<P2>>)
        returns (ok: bool, ghost starts': seq<(nat, nat)>, ghost cs': seq<seq<P2>>)
      requires ix < |wve.ufibs| && i < |wve.ufibs[ix].ep|
      requires wve.Valid() && ftpaths.Valid() && AllValid(u0)
      requires wve.lastcontournumber >= wve.firstcontournumber - 1
      requires SamePlaces(u0, wve.ufibs) && SamePlaces(v0, wve.vfibs)
      requires pths0 <= ftpaths.pths
      requires SeriesOf(ftpaths.pths, ftpaths.brks, pths0, brks0, cs)
      requires |cs| == wve.lastcontournumber - (wve.firstcontournumber - 1)
      requires Contours(u0, v0, budget, starts, cs)
      requires starts == [] || ScanBefore(starts[|starts| - 1], (ix, i))
      requires wve.lastcontournumber == wve.firstcontournumber - 1 ==> ftpaths.z == z0
      requires wve.lastcontournumber > wve.firstcontournumber - 1 ==> ftpaths.z == z
      requires FamilyApart(u0) ==> ScannedUpTo(wve.ufibs, wve.firstcontournumber, ix, i)
      modifies wve, ftpaths
      ensures wve.firstcontournumber == old(wve.firstcontournumber)
      ensures wve.lastcontournumber >= old(wve.lastcontournumber)
      ensures wve.urg == old(wve.urg) && wve.vrg == old(wve.vrg)
      ensures wve.Valid() && ftpaths.Valid()
      ensures SamePlaces(u0, wve.ufibs) && SamePlaces(v0, wve.vfibs)
      ensures |wve.ufibs[ix].ep| == |old(wve.ufibs[ix].ep)|
      ensures pths0 <= ftpaths.pths
      ensures Contours(u0, v0, budget, starts', cs')
      ensures wve.lastcontournumber == wve.firstcontournumber - 1 ==> ftpaths.z == z0
      ensures ok ==>
        && SeriesOf(ftpaths.pths, ftpaths.brks, pths0, brks0, cs')
        && |cs'| == wve.lastcontournumber - (wve.firstcontournumber - 1)
        && (starts' == [] || ScanBefore(starts'[|starts'| - 1], (ix, i + 1)))
        && (wve.lastcontournumber > wve.firstcontournumber - 1 ==> ftpaths.z == z)
        && (FamilyApart(u0) ==> ScannedUpTo(wve.ufibs, wve.firstcontournumber, ix, i + 1))
    {
      starts', cs' := starts, cs;
      ghost var pths1, brks1 := ftpaths.pths, ftpaths.brks;
      var traced, pth;
      ok, traced, pth := ScanEndpoint(ftpaths, ix, i, budget, u0, v0);
      if ok && traced {
        AppendSeries(pths1, brks1, pths0, brks0, cs, pth);
        ContoursExtend(u0, v0, budget, starts, cs, ix, i, pth);
        starts', cs' := starts + [(ix, i)], cs + [pth];
      }
    }

    /**
      * One step of MakeContours' scan: traces the contour from endpoint i of
      * u-fibre ix if it is still unvisited, and appends it to ftpaths.
      * traced says whether it did; pth is the contour appended.
      */
    method ScanEndpoint(ftpaths: PathXSeries, ix: nat, i: nat, budget: nat, ghost u0: seq<Fibre>, ghost v0: seq<Fibre>)
        returns (ok: bool, traced: bool, pth: seq<P2>)
      requires ix < |wve.ufibs| && i < |wve.ufibs[ix].ep|
      requires wve.Valid() && ftpaths.Valid() && AllValid(u0)
      requires wve.lastcontournumber >= wve.firstcontournumber - 1
      requires SamePlaces(u0, wve.ufibs) && SamePlaces(v0, wve.vfibs)
      requires FamilyApart(u0) ==> ScannedUpTo(wve.ufibs, wve.firstcontournumber, ix, i)
      modifies wve, ftpaths
      ensures wve.firstcontournumber == old(wve.firstcontournumber)
      ensures wve.lastcontournumber >= old(wve.lastcontournumber)
      ensures wve.urg == old(wve.urg) && wve.vrg == old(wve.vrg)
      ensures wve.Valid() && ftpaths.Valid()
      ensures SamePlaces(u0, wve.ufibs) && SamePlaces(v0, wve.vfibs)
      ensures ok ==> wve.lastcontournumber == old(wve.lastcontournumber) + (if traced then 1 else 0)
      ensures ok && traced ==>
        && pth != [] && WalkedPath(u0, v0, ScanCursor(u0, ix, i), budget, pth)
        && ftpaths.pths == old(ftpaths.pths) + pth && ftpaths.z == z
        && ftpaths.brks == old(ftpaths.brks) + [|old(ftpaths.pths)| + |pth|]
      ensures !(ok && traced) ==>
        ftpaths.pths == old(ftpaths.pths) && ftpaths.brks == old(ftpaths.brks) && ftpaths.z == old(ftpaths.z)
      ensures ok && FamilyApart(u0) ==> ScannedUpTo(wve.ufibs, wve.firstcontournumber, ix, i + 1)
    {
      ghost var us, vs := wve.ufibs, wve.vfibs;
      traced, pth := false, [];
      var e := wve.ufibs[ix].ep[i];
      var alscan := Cursor(UFibre, e.blower, e.w, wve.ufibs[ix].wp, ix);
      assert WellFormed(us[ix].ep);
      if FamilyApart(u0) {
        assert SlotsApart(u0[ix].ep);
        SlotsApartSamePositions(u0[ix].ep, us[ix].ep);
      }
      SlotFound(us[ix].ep, i);
      var slot := wve.ContourNumber(alscan);
      if slot.Nothing? {
        return false, traced, pth;
      }
      if wve.FibreOf(alscan).ep[slot.value].contournumber >= wve.firstcontournumber {
        return true, traced, pth;
      }
      var tok;
      pth, tok := TraceFrom(alscan, budget, ix, i, u0, v0);
      if !tok {
        return false, traced, pth;
      }
      ftpaths.Append(pth);
      ftpaths.z := z;
      ok, traced := true, true;
    }

    /**
      * TrackContour from endpoint i of u-fibre ix, with what MakeContours'
      * scan needs to know of it.
      */
    method TraceFrom(al0: Cursor, budget: nat, ghost ix: nat, ghost i: nat, ghost u0: seq<Fibre>, ghost v0: seq<Fibre>)
      returns (pth: seq<P2>, ok: bool)
      requires wve.Valid() && wve.firstcontournumber <= wve.lastcontournumber + 1
      requires ix < |wve.ufibs| && i < |wve.ufibs[ix].ep|
      requires al0 == Cursor(UFibre, wve.ufibs[ix].ep[i].blower, wve.ufibs[ix].ep[i].w, wve.ufibs[ix].wp, ix)
      requires SamePlaces(u0, wve.ufibs) && SamePlaces(v0, wve.vfibs)
      requires FamilyApart(u0) ==> ScannedUpTo(wve.ufibs, wve.firstcontournumber, ix, i)
      requires AllValid(u0)
      modifies wve
      ensures wve.urg == old(wve.urg) && wve.vrg == old(wve.vrg)
      ensures wve.firstcontournumber == old(wve.firstcontournumber)
      ensures wve.lastcontournumber == old(wve.lastcontournumber) + 1
      ensures wve.Valid()
      ensures SamePlaces(u0, wve.ufibs) && SamePlaces(v0, wve.vfibs)
      ensures ok && FamilyApart(u0) ==> ScannedUpTo(wve.ufibs, wve.firstcontournumber, ix, i + 1)
      ensures ok ==> pth != [] && WalkedPath(u0, v0, ScanCursor(u0, ix, i), budget, pth)
    {
      ghost var us, vs := wve.ufibs, wve.vfibs;
      pth, ok := wve.TrackContour(al0, budget);
      TrackedScan(u0, v0, us, vs, wve.ufibs, wve.vfibs, al0, budget, pth, ok,
                  wve.firstcontournumber, wve.lastcontournumber, ix, i);
      if ok {
        TracedWalked(us, vs, al0, budget, pth, wve.ufibs, wve.vfibs, wve.lastcontournumber);
        ScanCursorSamePlaces(u0, us, ix, i);
        WalkedSamePlaces(u0, v0, us, vs, al0, budget, pth);
      }
    }
  }
}
