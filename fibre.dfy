// The fibre S1: one probe line of a weave, holding the endpoint list of the
// intervals cut out of it, its perpendicular position and its extent.
// Every operation changes the list in place as the C++ code does and is
// proved to leave exactly the list the matching function of Endpoints
// describes.

module Fibres {
  import opened Geom
  import opened Endpoints

  class S1 {
    var ep: seq<B1>
    /** The perpendicular position of the fibre. */
    var wp: real
    /** The extent of the fibre along its own direction. */
    var wrg: I1
    var ftype: FibreType

    /** The invariant S1::Check asserts. */
    predicate Valid()
      reads this
    {
      WellFormed(ep)
    }

    /** S1(): an empty fibre on the unit extent. */
    constructor ()
      ensures ep == [] && wp == 0.0 && wrg == I1unit && ftype == NoFibre
      ensures Valid()
    {
      ep := [];
      wp := 0.0;
      wrg := I1unit;
      ftype := NoFibre;
    }

    /** S1(lwp, lwrg, lftype): an empty fibre at lwp over lwrg. */
    constructor Make(lwp: real, lwrg: I1, lftype: FibreType)
      ensures ep == [] && wp == lwp && wrg == lwrg && ftype == lftype
      ensures Valid()
    {
      ep := [];
      wp := lwp;
      wrg := lwrg;
      ftype := lftype;
    }

    /** Reuses the fibre for a new position, extent and family, emptied. */
    method SetNew(lwp: real, lwrg: I1, lftype: FibreType)
      modifies this
      ensures ep == [] && wp == lwp && wrg == lwrg && ftype == lftype
      ensures Valid()
    {
      wp := lwp;
      wrg := lwrg;
      ftype := lftype;
      ep := [];
    }

    /**
      * Whether the list is well formed.  An odd length returns false as in
      * the code; a violated ASSERT on the order or on a pair's flags is
      * reported as false too.
      */
    method Check() returns (ok: bool)
      ensures ok <==> WellFormed(ep)
    {
      if |ep| % 2 != 0 {
        return false;
      }
      var i := 1;
      while i < |ep|
        invariant 1 <= i <= |ep| || (ep == [] && i == 1)
        invariant forall k :: 0 < k < i && k < |ep| ==> ep[k - 1].w <= ep[k].w
      {
        if !(ep[i - 1].w <= ep[i].w) {
          assert !InOrder(ep, i - 1, i);
          return false;
        }
        i := i + 1;
      }
      AdjacentSorted(ep);
      i := 1;
      while i < |ep|
        invariant i % 2 == 1 && (i <= |ep| + 1)
        invariant forall k :: 0 <= k < i - 1 && k < |ep| ==> ep[k].blower == (k % 2 == 0)
      {
        if !(ep[i - 1].blower && !ep[i].blower) {
          return false;
        }
        i := i + 2;
      }
      return true;
    }

    /**
      * The indices of the first endpoint at or above rg.lo and of the last
      * endpoint at or below rg.hi, scanning down no further than the first.
      */
    method Loclohi(rg: I1) returns (il: int, ir: int)
      ensures (il, ir) == Lohi(ep, rg.lo, rg.hi)
    {
      il, ir := EndpointsLoclohi(ep, rg);
    }

    /** S1::Merge(rglo, binterncellboundlo, rghi, binterncellboundhi): adds [lo, hi] to the covered set. */
    method Merge(lo: real, bl: bool, hi: real, bh: bool)
      requires Valid() && lo <= hi
      modifies this
      ensures ep == Merged(old(ep), lo, bl, hi, bh)
      ensures Valid() && IsUnion(ep, old(ep), lo, hi)
      ensures wp == old(wp) && wrg == old(wrg) && ftype == old(ftype)
    {
      ep := MergeEndpoints(ep, lo, bl, hi, bh);
    }

    /** S1::Merge(rg) with both new endpoints marked as not on an internal cell boundary. */
    method MergeRG(rg: I1)
      requires Valid() && rg.lo <= rg.hi
      modifies this
      ensures ep == Merged(old(ep), rg.lo, false, rg.hi, false)
      ensures Valid() && IsUnion(ep, old(ep), rg.lo, rg.hi)
      ensures wp == old(wp) && wrg == old(wrg) && ftype == old(ftype)
    {
      Merge(rg.lo, false, rg.hi, false);
    }

    /** S1::Minus(rglo, binterncellboundlo, rghi, binterncellboundhi): cuts [lo, hi] out of the covered set. */
    method Minus(lo: real, bl: bool, hi: real, bh: bool)
      requires Valid() && lo <= hi
      modifies this
      ensures ep == Minused(old(ep), lo, bl, hi, bh)
      ensures Valid() && IsDifference(ep, old(ep), lo, hi)
      ensures wp == old(wp) && wrg == old(wrg) && ftype == old(ftype)
    {
      ghost var e := ep;
      var il, ir := Loclohi(I1(lo, hi));
      MinusedAtLohi(e, lo, bl, hi, bh, il, ir);
      if il == |ep| {
        MinusOffEnd(e, il, ir, NewB1(lo, false, bl), NewB1(hi, true, bh));
      } else if ir < il {
        if !ep[il].blower {
          ep := ep[..il] + [NewB1(hi, true, bh)] + ep[il..];
          ep := ep[..il] + [NewB1(lo, false, bl)] + ep[il..];
        }
        MinusBetween(e, il, ir, NewB1(lo, false, bl), NewB1(hi, true, bh), ep);
      } else {
        ghost var il0, ir0 := il, ir;
        var L, H := NewB1(lo, false, bl), NewB1(hi, true, bl);
        if !ep[il].blower {
          ep := ep[il := L];
          il := il + 1;
        }
        if ep[ir].blower {
          ep := ep[ir := H];
          ir := ir - 1;
        }
        ghost var e2 := ep;
        if il <= ir {
          ep := ep[..il] + ep[ir + 1..];
        }
        StepsReplaced(e, e2, il0, ir0, il, ir, il0 % 2 == 1, L, ir0 % 2 == 0, H);
      }
      MinusDifference(e, lo, bl, hi, bh);
    }

    /** S1::Minus(rg) with both new endpoints marked as not on an internal cell boundary. */
    method MinusRG(rg: I1)
      requires Valid() && rg.lo <= rg.hi
      modifies this
      ensures ep == Minused(old(ep), rg.lo, false, rg.hi, false)
      ensures Valid() && IsDifference(ep, old(ep), rg.lo, rg.hi)
      ensures wp == old(wp) && wrg == old(wrg) && ftype == old(ftype)
    {
      Minus(rg.lo, false, rg.hi, false);
    }

    /** Whether some pair of the list encloses lw. */
    method Contains(lw: real) returns (b: bool)
      ensures b <==> Covers(ep, lw)
    {
      b := EndpointsContain(ep, lw);
    }

    /**
      * The first pair of the list that encloses lw, as an interval.  When
      * none does the code fails an ASSERT and returns the unit interval.
      */
    method ContainsRG(lw: real) returns (r: I1)
      ensures r == PairRG(ep, lw)
    {
      r := EndpointsContainRG(ep, lw);
    }

    /**
      * S1::Invert: complements the covered set within the extent wrg by
      * flipping every flag and then fixing up both ends.
      */
    method Invert()
      requires Valid()
      modifies this
      ensures ep == Inverted(old(ep), wrg)
      ensures Valid() <==> wrg.lo <= wrg.hi && AllWithin(old(ep), wrg.lo, wrg.hi)
      ensures Valid() ==> AllWithin(ep, wrg.lo, wrg.hi) && IsComplement(ep, old(ep), wrg)
      ensures wp == old(wp) && wrg == old(wrg) && ftype == old(ftype)
    {
      InvertedWellFormed(ep, wrg);
      if wrg.lo <= wrg.hi && AllWithin(ep, wrg.lo, wrg.hi) {
        InvertedValid(ep, wrg);
        InvertedComplement(ep, wrg);
      }
      ep := InvertEndpoints(ep, wrg);
    }

    /** S1::SetAllCutCodes: every endpoint gets cut code c. */
    method SetAllCutCodes(c: int)
      requires Valid()
      modifies this
      ensures ep == WithCutCodes(old(ep), c)
      ensures Valid() && SameCover(ep, old(ep))
      ensures wp == old(wp) && wrg == old(wrg) && ftype == old(ftype)
    {
      CutCodesKeep(ep, c);
      ep := SetEndpointCutCodes(ep, c);
    }
  }

  // The loops of S1's queries and whole-list updates, on the endpoint list
  // itself; the weave, which holds its fibres by value, runs them too.

  /** S1::Loclohi on the list ep. */
  method EndpointsLoclohi(ep: seq<B1>, rg: I1) returns (il: int, ir: int)
    ensures (il, ir) == Lohi(ep, rg.lo, rg.hi)
  {
    il := 0;
    while il < |ep| && !(ep[il].w >= rg.lo)
      invariant 0 <= il <= |ep|
      invariant FirstAtLeast(ep, rg.lo, il) == FirstAtLeast(ep, rg.lo, 0)
    {
      il := il + 1;
    }
    if il < |ep| {
      ir := |ep| - 1;
      while ir >= il && !(ep[ir].w <= rg.hi)
        invariant il - 1 <= ir < |ep|
        invariant LastAtMost(ep, rg.hi, il, ir) == LastAtMost(ep, rg.hi, il, |ep| - 1)
      {
        ir := ir - 1;
      }
    } else {
      ir := il - 1;
    }
  }

  /** S1::Merge's insertions and erasures on the list e. */
  method MergeEndpoints(e: seq<B1>, lo: real, bl: bool, hi: real, bh: bool) returns (ep: seq<B1>)
    requires WellFormed(e) && lo <= hi
    ensures ep == Merged(e, lo, bl, hi, bh)
    ensures WellFormed(ep) && IsUnion(ep, e, lo, hi)
  {
    ep := e;
    var L, H := NewB1(lo, true, bl), NewB1(hi, false, bh);
    var il, ir := EndpointsLoclohi(ep, I1(lo, hi));
    MergedAtLohi(e, lo, bl, hi, bh, il, ir);
    if il == |ep| {
      ep := ep + [L, H];
      MergeOffEnd(e, il, ir, L, H);
    } else if il > ir {
      if ep[il].blower {
        ep := ep[..il] + [H, H] + ep[il..];
        ep := ep[il := L];
      }
      MergeBetween(e, il, ir, L, H, ep);
    } else {
      ghost var il0, ir0 := il, ir;
      if !ep[ir].blower {
        ep := ep[ir := H];
        ir := ir - 1;
      }
      if ep[il].blower {
        ep := ep[il := L];
        il := il + 1;
      }
      ghost var e2 := ep;
      if il <= ir {
        ep := ep[..il] + ep[ir + 1..];
      }
      StepsReplaced(e, e2, il0, ir0, il, ir, il0 % 2 == 0, L, ir0 % 2 == 1, H);
    }
    MergeUnion(e, lo, bl, hi, bh);
  }

  /** S1::Contains on the list ep. */
  method EndpointsContain(ep: seq<B1>, lw: real) returns (b: bool)
    ensures b <==> Covers(ep, lw)
  {
    var i := 1;
    while i < |ep|
      invariant i % 2 == 1 && i <= |ep| + 1
      invariant forall k :: 0 <= k && 2 * k + 1 < i ==> !InPair(ep, k, lw)
    {
      if ep[i - 1].w <= lw && ep[i].w >= lw {
        assert InPair(ep, (i - 1) / 2, lw);
        return true;
      }
      i := i + 2;
    }
    return false;
  }

  /** S1::ContainsRG on the list ep. */
  method EndpointsContainRG(ep: seq<B1>, lw: real) returns (r: I1)
    ensures r == PairRG(ep, lw)
  {
    var i := 1;
    while i < |ep|
      invariant i % 2 == 1 && i <= |ep| + 1
      invariant FirstPairFrom(ep, lw, (i - 1) / 2) == FirstPairFrom(ep, lw, 0)
    {
      if ep[i - 1].w <= lw && ep[i].w >= lw {
        return I1(ep[i - 1].w, ep[i].w);
      }
      i := i + 2;
    }
    return I1unit;
  }

  /** S1::Invert's loop and end fix-ups on the list e, within the extent wrg. */
  method InvertEndpoints(e: seq<B1>, wrg: I1) returns (ep: seq<B1>)
    requires |e| % 2 == 0
    ensures ep == Inverted(e, wrg)
  {
    if |e| == 0 {
      return [ExtentLo(wrg), ExtentHi(wrg)];
    }
    ep := e;
    var i := 0;
    while i < |ep|
      invariant 0 <= i <= |ep| == |e|
      invariant forall k :: 0 <= k < i ==> ep[k] == e[k].(blower := !e[k].blower)
      invariant forall k :: i <= k < |e| ==> ep[k] == e[k]
    {
      ep := ep[i := ep[i].(blower := !ep[i].blower)];
      i := i + 1;
    }
    assert ep == Flip(e);
    if ep[0].w == wrg.lo {
      ep := ep[1..];
    } else {
      ep := [ExtentLo(wrg)] + ep;
    }
    ghost var f1 := ep;
    if ep[|ep| - 1].w == wrg.hi {
      ep := ep[..|ep| - 1];
    } else {
      ep := ep + [ExtentHi(wrg)];
    }
    InvertSteps(e, wrg, f1, ep);
  }

  /** S1::SetAllCutCodes's loop on the list e. */
  method SetEndpointCutCodes(e: seq<B1>, c: int) returns (ep: seq<B1>)
    ensures ep == WithCutCodes(e, c)
  {
    ep := e;
    var i := 0;
    while i < |ep|
      invariant 0 <= i <= |ep| == |e|
      invariant forall k :: 0 <= k < i ==> ep[k] == e[k].(cutcode := c)
      invariant forall k :: i <= k < |e| ==> ep[k] == e[k]
    {
      ep := ep[i := ep[i].(cutcode := c)];
      i := i + 1;
    }
  }
}
