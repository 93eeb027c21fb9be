// The weave S2weave: a family of u-fibres (lines of constant u, each
// running along v) and a family of v-fibres over one rectangle.  A contour
// of the covered area is followed by a cursor that runs along the covered
// interval of its fibre and turns onto the first perpendicular fibre that
// crosses that interval still inside the area; where none does it has
// reached an endpoint, which it stamps with the number of the contour.

module Weave {
  import opened Maybe
  import opened Geom
  import opened Endpoints
  import opened Fibres

  // ---------------------------------------------------------------------
  // The cursor

  /** S2weaveB1iter: position w along fibre ixwp of family ftype, a fibre that sits at wp. */
  datatype Cursor = Cursor(ftype: FibreType, blower: bool, w: real, wp: real, ixwp: int)

  /** The point of the rectangle under the cursor; a u-fibre is the line u = wp. */
  function GetPoint(al: Cursor): P2 {
    if al.ftype == UFibre then P2(al.wp, al.w) else P2(al.w, al.wp)
  }

  /** The other family; anything that is not a u-fibre counts as a v-fibre. */
  function Perpendicular(t: FibreType): FibreType {
    if t == UFibre then VFibre else UFibre
  }

  /**
    * The cursor after turning onto fibre ix of the other family, which sits
    * at nwp.  It stands where its old fibre passes nwp, and blower flips
    * exactly when it enters a u-fibre.
    */
  function Turn(al: Cursor, ix: nat, nwp: real): (r: Cursor)
    ensures r.ftype == Perpendicular(al.ftype) && r.ixwp == ix && r.wp == nwp
    ensures GetPoint(r) == GetPoint(al.(w := nwp))
    ensures r.blower == (if r.ftype == UFibre then !al.blower else al.blower)
  {
    var t := Perpendicular(al.ftype);
    Cursor(t, if t == UFibre then !al.blower else al.blower, al.wp, nwp, ix)
  }

  // ---------------------------------------------------------------------
  // What the walk reads of a fibre

  /**
    * A fibre as the weave holds it, by value: its endpoint list and its
    * position.  Its extent is the weave's range of the other family and its
    * type the family it belongs to, both fixed when the weave is built.
    */
  datatype Fibre = Fibre(ep: seq<B1>, wp: real)

  /** The family a cursor of type t runs on. */
  function Family<T>(us: seq<T>, vs: seq<T>, t: FibreType): seq<T> {
    if t == UFibre then us else vs
  }

  /** b equals a except that some endpoints now carry contour number n. */
  predicate Restamped(a: seq<B1>, b: seq<B1>, n: int) {
    |a| == |b| && forall j :: 0 <= j < |a| ==> b[j] == a[j] || b[j] == a[j].(contournumber := n)
  }

  /** Restamped, fibre by fibre, with every fibre in place. */
  predicate RestampedFamily(vs: seq<Fibre>, vs': seq<Fibre>, n: int) {
    |vs| == |vs'| && forall i :: 0 <= i < |vs| ==> vs'[i].wp == vs[i].wp && Restamped(vs[i].ep, vs'[i].ep, n)
  }

  /** The same fibres at the same places with endpoints at the same positions. */
  predicate SamePlaces(vs: seq<Fibre>, vs': seq<Fibre>) {
    |vs| == |vs'| && forall i :: 0 <= i < |vs| ==> vs'[i].wp == vs[i].wp && SamePositions(vs[i].ep, vs'[i].ep)
  }

  /** Stamping keeps positions and flags, hence the invariant and the covered set. */
  lemma RestampedKeeps(a: seq<B1>, b: seq<B1>, n: int)
    requires Restamped(a, b, n)
    ensures SamePositions(a, b)
    ensures WellFormed(a) <==> WellFormed(b)
    ensures SameCover(a, b)
  {
    SamePositionsSorted(a, b);
    forall x
      ensures Covers(a, x) <==> Covers(b, x)
    {
      CoversSamePositions(a, b, x);
    }
  }

  lemma CoversSamePositions(a: seq<B1>, b: seq<B1>, x: real)
    requires SamePositions(a, b)
    ensures Covers(a, x) <==> Covers(b, x)
  {
    if Covers(a, x) {
      var k :| InPair(a, k, x);
      assert InPair(b, k, x);
    }
    if Covers(b, x) {
      var k :| InPair(b, k, x);
      assert InPair(a, k, x);
    }
  }

  lemma {:induction false} FirstPairSamePositions(a: seq<B1>, b: seq<B1>, x: real, k: nat)
    requires SamePositions(a, b)
    ensures FirstPairFrom(a, x, k) == FirstPairFrom(b, x, k)
    decreases |a| - 2 * k
  {
    if 2 * k + 1 < |a| {
      FirstPairSamePositions(a, b, x, k + 1);
    }
  }

  // ---------------------------------------------------------------------
  // FindInwards

  /** wp lies inward of lwp in the direction of the scan (or at it, on the first leg). */
  predicate Inward(wp: real, lwp: real, blower: bool, bedge: bool) {
    if blower then (if bedge then wp >= lwp else wp > lwp)
    else (if bedge then wp <= lwp else wp < lwp)
  }

  /** wp lies beyond lwpend in the direction of the scan, where the scan stops. */
  predicate Past(wp: real, lwpend: real, blower: bool) {
    if blower then wp > lwpend else wp < lwpend
  }

  /** Fibre v is one FindInwards accepts: inward of lwp and covering lw. */
  ghost predicate Hit(v: Fibre, lw: real, blower: bool, lwp: real, bedge: bool) {
    Inward(v.wp, lwp, blower, bedge) && Covers(v.ep, lw)
  }

  /** The upward scan from index i. */
  ghost function InwardsUp(vs: seq<Fibre>, lw: real, lwp: real, lwpend: real, bedge: bool, i: nat): (r: Option<nat>)
    requires i <= |vs|
    ensures r.Just? ==> i <= r.value < |vs|
    decreases |vs| - i
  {
    if i == |vs| then Nothing
    else if vs[i].wp > lwpend then Nothing
    else if Hit(vs[i], lw, true, lwp, bedge) then Just(i)
    else InwardsUp(vs, lw, lwp, lwpend, bedge, i + 1)
  }

  /** The downward scan from index i. */
  ghost function InwardsDown(vs: seq<Fibre>, lw: real, lwp: real, lwpend: real, bedge: bool, i: int): (r: Option<nat>)
    requires -1 <= i < |vs|
    ensures r.Just? ==> r.value <= i
    decreases i + 1
  {
    if i < 0 then Nothing
    else if vs[i].wp < lwpend then Nothing
    else if Hit(vs[i], lw, false, lwp, bedge) then Just(i)
    else InwardsDown(vs, lw, lwp, lwpend, bedge, i - 1)
  }

  /** The fibre FindInwards picks, scanning up when blower and down otherwise. */
  ghost function Inwards(vs: seq<Fibre>, lw: real, blower: bool, lwp: real, lwpend: real, bedge: bool): (r: Option<nat>)
    ensures r.Just? ==> r.value < |vs|
  {
    if |vs| == 0 then Nothing
    else if blower then InwardsUp(vs, lw, lwp, lwpend, bedge, 0)
    else InwardsDown(vs, lw, lwp, lwpend, bedge, |vs| - 1)
  }

  /** Index j is scanned before index i. */
  predicate Before(j: int, i: int, blower: bool) {
    if blower then j < i else j > i
  }

  /** The scan reaches index i: no fibre up to it in scan order lies past lwpend. */
  ghost predicate Reaches(vs: seq<Fibre>, lwpend: real, blower: bool, i: int) {
    forall j :: 0 <= j < |vs| && (j == i || Before(j, i, blower)) ==> !Past(vs[j].wp, lwpend, blower)
  }

  /**
    * FindInwards returns the first fibre in scan order that it reaches and
    * that is a hit; it returns nothing exactly when no reached fibre is one.
    */
  lemma InwardsChar(vs: seq<Fibre>, lw: real, blower: bool, lwp: real, lwpend: real, bedge: bool)
    ensures var r := Inwards(vs, lw, blower, lwp, lwpend, bedge);
      && (r.Just? ==> Reaches(vs, lwpend, blower, r.value) && Hit(vs[r.value], lw, blower, lwp, bedge)
                      && forall j :: 0 <= j < |vs| && Before(j, r.value, blower) ==> !Hit(vs[j], lw, blower, lwp, bedge))
      && (r.Nothing? ==> forall i :: 0 <= i < |vs| && Reaches(vs, lwpend, blower, i) ==> !Hit(vs[i], lw, blower, lwp, bedge))
  {
    if |vs| > 0 {
      if blower {
        InwardsUpChar(vs, lw, lwp, lwpend, bedge, 0);
      } else {
        InwardsDownChar(vs, lw, lwp, lwpend, bedge, |vs| - 1);
      }
    }
  }

  lemma {:induction false} InwardsUpChar(vs: seq<Fibre>, lw: real, lwp: real, lwpend: real, bedge: bool, i: nat)
    requires i <= |vs|
    requires forall j :: 0 <= j < i ==> !Past(vs[j].wp, lwpend, true) && !Hit(vs[j], lw, true, lwp, bedge)
    ensures var r := InwardsUp(vs, lw, lwp, lwpend, bedge, i);
      && (r.Just? ==> Reaches(vs, lwpend, true, r.value) && Hit(vs[r.value], lw, true, lwp, bedge)
                      && forall j :: 0 <= j < |vs| && Before(j, r.value, true) ==> !Hit(vs[j], lw, true, lwp, bedge))
      && (r.Nothing? ==> forall k :: 0 <= k < |vs| && Reaches(vs, lwpend, true, k) ==> !Hit(vs[k], lw, true, lwp, bedge))
    decreases |vs| - i
  {
    if i < |vs| {
      if vs[i].wp > lwpend {
        forall k | 0 <= k < |vs| && Reaches(vs, lwpend, true, k)
          ensures !Hit(vs[k], lw, true, lwp, bedge)
        {
          assert k < i;
        }
      } else if !Hit(vs[i], lw, true, lwp, bedge) {
        InwardsUpChar(vs, lw, lwp, lwpend, bedge, i + 1);
      }
    }
  }

  lemma {:induction false} InwardsDownChar(vs: seq<Fibre>, lw: real, lwp: real, lwpend: real, bedge: bool, i: int)
    requires -1 <= i < |vs|
    requires forall j :: i < j < |vs| ==> !Past(vs[j].wp, lwpend, false) && !Hit(vs[j], lw, false, lwp, bedge)
    ensures var r := InwardsDown(vs, lw, lwp, lwpend, bedge, i);
      && (r.Just? ==> Reaches(vs, lwpend, false, r.value) && Hit(vs[r.value], lw, false, lwp, bedge)
                      && forall j :: 0 <= j < |vs| && Before(j, r.value, false) ==> !Hit(vs[j], lw, false, lwp, bedge))
      && (r.Nothing? ==> forall k :: 0 <= k < |vs| && Reaches(vs, lwpend, false, k) ==> !Hit(vs[k], lw, false, lwp, bedge))
    decreases i + 1
  {
    if i >= 0 {
      if vs[i].wp < lwpend {
        forall k | 0 <= k < |vs| && Reaches(vs, lwpend, false, k)
          ensures !Hit(vs[k], lw, false, lwp, bedge)
        {
          assert k > i;
        }
      } else if !Hit(vs[i], lw, false, lwp, bedge) {
        InwardsDownChar(vs, lw, lwp, lwpend, bedge, i - 1);
      }
    }
  }

  lemma {:induction false} InwardsUpSame(vs: seq<Fibre>, vs': seq<Fibre>, lw: real, lwp: real, lwpend: real, bedge: bool, i: nat)
    requires SamePlaces(vs, vs') && i <= |vs|
    ensures InwardsUp(vs, lw, lwp, lwpend, bedge, i) == InwardsUp(vs', lw, lwp, lwpend, bedge, i)
    decreases |vs| - i
  {
    if i < |vs| {
      CoversSamePositions(vs[i].ep, vs'[i].ep, lw);
      InwardsUpSame(vs, vs', lw, lwp, lwpend, bedge, i + 1);
    }
  }

  lemma {:induction false} InwardsDownSame(vs: seq<Fibre>, vs': seq<Fibre>, lw: real, lwp: real, lwpend: real, bedge: bool, i: int)
    requires SamePlaces(vs, vs') && -1 <= i < |vs|
    ensures InwardsDown(vs, lw, lwp, lwpend, bedge, i) == InwardsDown(vs', lw, lwp, lwpend, bedge, i)
    decreases i + 1
  {
    if i >= 0 {
      CoversSamePositions(vs[i].ep, vs'[i].ep, lw);
      InwardsDownSame(vs, vs', lw, lwp, lwpend, bedge, i - 1);
    }
  }

  /** The number of values of the size_t index FindInwards counts with. */
  const SizeRange: int := 0x1_0000_0000_0000_0000

  /**
    * The downward scan of FindInwards as written: its index is a size_t, so
    * the test i >= 0 always holds and the step down from 0 wraps to the
    * largest size_t.  A scan that passes index 0 then reads past the end of
    * the family, which is Fail here.
    */
  ghost function InwardsDownAsWritten(vs: seq<Fibre>, lw: real, lwp: real, lwpend: real, bedge: bool, i: nat): Result<Option<nat>>
    requires |vs| < SizeRange
    decreases if i < |vs| then i + 1 else 0
  {
    if i >= |vs| then Fail("wfibs[i] read past the end")
    else if vs[i].wp < lwpend then Ok(Nothing)
    else if Hit(vs[i], lw, false, lwp, bedge) then Ok(Just(i))
    else InwardsDownAsWritten(vs, lw, lwp, lwpend, bedge, (i - 1) % SizeRange)
  }

  /**
    * Where the scan as written stops it agrees with the corrected scan; it
    * fails exactly when no fibre from i down to 0 stops it or is a hit.
    */
  lemma {:induction false} InwardsDownAsWrittenAgrees(vs: seq<Fibre>, lw: real, lwp: real, lwpend: real, bedge: bool, i: nat)
    requires |vs| < SizeRange && i < |vs|
    ensures var r := InwardsDownAsWritten(vs, lw, lwp, lwpend, bedge, i);
      && (r.Ok? ==> r.value == InwardsDown(vs, lw, lwp, lwpend, bedge, i))
      && (r.Fail? <==> forall j :: 0 <= j <= i ==> vs[j].wp >= lwpend && !Hit(vs[j], lw, false, lwp, bedge))
  {
    if vs[i].wp >= lwpend && !Hit(vs[i], lw, false, lwp, bedge) {
      if i == 0 {
        assert InwardsDownAsWritten(vs, lw, lwp, lwpend, bedge, SizeRange - 1).Fail?;
      } else {
        InwardsDownAsWrittenAgrees(vs, lw, lwp, lwpend, bedge, i - 1);
      }
    }
  }

  /**
    * A downward scan over one empty fibre that neither stops it nor is a
    * hit: the corrected scan reports no fibre, the scan as written reads
    * wfibs[SIZE_MAX].
    */
  lemma InwardsDownAsWrittenOverruns()
    ensures var vs := [Fibre([], 0.0)];
      && InwardsDown(vs, 0.0, 1.0, -1.0, true, 0) == Nothing
      && InwardsDownAsWritten(vs, 0.0, 1.0, -1.0, true, 0).Fail?
  {
    var vs := [Fibre([], 0.0)];
    assert !Covers(vs[0].ep, 0.0);
    assert InwardsDownAsWritten(vs, 0.0, 1.0, -1.0, true, SizeRange - 1).Fail?;
  }

  /**
    * FindInwards(wfibs, lw, blower, lwp, lwpend, bedge): the index of the
    * first fibre, upward when blower and downward otherwise, that lies
    * inward of lwp and covers lw, giving up at the first fibre past lwpend.
    */
  method FindInwards(wfibs: seq<Fibre>, lw: real, blower: bool, lwp: real, lwpend: real, bedge: bool) returns (r: Option<nat>)
    ensures r == Inwards(wfibs, lw, blower, lwp, lwpend, bedge)
  {
    ghost var vs := wfibs;
    if |wfibs| == 0 {
      return Nothing;
    }
    if blower {
      var i := 0;
      while i < |wfibs|
        invariant 0 <= i <= |wfibs|
        invariant InwardsUp(vs, lw, lwp, lwpend, bedge, i) == Inwards(vs, lw, blower, lwp, lwpend, bedge)
      {
        if wfibs[i].wp > lwpend {
          break;
        }
        if (if bedge then wfibs[i].wp >= lwp else wfibs[i].wp > lwp) {
          var c := EndpointsContain(wfibs[i].ep, lw);
          if c {
            return Just(i);
          }
        }
        i := i + 1;
      }
    } else {
      var i := |wfibs| - 1;
      while i >= 0
        invariant -1 <= i < |wfibs|
        invariant InwardsDown(vs, lw, lwp, lwpend, bedge, i) == Inwards(vs, lw, blower, lwp, lwpend, bedge)
      {
        if wfibs[i].wp < lwpend {
          break;
        }
        if (if bedge then wfibs[i].wp <= lwp else wfibs[i].wp < lwp) {
          var c := EndpointsContain(wfibs[i].ep, lw);
          if c {
            return Just(i);
          }
        }
        i := i - 1;
      }
    }
    return Nothing;
  }

  // ---------------------------------------------------------------------
  // ContourNumber

  /** The slot an even (lower) or odd (upper) scan from index i finds at position w. */
  function ContourIndexFrom(ep: seq<B1>, w: real, i: nat): (r: Option<nat>)
    ensures r.Just? ==> i <= r.value < |ep| && r.value % 2 == i % 2
    decreases |ep| - i
  {
    if i >= |ep| then Nothing
    else if ep[i].w == w then Just(i)
    else ContourIndexFrom(ep, w, i + 2)
  }

  /** The parity of the slots holding endpoints with the given lower flag. */
  function Parity(blower: bool): nat {
    if blower then 0 else 1
  }

  /** The endpoint ContourNumber refers to: the first lower (or upper) one at w. */
  function ContourIndex(ep: seq<B1>, w: real, blower: bool): Option<nat> {
    ContourIndexFrom(ep, w, Parity(blower))
  }

  /**
    * ContourNumber's slot is the first endpoint of the right parity at w;
    * it finds none exactly when no endpoint of that parity sits at w.
    */
  lemma ContourIndexChar(ep: seq<B1>, w: real, blower: bool)
    ensures var r := ContourIndex(ep, w, blower);
      && (r.Just? ==> r.value < |ep| && r.value % 2 == Parity(blower) && ep[r.value].w == w
                      && forall j :: 0 <= j < r.value && j % 2 == Parity(blower) ==> ep[j].w != w)
      && (r.Nothing? ==> forall j :: 0 <= j < |ep| && j % 2 == Parity(blower) ==> ep[j].w != w)
  {
    ContourIndexFromChar(ep, w, Parity(blower));
  }

  lemma {:induction false} ContourIndexFromChar(ep: seq<B1>, w: real, i: nat)
    requires i < 2
    ensures var r := ContourIndexFrom(ep, w, i);
      && (r.Just? ==> ep[r.value].w == w && forall j :: 0 <= j < r.value && j % 2 == i ==> ep[j].w != w)
      && (r.Nothing? ==> forall j :: 0 <= j < |ep| && j % 2 == i ==> ep[j].w != w)
  {
    ContourIndexScan(ep, w, i, i);
  }

  lemma {:induction false} ContourIndexScan(ep: seq<B1>, w: real, p: nat, i: nat)
    requires p < 2 && i % 2 == p
    requires forall j :: 0 <= j < i && j % 2 == p && j < |ep| ==> ep[j].w != w
    ensures var r := ContourIndexFrom(ep, w, i);
      && (r.Just? ==> ep[r.value].w == w && forall j :: 0 <= j < r.value && j % 2 == p ==> ep[j].w != w)
      && (r.Nothing? ==> forall j :: 0 <= j < |ep| && j % 2 == p ==> ep[j].w != w)
    decreases |ep| - i
  {
    if i < |ep| && ep[i].w != w {
      ContourIndexScan(ep, w, p, i + 2);
    }
  }

  lemma {:induction false} ContourIndexSamePositions(a: seq<B1>, b: seq<B1>, w: real, i: nat)
    requires SamePositions(a, b)
    ensures ContourIndexFrom(a, w, i) == ContourIndexFrom(b, w, i)
    decreases |a| - i
  {
    if i < |a| {
      ContourIndexSamePositions(a, b, w, i + 2);
    }
  }

  // ---------------------------------------------------------------------
  // Advance

  /** The end of the covered interval at w that the cursor runs towards. */
  function WEnd(ep: seq<B1>, w: real, blower: bool): real {
    var frg := PairRG(ep, w);
    if blower then frg.hi else frg.lo
  }

  /** The cursor is on a fibre of its family. */
  predicate OnFamily<T>(us: seq<T>, vs: seq<T>, al: Cursor) {
    0 <= al.ixwp < |Family(us, vs, al.ftype)|
  }

  /**
    * Advance run with at most fuel turns: the cursor at the endpoint where
    * the walk stops, or Nothing when the turns run out first.
    */
  ghost function AdvanceOf(us: seq<Fibre>, vs: seq<Fibre>, al: Cursor, bedge: bool, fuel: nat): Option<Cursor>
    requires OnFamily(us, vs, al)
    decreases fuel
  {
    var wend := WEnd(Family(us, vs, al.ftype)[al.ixwp].ep, al.w, al.blower);
    var other := Family(us, vs, Perpendicular(al.ftype));
    match Inwards(other, al.wp, al.blower, al.w, wend, bedge)
    case Nothing => Just(al.(w := wend, blower := !al.blower))
    case Just(ix) =>
      if fuel == 0 then Nothing
      else AdvanceOf(us, vs, Turn(al, ix, other[ix].wp), false, fuel - 1)
  }

  /** The walk stays on the weave: Advance ends on a fibre of the cursor's families. */
  lemma {:induction false} AdvanceOnFamily(us: seq<Fibre>, vs: seq<Fibre>, al: Cursor, bedge: bool, fuel: nat)
    requires OnFamily(us, vs, al)
    ensures var r := AdvanceOf(us, vs, al, bedge, fuel); r.Just? ==> OnFamily(us, vs, r.value)
    decreases fuel
  {
    var wend := WEnd(Family(us, vs, al.ftype)[al.ixwp].ep, al.w, al.blower);
    var other := Family(us, vs, Perpendicular(al.ftype));
    var lix := Inwards(other, al.wp, al.blower, al.w, wend, bedge);
    if lix.Just? && fuel > 0 {
      AdvanceOnFamily(us, vs, Turn(al, lix.value, other[lix.value].wp), false, fuel - 1);
    }
  }

  /** One round of Advance's loop: stop at the end of the interval, give up, or turn. */
  lemma AdvanceUnfold(us: seq<Fibre>, vs: seq<Fibre>, al: Cursor, bedge: bool, fuel: nat,
                      wend: real, lix: Option<nat>)
    requires OnFamily(us, vs, al)
    requires wend == WEnd(Family(us, vs, al.ftype)[al.ixwp].ep, al.w, al.blower)
    requires lix == Inwards(Family(us, vs, Perpendicular(al.ftype)), al.wp, al.blower, al.w, wend, bedge)
    ensures lix.Nothing? ==> AdvanceOf(us, vs, al, bedge, fuel) == Just(al.(w := wend, blower := !al.blower))
    ensures lix.Just? && fuel == 0 ==> AdvanceOf(us, vs, al, bedge, fuel) == Nothing
    ensures lix.Just? && fuel > 0 ==>
      var other := Family(us, vs, Perpendicular(al.ftype));
      && lix.value < |other|
      && OnFamily(us, vs, Turn(al, lix.value, other[lix.value].wp))
      && AdvanceOf(us, vs, al, bedge, fuel) == AdvanceOf(us, vs, Turn(al, lix.value, other[lix.value].wp), false, fuel - 1)
  {
  }

  /**
    * A walk that starts at a covered position ends on an endpoint of its
    * fibre that ContourNumber finds: the end of the interval it ran along,
    * with the lower flag of that endpoint.
    */
  lemma {:induction false} AdvanceLands(us: seq<Fibre>, vs: seq<Fibre>, al: Cursor, bedge: bool, fuel: nat)
    requires OnFamily(us, vs, al) && Covers(Family(us, vs, al.ftype)[al.ixwp].ep, al.w)
    ensures var r := AdvanceOf(us, vs, al, bedge, fuel);
      r.Just? ==> OnFamily(us, vs, r.value) && ContourIndex(Family(us, vs, r.value.ftype)[r.value.ixwp].ep, r.value.w, r.value.blower).Just?
    decreases fuel
  {
    var ep := Family(us, vs, al.ftype)[al.ixwp].ep;
    var wend := WEnd(ep, al.w, al.blower);
    var other := Family(us, vs, Perpendicular(al.ftype));
    var lix := Inwards(other, al.wp, al.blower, al.w, wend, bedge);
    InwardsChar(other, al.wp, al.blower, al.w, wend, bedge);
    if lix.Nothing? {
      var k :| FirstPairAt(ep, k, al.w) && PairRG(ep, al.w) == I1(ep[2 * k].w, ep[2 * k + 1].w);
      var j := if al.blower then 2 * k + 1 else 2 * k;
      ContourIndexChar(ep, wend, !al.blower);
      assert ep[j].w == wend && j % 2 == Parity(!al.blower);
    } else if fuel > 0 {
      AdvanceLands(us, vs, Turn(al, lix.value, other[lix.value].wp), false, fuel - 1);
    }
  }

  /** Advance reads only positions: restamped fibres walk the same way. */
  lemma {:induction false} AdvanceSamePlaces(us: seq<Fibre>, vs: seq<Fibre>, us': seq<Fibre>, vs': seq<Fibre>,
                                             al: Cursor, bedge: bool, fuel: nat)
    requires SamePlaces(us, us') && SamePlaces(vs, vs') && OnFamily(us, vs, al)
    ensures OnFamily(us', vs', al)
    ensures AdvanceOf(us, vs, al, bedge, fuel) == AdvanceOf(us', vs', al, bedge, fuel)
    decreases fuel
  {
    var other := Family(us, vs, Perpendicular(al.ftype));
    var wend := WEnd(Family(us, vs, al.ftype)[al.ixwp].ep, al.w, al.blower);
    StepSamePlaces(us, vs, us', vs', al, bedge);
    var lix := Inwards(other, al.wp, al.blower, al.w, wend, bedge);
    if lix.Just? && fuel > 0 {
      AdvanceSamePlaces(us, vs, us', vs', Turn(al, lix.value, other[lix.value].wp), false, fuel - 1);
    }
  }

  /** One step of the walk, the end it runs to and the fibre it turns onto, reads only positions. */
  lemma StepSamePlaces(us: seq<Fibre>, vs: seq<Fibre>, us': seq<Fibre>, vs': seq<Fibre>,
                       al: Cursor, bedge: bool)
    requires SamePlaces(us, us') && SamePlaces(vs, vs') && OnFamily(us, vs, al)
    ensures OnFamily(us', vs', al)
    ensures var wend := WEnd(Family(us, vs, al.ftype)[al.ixwp].ep, al.w, al.blower);
      && wend == WEnd(Family(us', vs', al.ftype)[al.ixwp].ep, al.w, al.blower)
      && Inwards(Family(us, vs, Perpendicular(al.ftype)), al.wp, al.blower, al.w, wend, bedge)
         == Inwards(Family(us', vs', Perpendicular(al.ftype)), al.wp, al.blower, al.w, wend, bedge)
  {
    var fam, fam' := Family(us, vs, al.ftype), Family(us', vs', al.ftype);
    var other, other' := Family(us, vs, Perpendicular(al.ftype)), Family(us', vs', Perpendicular(al.ftype));
    FirstPairSamePositions(fam[al.ixwp].ep, fam'[al.ixwp].ep, al.w, 0);
    var wend := WEnd(fam[al.ixwp].ep, al.w, al.blower);
    if |other| > 0 {
      if al.blower {
        InwardsUpSame(other, other', al.wp, al.w, wend, bedge, 0);
      } else {
        InwardsDownSame(other, other', al.wp, al.w, wend, bedge, |other| - 1);
      }
    }
  }

  lemma RestampedSamePlaces(vs: seq<Fibre>, vs': seq<Fibre>, n: int)
    requires RestampedFamily(vs, vs', n)
    ensures SamePlaces(vs, vs')
  {
    forall i | 0 <= i < |vs|
      ensures SamePositions(vs[i].ep, vs'[i].ep)
    {
      RestampedKeeps(vs[i].ep, vs'[i].ep, n);
    }
  }

  // ---------------------------------------------------------------------
  // Tracing a contour

  /** The contour number of the endpoint ContourNumber finds for c, if it finds one. */
  ghost function NumberAt(us: seq<Fibre>, vs: seq<Fibre>, c: Cursor): Option<int>
    requires OnFamily(us, vs, c)
  {
    var ep := Family(us, vs, c.ftype)[c.ixwp].ep;
    match ContourIndex(ep, c.w, c.blower)
    case Nothing => Nothing
    case Just(k) => Just(ep[k].contournumber)
  }

  /** The cursor after n calls of Advance from al, each with the given budget. */
  ghost function Walk(us: seq<Fibre>, vs: seq<Fibre>, al: Cursor, budget: nat, n: nat): (r: Option<Cursor>)
    requires OnFamily(us, vs, al)
    ensures r.Just? ==> OnFamily(us, vs, r.value)
  {
    if n == 0 then Just(al)
    else match Walk(us, vs, al, budget, n - 1)
      case Nothing => Nothing
      case Just(c) =>
        AdvanceOnFamily(us, vs, c, true, budget);
        AdvanceOf(us, vs, c, true, budget)
  }

  /**
    * pth holds the points of the first |pth| cursors of the walk from al, and
    * each of their endpoints now carries contour number n.
    */
  ghost predicate Traced(us0: seq<Fibre>, vs0: seq<Fibre>, al: Cursor, budget: nat, pth: seq<P2>,
                         us: seq<Fibre>, vs: seq<Fibre>, n: int)
    requires OnFamily(us0, vs0, al)
  {
    forall i :: 0 <= i < |pth| ==>
      && Walk(us0, vs0, al, budget, i).Just?
      && pth[i] == GetPoint(Walk(us0, vs0, al, budget, i).value)
      && OnFamily(us, vs, Walk(us0, vs0, al, budget, i).value)
      && NumberAt(us, vs, Walk(us0, vs0, al, budget, i).value) == Just(n)
  }

  /** Stamping with n keeps every endpoint already numbered n, and where ContourNumber finds it. */
  lemma NumberAtRestamped(us: seq<Fibre>, vs: seq<Fibre>, us': seq<Fibre>, vs': seq<Fibre>, c: Cursor, n: int)
    requires RestampedFamily(us, us', n) && RestampedFamily(vs, vs', n) && OnFamily(us, vs, c)
    requires NumberAt(us, vs, c) == Just(n)
    ensures OnFamily(us', vs', c) && NumberAt(us', vs', c) == Just(n)
  {
    var ep, ep' := Family(us, vs, c.ftype)[c.ixwp].ep, Family(us', vs', c.ftype)[c.ixwp].ep;
    RestampedKeeps(ep, ep', n);
    ContourIndexSamePositions(ep, ep', c.w, Parity(c.blower));
  }

  /**
    * One round of TrackContour: after the endpoint of the next cursor of the
    * walk is stamped, the trace extends by that cursor's point.
    */
  lemma {:induction false} TracedStep(us0: seq<Fibre>, vs0: seq<Fibre>, al: Cursor, budget: nat, pth: seq<P2>,
                                      us: seq<Fibre>, vs: seq<Fibre>, us': seq<Fibre>, vs': seq<Fibre>,
                                      c: Cursor, n: int)
    requires OnFamily(us0, vs0, al) && Traced(us0, vs0, al, budget, pth, us, vs, n)
    requires RestampedFamily(us, us', n) && RestampedFamily(vs, vs', n)
    requires Walk(us0, vs0, al, budget, |pth|) == Just(c) && OnFamily(us', vs', c) && NumberAt(us', vs', c) == Just(n)
    ensures Traced(us0, vs0, al, budget, pth + [GetPoint(c)], us', vs', n)
  {
    var pth' := pth + [GetPoint(c)];
    forall i | 0 <= i < |pth'|
      ensures && Walk(us0, vs0, al, budget, i).Just?
              && pth'[i] == GetPoint(Walk(us0, vs0, al, budget, i).value)
              && OnFamily(us', vs', Walk(us0, vs0, al, budget, i).value)
              && NumberAt(us', vs', Walk(us0, vs0, al, budget, i).value) == Just(n)
    {
      if i < |pth| {
        assert pth'[i] == pth[i];
        NumberAtRestamped(us, vs, us', vs', Walk(us0, vs0, al, budget, i).value, n);
      } else {
        assert i == |pth| && pth'[i] == GetPoint(c);
      }
    }
  }

  /**
    * After a stamp the weave still advances as it did before any stamp of
    * this contour: one more step of the walk.
    */
  lemma WalkAdvance(us0: seq<Fibre>, vs0: seq<Fibre>, us: seq<Fibre>, vs: seq<Fibre>,
                    al: Cursor, budget: nat, n: nat, c: Cursor, m: int)
    requires RestampedFamily(us0, us, m) && RestampedFamily(vs0, vs, m)
    requires OnFamily(us0, vs0, al) && Walk(us0, vs0, al, budget, n) == Just(c)
    ensures OnFamily(us, vs, c)
    ensures AdvanceOf(us, vs, c, true, budget) == Walk(us0, vs0, al, budget, n + 1)
  {
    RestampedSamePlaces(us0, us, m);
    RestampedSamePlaces(vs0, vs, m);
    AdvanceSamePlaces(us0, vs0, us, vs, c, true, budget);
  }

  /**
    * Once the slot ContourNumber finds for c is stamped with n, the number
    * found at c is n.
    */
  lemma NumberAtStamped(us: seq<Fibre>, vs: seq<Fibre>, us': seq<Fibre>, vs': seq<Fibre>,
                        c: Cursor, k: nat, n: int)
    requires OnFamily(us, vs, c) && |us'| == |us| && |vs'| == |vs|
    requires ContourIndex(Family(us, vs, c.ftype)[c.ixwp].ep, c.w, c.blower) == Just(k)
    requires k < |Family(us, vs, c.ftype)[c.ixwp].ep|
    requires Family(us', vs', c.ftype)[c.ixwp].ep == Stamp(Family(us, vs, c.ftype)[c.ixwp].ep, k, n)
    ensures OnFamily(us', vs', c) && NumberAt(us', vs', c) == Just(n)
  {
    var ep := Family(us, vs, c.ftype)[c.ixwp].ep;
    var ep' := Stamp(ep, k, n);
    assert SamePositions(ep, ep');
    ContourIndexSamePositions(ep, ep', c.w, Parity(c.blower));
  }

  /** Restamping with the same number twice is one restamping. */
  lemma RestampedTrans(a: seq<Fibre>, b: seq<Fibre>, c: seq<Fibre>, n: int)
    requires RestampedFamily(a, b, n) && RestampedFamily(b, c, n)
    ensures RestampedFamily(a, c, n)
  {
  }

  /** pth is the walk from al point by point: the path TrackContour records. */
  ghost predicate WalkedPath(us: seq<Fibre>, vs: seq<Fibre>, al: Cursor, budget: nat, pth: seq<P2>)
    requires OnFamily(us, vs, al)
  {
    forall k :: 0 <= k < |pth| ==>
      Walk(us, vs, al, budget, k).Just? && pth[k] == GetPoint(Walk(us, vs, al, budget, k).value)
  }

  /** The walk reads only positions: fibres in the same places walk the same way. */
  lemma {:induction false} WalkSamePlaces(us: seq<Fibre>, vs: seq<Fibre>, us': seq<Fibre>, vs': seq<Fibre>,
                                          al: Cursor, budget: nat, n: nat)
    requires SamePlaces(us, us') && SamePlaces(vs, vs') && OnFamily(us, vs, al)
    ensures OnFamily(us', vs', al)
    ensures Walk(us, vs, al, budget, n) == Walk(us', vs', al, budget, n)
    decreases n
  {
    if n > 0 {
      var m: nat := n - 1;
      WalkSamePlaces(us, vs, us', vs', al, budget, m);
      var c := Walk(us, vs, al, budget, m);
      if c.Just? {
        AdvanceSamePlaces(us, vs, us', vs', c.value, true, budget);
        WalkNext(us, vs, al, budget, m, c.value);
        WalkNext(us', vs', al, budget, m, c.value);
      }
    }
  }

  /** One more step of a walk that has reached c is one Advance from c. */
  lemma WalkNext(us: seq<Fibre>, vs: seq<Fibre>, al: Cursor, budget: nat, m: nat, c: Cursor)
    requires OnFamily(us, vs, al) && Walk(us, vs, al, budget, m) == Just(c)
    ensures OnFamily(us, vs, c) && Walk(us, vs, al, budget, m + 1) == AdvanceOf(us, vs, c, true, budget)
  {
  }

  /** A walked path stays the walk over fibres in the same places. */
  lemma WalkedSamePlaces(us: seq<Fibre>, vs: seq<Fibre>, us': seq<Fibre>, vs': seq<Fibre>,
                         al: Cursor, budget: nat, pth: seq<P2>)
    requires SamePlaces(us, us') && SamePlaces(vs, vs') && OnFamily(us, vs, al)
    requires WalkedPath(us', vs', al, budget, pth)
    ensures WalkedPath(us, vs, al, budget, pth)
  {
    forall k | 0 <= k < |pth|
      ensures Walk(us, vs, al, budget, k).Just? && pth[k] == GetPoint(Walk(us, vs, al, budget, k).value)
    {
      WalkSamePlaces(us, vs, us', vs', al, budget, k);
    }
  }

  /**
    * TrackContour's path: the traced points before the last, then the
    * point of the cursor the walk reaches, make the walk from al.
    */
  lemma TracedWalked(us0: seq<Fibre>, vs0: seq<Fibre>, al: Cursor, budget: nat, pth: seq<P2>,
                     us: seq<Fibre>, vs: seq<Fibre>, n: int)
    requires OnFamily(us0, vs0, al) && pth != []
    requires Traced(us0, vs0, al, budget, pth[..|pth| - 1], us, vs, n)
    requires var c := Walk(us0, vs0, al, budget, |pth| - 1); c.Just? && pth[|pth| - 1] == GetPoint(c.value)
    ensures WalkedPath(us0, vs0, al, budget, pth)
  {
    forall k | 0 <= k < |pth| - 1
      ensures Walk(us0, vs0, al, budget, k).Just? && pth[k] == GetPoint(Walk(us0, vs0, al, budget, k).value)
    {
      assert pth[..|pth| - 1][k] == pth[k];
    }
  }

  // ---------------------------------------------------------------------
  // Counting unvisited endpoints

  /** The number of endpoints numbered below f: those a contour run still counts as unvisited. */
  function CountBelow(ep: seq<B1>, f: int): nat {
    if ep == [] then 0
    else CountBelow(ep[..|ep| - 1], f) + (if ep[|ep| - 1].contournumber < f then 1 else 0)
  }

  /** CountBelow summed over a family. */
  function FibsBelow(vs: seq<Fibre>, f: int): nat {
    if vs == [] then 0
    else FibsBelow(vs[..|vs| - 1], f) + CountBelow(vs[|vs| - 1].ep, f)
  }

  /** Stamping an unvisited endpoint with a number at or above f visits exactly it. */
  lemma {:induction false} StampCount(ep: seq<B1>, i: nat, n: int, f: int)
    requires i < |ep| && ep[i].contournumber < f <= n
    ensures CountBelow(Stamp(ep, i, n), f) == CountBelow(ep, f) - 1
  {
    var s := Stamp(ep, i, n);
    if i == |ep| - 1 {
      assert s[..|s| - 1] == ep[..|ep| - 1];
    } else {
      assert s[..|s| - 1] == Stamp(ep[..|ep| - 1], i, n);
      StampCount(ep[..|ep| - 1], i, n, f);
    }
  }

  /** Replacing one fibre changes the family's count by that fibre's change. */
  lemma {:induction false} FibsBelowUpdate(vs: seq<Fibre>, k: nat, v: Fibre, f: int)
    requires k < |vs|
    ensures FibsBelow(vs[k := v], f) == FibsBelow(vs, f) - CountBelow(vs[k].ep, f) + CountBelow(v.ep, f)
  {
    var s := vs[k := v];
    if k == |vs| - 1 {
      assert s[..|s| - 1] == vs[..|vs| - 1];
    } else {
      assert s[..|s| - 1] == vs[..|vs| - 1][k := v];
      FibsBelowUpdate(vs[..|vs| - 1], k, v, f);
    }
  }

  // ---------------------------------------------------------------------
  // Building the grid

  /** nufib in S2weave's constructor: the fibre after the first sits at 1/nufib of the way. */
  function FibreCount(rg: I1, res: real): (n: int)
    requires res > 0.0 && rg.lo <= rg.hi
    ensures n >= 2
    ensures rg.Leng() < res * n as real
  {
    var q := rg.Leng() / res;
    assert res * q == rg.Leng();
    var n := (q + 2.0).Floor;
    Scale(res, q, n as real);
    n
  }

  /**
    * Neighbouring fibres of the grid sit Leng/nufib apart, which is less
    * than the resolution; the first sits at rg.lo and the last at rg.hi.
    */
  lemma GridSpacing(rg: I1, res: real, i: nat)
    requires res > 0.0 && rg.lo <= rg.hi && i < FibreCount(rg, res)
    ensures var n := FibreCount(rg, res) as real;
      && rg.Along((i + 1) as real / n) - rg.Along(i as real / n) == rg.Leng() / n
      && rg.Leng() / n < res
      && rg.Along(0 as real / n) == rg.lo && rg.Along(n / n) == rg.hi
  {
    var n := FibreCount(rg, res) as real;
    var d := rg.Leng() / n;
    assert rg.Leng() == d * n;
    calc {
      rg.Along((i + 1) as real / n) - rg.Along(i as real / n);
      rg.Leng() * ((i + 1) as real / n) - rg.Leng() * (i as real / n);
      { assert (i + 1) as real / n - i as real / n == 1.0 / n; }
      rg.Leng() * (1.0 / n);
      d;
    }
    assert d * n < res * n;
  }

  /** The fibres of one family: nufib + 1 empty fibres evenly from rg.lo to rg.hi. */
  method MakeFibres(rg: I1, res: real) returns (fibs: seq<Fibre>)
    requires res > 0.0 && rg.lo <= rg.hi
    ensures |fibs| == FibreCount(rg, res) + 1
    ensures forall i :: 0 <= i < |fibs| ==> fibs[i] == Fibre([], rg.Along(i as real / FibreCount(rg, res) as real))
  {
    var n := FibreCount(rg, res);
    fibs := [];
    var i := 0;
    while i <= n
      invariant 0 <= i <= n + 1 && |fibs| == i
      invariant forall k :: 0 <= k < i ==> fibs[k] == Fibre([], rg.Along(k as real / n as real))
    {
      fibs := fibs + [Fibre([], rg.Along(i as real / n as real))];
      i := i + 1;
    }
  }

  /** Every fibre of the family well formed. */
  predicate AllValid(fibs: seq<Fibre>) {
    forall i :: 0 <= i < |fibs| ==> WellFormed(fibs[i].ep)
  }

  /** Every fibre of the family well formed and inside the extent wrg. */
  predicate InsideExtents(fibs: seq<Fibre>, wrg: I1) {
    wrg.lo <= wrg.hi && forall i :: 0 <= i < |fibs| ==> WellFormed(fibs[i].ep) && AllWithin(fibs[i].ep, wrg.lo, wrg.hi)
  }

  /** Every fibre of the family lies inside the non-empty extent wrg: what S1::Invert's closing check needs. */
  predicate Invertible(fibs: seq<Fibre>, wrg: I1) {
    && (fibs != [] ==> wrg.lo <= wrg.hi)
    && forall i :: 0 <= i < |fibs| ==> AllWithin(fibs[i].ep, wrg.lo, wrg.hi)
  }

  /**
    * S1::Invert on every fibre of a family, in order: each fibre now covers
    * the complement of what it covered within the extent wrg.
    */
  method InvertFibres(fibs: seq<Fibre>, wrg: I1) returns (r: seq<Fibre>)
    requires AllValid(fibs)
    ensures |r| == |fibs|
    ensures forall i :: 0 <= i < |r| ==> r[i] == Fibre(Inverted(fibs[i].ep, wrg), fibs[i].wp)
    ensures forall i :: 0 <= i < |r| ==>
      (WellFormed(r[i].ep) <==> wrg.lo <= wrg.hi && AllWithin(fibs[i].ep, wrg.lo, wrg.hi))
    ensures forall i :: 0 <= i < |r| && WellFormed(r[i].ep) ==> IsComplement(r[i].ep, fibs[i].ep, wrg)
    ensures AllValid(r) <==> Invertible(fibs, wrg)
    ensures InsideExtents(fibs, wrg) ==> InsideExtents(r, wrg)
  {
    r := fibs;
    var i := 0;
    while i < |r|
      invariant 0 <= i <= |r| == |fibs|
      invariant forall k :: 0 <= k < i ==>
        && r[k] == Fibre(Inverted(fibs[k].ep, wrg), fibs[k].wp)
        && (WellFormed(r[k].ep) <==> wrg.lo <= wrg.hi && AllWithin(fibs[k].ep, wrg.lo, wrg.hi))
        && (WellFormed(r[k].ep) ==> IsComplement(r[k].ep, fibs[k].ep, wrg) && AllWithin(r[k].ep, wrg.lo, wrg.hi))
      invariant forall k :: i <= k < |r| ==> r[k] == fibs[k]
    {
      InvertedWellFormed(r[i].ep, wrg);
      if wrg.lo <= wrg.hi && AllWithin(r[i].ep, wrg.lo, wrg.hi) {
        InvertedValid(r[i].ep, wrg);
        InvertedComplement(r[i].ep, wrg);
      }
      var ep := InvertEndpoints(r[i].ep, wrg);
      r := r[i := Fibre(ep, r[i].wp)];
      i := i + 1;
    }
    if AllValid(r) {
      forall k | 0 <= k < |fibs|
        ensures AllWithin(fibs[k].ep, wrg.lo, wrg.hi)
      {
        assert WellFormed(r[k].ep);
      }
      if fibs != [] {
        assert WellFormed(r[0].ep);
      }
    }
    if Invertible(fibs, wrg) {
      forall k | 0 <= k < |r|
        ensures WellFormed(r[k].ep)
      {
        assert AllWithin(fibs[k].ep, wrg.lo, wrg.hi);
      }
    }
  }

  /** S1::SetAllCutCodes on every fibre of a family, in order: the covered sets stay as they were. */
  method SetCutCodes(fibs: seq<Fibre>, c: int) returns (r: seq<Fibre>)
    ensures |r| == |fibs|
    ensures forall i :: 0 <= i < |r| ==> r[i] == Fibre(WithCutCodes(fibs[i].ep, c), fibs[i].wp)
    ensures forall i :: 0 <= i < |r| ==> SameCover(r[i].ep, fibs[i].ep)
    ensures AllValid(r) <==> AllValid(fibs)
  {
    r := fibs;
    var i := 0;
    while i < |r|
      invariant 0 <= i <= |r| == |fibs|
      invariant forall k :: 0 <= k < i ==>
        && r[k] == Fibre(WithCutCodes(fibs[k].ep, c), fibs[k].wp) && SameCover(r[k].ep, fibs[k].ep)
        && (WellFormed(r[k].ep) <==> WellFormed(fibs[k].ep))
      invariant forall k :: i <= k < |r| ==> r[k] == fibs[k]
    {
      CutCodesKeep(r[i].ep, c);
      var ep := SetEndpointCutCodes(r[i].ep, c);
      r := r[i := Fibre(ep, r[i].wp)];
      i := i + 1;
    }
    assert forall k :: 0 <= k < |r| ==> (WellFormed(r[k].ep) <==> WellFormed(fibs[k].ep));
  }

  // ---------------------------------------------------------------------
  // The weave

  class S2weave {
    var urg: I1
    var vrg: I1
    /** The u-fibres, at increasing u, each spanning vrg. */
    var ufibs: seq<Fibre>
    /** The v-fibres, at increasing v, each spanning urg. */
    var vfibs: seq<Fibre>
    /** Contour numbers below this one count as unvisited. */
    var firstcontournumber: int
    /** The number of the contour traced last. */
    var lastcontournumber: int

    /** Every fibre well formed. */
    predicate Valid()
      reads this
    {
      AllValid(ufibs) && AllValid(vfibs)
    }

    /**
      * S2weave(urg, vrg, res): nufib + 1 empty u-fibres evenly from urg.lo to
      * urg.hi, each spanning vrg, and likewise v-fibres; no contour yet.
      */
    constructor (lurg: I1, lvrg: I1, res: real)
      requires res > 0.0 && lurg.lo <= lurg.hi && lvrg.lo <= lvrg.hi
      ensures urg == lurg && vrg == lvrg
      ensures firstcontournumber == 0 && lastcontournumber == -1
      ensures |ufibs| == FibreCount(lurg, res) + 1 && |vfibs| == FibreCount(lvrg, res) + 1
      ensures forall i :: 0 <= i < |ufibs| ==> ufibs[i] == Fibre([], lurg.Along(i as real / FibreCount(lurg, res) as real))
      ensures forall j :: 0 <= j < |vfibs| ==> vfibs[j] == Fibre([], lvrg.Along(j as real / FibreCount(lvrg, res) as real))
      ensures Valid() && InsideExtents(ufibs, vrg) && InsideExtents(vfibs, urg)
    {
      urg := lurg;
      vrg := lvrg;
      firstcontournumber := 0;
      lastcontournumber := -1;
      var us := MakeFibres(lurg, res);
      var vs := MakeFibres(lvrg, res);
      ufibs := us;
      vfibs := vs;
    }

    /** The fibre the cursor stands on. */
    function FibreOf(al: Cursor): Fibre
      reads this
      requires OnFamily(ufibs, vfibs, al)
    {
      Family(ufibs, vfibs, al.ftype)[al.ixwp]
    }

    /** The number of endpoints that count as unvisited. */
    ghost function Unvisited(): nat
      reads this
    {
      FibsBelow(ufibs, firstcontournumber) + FibsBelow(vfibs, firstcontournumber)
    }

    /** S2weave::Invert: every fibre complemented within its extent. */
    method Invert()
      requires Valid()
      modifies this
      ensures |ufibs| == |old(ufibs)| && |vfibs| == |old(vfibs)|
      ensures forall i :: 0 <= i < |ufibs| ==> ufibs[i] == Fibre(Inverted(old(ufibs)[i].ep, vrg), old(ufibs)[i].wp)
      ensures forall j :: 0 <= j < |vfibs| ==> vfibs[j] == Fibre(Inverted(old(vfibs)[j].ep, urg), old(vfibs)[j].wp)
      ensures urg == old(urg) && vrg == old(vrg)
      ensures firstcontournumber == old(firstcontournumber) && lastcontournumber == old(lastcontournumber)
      ensures Valid() <==> Invertible(old(ufibs), vrg) && Invertible(old(vfibs), urg)
      ensures forall i :: 0 <= i < |ufibs| && WellFormed(ufibs[i].ep) ==> IsComplement(ufibs[i].ep, old(ufibs)[i].ep, vrg)
      ensures forall j :: 0 <= j < |vfibs| && WellFormed(vfibs[j].ep) ==> IsComplement(vfibs[j].ep, old(vfibs)[j].ep, urg)
      ensures InsideExtents(old(ufibs), vrg) && InsideExtents(old(vfibs), urg) ==> InsideExtents(ufibs, vrg) && InsideExtents(vfibs, urg)
    {
      ufibs := InvertFibres(ufibs, vrg);
      vfibs := InvertFibres(vfibs, urg);
    }

    /** S2weave::SetAllCutCodes: every endpoint of every fibre gets cut code c. */
    method SetAllCutCodes(c: int)
      modifies this
      ensures |ufibs| == |old(ufibs)| && |vfibs| == |old(vfibs)|
      ensures forall i :: 0 <= i < |ufibs| ==> ufibs[i] == Fibre(WithCutCodes(old(ufibs)[i].ep, c), old(ufibs)[i].wp)
      ensures forall j :: 0 <= j < |vfibs| ==> vfibs[j] == Fibre(WithCutCodes(old(vfibs)[j].ep, c), old(vfibs)[j].wp)
      ensures urg == old(urg) && vrg == old(vrg)
      ensures firstcontournumber == old(firstcontournumber) && lastcontournumber == old(lastcontournumber)
      ensures Valid() <==> old(Valid())
    {
      ufibs := SetCutCodes(ufibs, c);
      vfibs := SetCutCodes(vfibs, c);
    }

    /**
      * S2weave::Advance, with at most budget turns: runs along the covered
      * interval and turns onto crossing fibres until it reaches an endpoint;
      * ok is false when the turns run out first.
      */
    method Advance(al: Cursor, budget: nat) returns (r: Cursor, ok: bool)
      requires OnFamily(ufibs, vfibs, al)
      ensures var a := AdvanceOf(ufibs, vfibs, al, true, budget);
        (ok <==> a.Just?) && (ok ==> r == a.value)
    {
      ghost var goal := AdvanceOf(ufibs, vfibs, al, true, budget);
      var bedge := true;
      var cur := al;
      var fuel := budget;
      while true
        invariant OnFamily(ufibs, vfibs, cur)
        invariant AdvanceOf(ufibs, vfibs, cur, bedge, fuel) == goal
        decreases fuel
      {
        var wend, lixwp := Look(cur, bedge);
        AdvanceUnfold(ufibs, vfibs, cur, bedge, fuel, wend, lixwp);
        if lixwp.Nothing? {
          return cur.(w := wend, blower := !cur.blower), true;
        }
        if fuel == 0 {
          return cur, false;
        }
        var ix := lixwp.value;
        var other := if cur.ftype == UFibre then vfibs else ufibs;
        cur := Turn(cur, ix, other[ix].wp);
        bedge := false;
        fuel := fuel - 1;
      }
    }

    /** One look of Advance: the end of the covered interval ahead and the first fibre crossing it. */
    method Look(cur: Cursor, bedge: bool) returns (wend: real, lixwp: Option<nat>)
      requires OnFamily(ufibs, vfibs, cur)
      ensures wend == WEnd(FibreOf(cur).ep, cur.w, cur.blower)
      ensures lixwp == Inwards(Family(ufibs, vfibs, Perpendicular(cur.ftype)), cur.wp, cur.blower, cur.w, wend, bedge)
    {
      var frg := EndpointsContainRG(FibreOf(cur).ep, cur.w);
      wend := if cur.blower then frg.hi else frg.lo;
      var other := if cur.ftype == UFibre then vfibs else ufibs;
      lixwp := FindInwards(other, cur.wp, cur.blower, cur.w, wend, bedge);
    }

    /**
      * S2weave::ContourNumber: the slot of the endpoint at al.w among the
      * lower (even) or upper (odd) endpoints of al's fibre, or Nothing where
      * the code fails its ASSERT.
      */
    method ContourNumber(al: Cursor) returns (r: Option<nat>)
      requires OnFamily(ufibs, vfibs, al)
      ensures r == ContourIndex(FibreOf(al).ep, al.w, al.blower)
    {
      var ep := FibreOf(al).ep;
      var i := if al.blower then 0 else 1;
      while i < |ep|
        invariant i % 2 == Parity(al.blower)
        invariant ContourIndexFrom(ep, al.w, i) == ContourIndex(ep, al.w, al.blower)
        decreases |ep| - i
      {
        if ep[i].w == al.w {
          return Just(i);
        }
        i := i + 2;
      }
      return Nothing;
    }

    /** ContourNumber(al) = lastcontournumber: stamps slot k of al's fibre. */
    method StampSlot(al: Cursor, k: nat)
      requires Valid() && OnFamily(ufibs, vfibs, al) && k < |FibreOf(al).ep|
      requires FibreOf(al).ep[k].contournumber < firstcontournumber <= lastcontournumber
      modifies this
      ensures Family(ufibs, vfibs, al.ftype) ==
        old(Family(ufibs, vfibs, al.ftype))[al.ixwp := Fibre(Stamp(old(FibreOf(al)).ep, k, lastcontournumber), old(FibreOf(al)).wp)]
      ensures Family(ufibs, vfibs, Perpendicular(al.ftype)) == old(Family(ufibs, vfibs, Perpendicular(al.ftype)))
      ensures urg == old(urg) && vrg == old(vrg)
      ensures firstcontournumber == old(firstcontournumber) && lastcontournumber == old(lastcontournumber)
      ensures Valid()
      ensures RestampedFamily(old(ufibs), ufibs, lastcontournumber) && RestampedFamily(old(vfibs), vfibs, lastcontournumber)
      ensures Unvisited() == old(Unvisited()) - 1
    {
      var f := FibreOf(al);
      StampKeeps(f.ep, k, lastcontournumber);
      StampCount(f.ep, k, lastcontournumber, firstcontournumber);
      var nf := Fibre(Stamp(f.ep, k, lastcontournumber), f.wp);
      if al.ftype == UFibre {
        FibsBelowUpdate(ufibs, al.ixwp, nf, firstcontournumber);
        RestampedOne(ufibs, al.ixwp, nf, lastcontournumber);
        RestampedNone(vfibs, lastcontournumber);
        ufibs := ufibs[al.ixwp := nf];
      } else {
        FibsBelowUpdate(vfibs, al.ixwp, nf, firstcontournumber);
        RestampedOne(vfibs, al.ixwp, nf, lastcontournumber);
        RestampedNone(ufibs, lastcontournumber);
        vfibs := vfibs[al.ixwp := nf];
      }
    }

    /**
      * S2weave::TrackContour from al0, each Advance with the given budget:
      * opens contour number lastcontournumber + 1, then stamps endpoints
      * numbered below firstcontournumber with it and records their points,
      * walking on, until it reaches an endpoint numbered at or above
      * firstcontournumber, whose point ends the path.  ok is false where
      * ContourNumber finds no endpoint or an Advance runs out of turns.
      * That the closing endpoint carries lastcontournumber itself (the
      * source's closing ASSERT) is not proved: ok holds for any number of
      * this epoch there.
      */
    method TrackContour(al0: Cursor, budget: nat) returns (pth: seq<P2>, ok: bool)
      requires Valid() && OnFamily(ufibs, vfibs, al0) && firstcontournumber <= lastcontournumber + 1
      modifies this
      ensures urg == old(urg) && vrg == old(vrg)
      ensures firstcontournumber == old(firstcontournumber) && lastcontournumber == old(lastcontournumber) + 1
      ensures Valid()
      ensures RestampedFamily(old(ufibs), ufibs, lastcontournumber) && RestampedFamily(old(vfibs), vfibs, lastcontournumber)
      ensures ok ==> pth != [] && Unvisited() == old(Unvisited()) - (|pth| - 1)
      ensures ok ==> Traced(old(ufibs), old(vfibs), al0, budget, pth[..|pth| - 1], ufibs, vfibs, lastcontournumber)
      ensures ok ==>
        var c := Walk(old(ufibs), old(vfibs), al0, budget, |pth| - 1);
        && c.Just? && pth[|pth| - 1] == GetPoint(c.value) && OnFamily(ufibs, vfibs, c.value)
        && NumberAt(ufibs, vfibs, c.value).Just?
        && NumberAt(ufibs, vfibs, c.value).value >= firstcontournumber
    {
      lastcontournumber := lastcontournumber + 1;
      ghost var us0, vs0 := ufibs, vfibs;
      ghost var u0 := Unvisited();
      RestampedNone(us0, lastcontournumber);
      RestampedNone(vs0, lastcontournumber);
      var al, slot, aok;
      al, slot, pth, aok := Follow(al0, budget, us0, vs0, u0);
      if !aok {
        return pth, false;
      }
      if slot.Nothing? {
        return pth + [GetPoint(al)], false;
      }
      // the source's closing ASSERT wants lastcontournumber here; a release
      // build appends the point whatever this epoch's number the endpoint has
      ghost var walked := pth;
      pth := pth + [GetPoint(al)];
      assert pth[..|pth| - 1] == walked && Walk(us0, vs0, al0, budget, |pth| - 1) == Just(al);
      ok := true;
    }

    /**
      * TrackContour's loop: stamps and advances until ContourNumber finds
      * no endpoint or one already stamped in this epoch; aok is false when
      * Advance runs out of turns.
      */
    method Follow(al0: Cursor, budget: nat, ghost us0: seq<Fibre>, ghost vs0: seq<Fibre>, ghost u0: int)
      returns (al: Cursor, slot: Option<nat>, pth: seq<P2>, aok: bool)
      requires Valid() && OnFamily(ufibs, vfibs, al0) && firstcontournumber <= lastcontournumber
      requires RestampedFamily(us0, ufibs, lastcontournumber) && RestampedFamily(vs0, vfibs, lastcontournumber)
      requires ufibs == us0 && vfibs == vs0 && Unvisited() == u0
      modifies this
      ensures urg == old(urg) && vrg == old(vrg)
      ensures firstcontournumber == old(firstcontournumber) && lastcontournumber == old(lastcontournumber)
      ensures Valid()
      ensures RestampedFamily(us0, ufibs, lastcontournumber) && RestampedFamily(vs0, vfibs, lastcontournumber)
      ensures aok ==> OnFamily(ufibs, vfibs, al) && Unvisited() + |pth| == u0
      ensures aok ==> Walk(us0, vs0, al0, budget, |pth|) == Just(al)
      ensures aok ==> Traced(us0, vs0, al0, budget, pth, ufibs, vfibs, lastcontournumber)
      ensures aok ==> slot == ContourIndex(FibreOf(al).ep, al.w, al.blower)
      ensures aok ==> (slot.Just? <==> NumberAt(ufibs, vfibs, al).Just?)
      ensures aok && slot.Just? ==> NumberAt(ufibs, vfibs, al).value >= firstcontournumber
    {
      al := al0;
      pth := [];
      slot := ContourNumber(al);
      while slot.Just? && FibreOf(al).ep[slot.value].contournumber < firstcontournumber
        invariant Valid() && OnFamily(ufibs, vfibs, al)
        invariant urg == old(urg) && vrg == old(vrg)
        invariant firstcontournumber == old(firstcontournumber) && lastcontournumber == old(lastcontournumber)
        invariant RestampedFamily(us0, ufibs, lastcontournumber) && RestampedFamily(vs0, vfibs, lastcontournumber)
        invariant Unvisited() + |pth| == u0
        invariant Walk(us0, vs0, al0, budget, |pth|) == Just(al)
        invariant Traced(us0, vs0, al0, budget, pth, ufibs, vfibs, lastcontournumber)
        invariant slot == ContourIndex(FibreOf(al).ep, al.w, al.blower)
        decreases Unvisited()
      {
        var nal, rok, nslot := Round(al, slot.value, us0, vs0, al0, budget, u0, pth);
        pth := pth + [GetPoint(al)];
        if !rok {
          return al, slot, pth, false;
        }
        al, slot := nal, nslot;
      }
      aok := true;
    }

    /**
      * One round of TrackContour's loop: stamps the endpoint at al, step
      * |pth| of the walk from al0, advances to the next step and looks up
      * the endpoint there; aok is false when Advance runs out of turns.
      */
    method Round(al: Cursor, k: nat, ghost us0: seq<Fibre>, ghost vs0: seq<Fibre>, ghost al0: Cursor,
                 budget: nat, ghost u0: int, ghost pth: seq<P2>) returns (nal: Cursor, aok: bool, nslot: Option<nat>)
      requires Valid() && OnFamily(ufibs, vfibs, al) && OnFamily(us0, vs0, al0)
      requires ContourIndex(FibreOf(al).ep, al.w, al.blower) == Just(k)
      requires FibreOf(al).ep[k].contournumber < firstcontournumber <= lastcontournumber
      requires RestampedFamily(us0, ufibs, lastcontournumber) && RestampedFamily(vs0, vfibs, lastcontournumber)
      requires Unvisited() + |pth| == u0
      requires Walk(us0, vs0, al0, budget, |pth|) == Just(al)
      requires Traced(us0, vs0, al0, budget, pth, ufibs, vfibs, lastcontournumber)
      modifies this
      ensures urg == old(urg) && vrg == old(vrg)
      ensures firstcontournumber == old(firstcontournumber) && lastcontournumber == old(lastcontournumber)
      ensures Valid()
      ensures RestampedFamily(us0, ufibs, lastcontournumber) && RestampedFamily(vs0, vfibs, lastcontournumber)
      ensures Unvisited() + |pth| + 1 == u0
      ensures aok ==> OnFamily(ufibs, vfibs, nal)
      ensures aok ==> Walk(us0, vs0, al0, budget, |pth| + 1) == Just(nal)
      ensures Traced(us0, vs0, al0, budget, pth + [GetPoint(al)], ufibs, vfibs, lastcontournumber)
      ensures aok ==> nslot == ContourIndex(FibreOf(nal).ep, nal.w, nal.blower)
    {
      Visit(al, k, us0, vs0, al0, budget, pth);
      nal, aok := Advance(al, budget);
      nslot := Nothing;
      if aok {
        AdvanceOnFamily(ufibs, vfibs, al, true, budget);
        nslot := ContourNumber(nal);
      }
    }

    /**
      * One round of TrackContour's loop before it advances: stamps the
      * endpoint at al, step |pth| of the walk from al0, with
      * lastcontournumber, which extends the trace by al's point.
      */
    method Visit(al: Cursor, k: nat, ghost us0: seq<Fibre>, ghost vs0: seq<Fibre>, ghost al0: Cursor,
                 ghost budget: nat, ghost pth: seq<P2>)
      requires Valid() && OnFamily(ufibs, vfibs, al) && OnFamily(us0, vs0, al0)
      requires ContourIndex(FibreOf(al).ep, al.w, al.blower) == Just(k)
      requires FibreOf(al).ep[k].contournumber < firstcontournumber <= lastcontournumber
      requires RestampedFamily(us0, ufibs, lastcontournumber) && RestampedFamily(vs0, vfibs, lastcontournumber)
      requires Walk(us0, vs0, al0, budget, |pth|) == Just(al)
      requires Traced(us0, vs0, al0, budget, pth, ufibs, vfibs, lastcontournumber)
      modifies this
      ensures urg == old(urg) && vrg == old(vrg)
      ensures firstcontournumber == old(firstcontournumber) && lastcontournumber == old(lastcontournumber)
      ensures Valid() && OnFamily(ufibs, vfibs, al)
      ensures RestampedFamily(us0, ufibs, lastcontournumber) && RestampedFamily(vs0, vfibs, lastcontournumber)
      ensures Unvisited() == old(Unvisited()) - 1
      ensures Traced(us0, vs0, al0, budget, pth + [GetPoint(al)], ufibs, vfibs, lastcontournumber)
      ensures AdvanceOf(ufibs, vfibs, al, true, budget) == Walk(us0, vs0, al0, budget, |pth| + 1)
    {
      ghost var usb, vsb := ufibs, vfibs;
      StampSlot(al, k);
      NumberAtStamped(usb, vsb, ufibs, vfibs, al, k, lastcontournumber);
      TracedStep(us0, vs0, al0, budget, pth, usb, vsb, ufibs, vfibs, al, lastcontournumber);
      RestampedTrans(us0, usb, ufibs, lastcontournumber);
      RestampedTrans(vs0, vsb, vfibs, lastcontournumber);
      WalkAdvance(us0, vs0, ufibs, vfibs, al0, budget, |pth|, al, lastcontournumber);
    }
  }

  /** Replacing one fibre by a restamped one at the same place restamps the family. */
  lemma RestampedOne(vs: seq<Fibre>, k: nat, v: Fibre, n: int)
    requires k < |vs| && v.wp == vs[k].wp && Restamped(vs[k].ep, v.ep, n)
    ensures RestampedFamily(vs, vs[k := v], n)
  {
  }

  /** A family is a restamping of itself. */
  lemma RestampedNone(vs: seq<Fibre>, n: int)
    ensures RestampedFamily(vs, vs, n)
  {
  }
}
