// The endpoint list of a fibre (S1::ep): a sorted list of endpoints (B1)
// that alternate lower, upper, lower, upper, ... and so describe a union
// of closed intervals on one probe line.  This module states, as functions
// of the list, what each operation of S1 produces, and proves what those
// results cover; the class S1 in fibre.dfy performs the operations in place.

module Endpoints {
  import opened Geom

  /** Which family a fibre belongs to (S1::Fibre). */
  datatype FibreType = NoFibre | UFibre | VFibre | Circ

  /** An endpoint of a covered interval (B1). */
  datatype B1 = B1(w: real, blower: bool, binterncellbound: bool, contournumber: int, cutcode: int)

  /** The B1(lw, lblower, lbinterncellbound) constructor. */
  function NewB1(lw: real, lblower: bool, lbinterncellbound: bool): B1
  {
    B1(lw, lblower, lbinterncellbound, -1, 0)
  }

  /** B1::operator< compares positions only. */
  predicate B1Less(a: B1, b: B1) { a.w < b.w }

  /** A fresh endpoint counts as unvisited for every epoch start that is not negative. */
  lemma NewB1Unvisited(lw: real, lblower: bool, firstcontournumber: int)
    requires firstcontournumber >= 0
    ensures NewB1(lw, lblower, false).contournumber < firstcontournumber
    ensures !NewB1(lw, lblower, false).binterncellbound
  {
  }

  /** Changing flags, contour number or cut code never changes the order. */
  lemma B1LessIgnoresFlags(a: B1, b: B1, a': B1, b': B1)
    requires a'.w == a.w && b'.w == b.w
    ensures B1Less(a, b) <==> B1Less(a', b')
  {
  }

  // ---------------------------------------------------------------------
  // The invariant and the covered set

  /** Endpoint i lies at or below endpoint j. */
  predicate InOrder(ep: seq<B1>, i: int, j: int) {
    0 <= i < |ep| && 0 <= j < |ep| && ep[i].w <= ep[j].w
  }

  /** Positions never decrease along the list. */
  predicate Sorted(ep: seq<B1>) {
    forall i, j :: 0 <= i < j < |ep| ==> InOrder(ep, i, j)
  }

  /** Even indices hold lower endpoints, odd indices upper ones. */
  predicate Alternating(ep: seq<B1>) {
    forall i :: 0 <= i < |ep| ==> ep[i].blower == (i % 2 == 0)
  }

  /** What S1::Check asserts: even length, sorted, pairs (lower, upper). */
  predicate WellFormed(ep: seq<B1>) {
    |ep| % 2 == 0 && Sorted(ep) && Alternating(ep)
  }

  /** Pair k, that is ep[2k] and ep[2k+1], covers x. */
  predicate InPair(ep: seq<B1>, k: int, x: real) {
    0 <= k && 2 * k + 1 < |ep| && ep[2 * k].w <= x <= ep[2 * k + 1].w
  }

  /** The set of positions the fibre covers. */
  ghost predicate Covers(ep: seq<B1>, x: real) {
    exists k :: InPair(ep, k, x)
  }

  /** x is the position of some endpoint. */
  ghost predicate IsEndpoint(ep: seq<B1>, x: real) {
    exists i :: 0 <= i < |ep| && ep[i].w == x
  }

  /** Every endpoint lies in [lo, hi]. */
  predicate AllWithin(ep: seq<B1>, lo: real, hi: real) {
    forall i :: 0 <= i < |ep| ==> lo <= ep[i].w <= hi
  }

  /** r covers what ep covers together with [lo, hi]: the effect of Merge. */
  ghost predicate IsUnion(r: seq<B1>, ep: seq<B1>, lo: real, hi: real) {
    forall x :: Covers(r, x) <==> Covers(ep, x) || lo <= x <= hi
  }

  /**
    * The effect of Minus: r covers nothing ep does not, agrees with ep
    * outside [lo, hi] and covers nothing strictly inside it (only the
    * closing endpoints at lo and hi may remain).
    */
  ghost predicate IsDifference(r: seq<B1>, ep: seq<B1>, lo: real, hi: real) {
    && (forall x :: Covers(r, x) ==> Covers(ep, x))
    && (forall x :: !(lo <= x <= hi) ==> (Covers(r, x) <==> Covers(ep, x)))
    && (forall x :: lo < x < hi ==> !Covers(r, x))
  }

  /**
    * The effect of Invert: r covers nothing outside wrg, and inside it
    * every position that is no endpoint of ep is covered by r exactly when
    * ep does not cover it.
    */
  ghost predicate IsComplement(r: seq<B1>, ep: seq<B1>, wrg: I1) {
    && (forall x :: Covers(r, x) ==> wrg.Contains(x))
    && (forall x :: wrg.Contains(x) && !IsEndpoint(ep, x) ==> (Covers(r, x) <==> !Covers(ep, x)))
  }

  /** r and ep cover the same positions. */
  ghost predicate SameCover(r: seq<B1>, ep: seq<B1>) {
    forall x :: Covers(r, x) <==> Covers(ep, x)
  }

  // ---------------------------------------------------------------------
  // Lemmas about the covered set

  /** Sortedness of neighbours gives sortedness of every pair. */
  lemma {:induction false} AdjacentSorted(ep: seq<B1>)
    requires forall i :: 0 < i < |ep| ==> ep[i - 1].w <= ep[i].w
    ensures Sorted(ep)
  {
    if |ep| > 1 {
      var e := ep[..|ep| - 1];
      AdjacentSorted(e);
      forall i, j | 0 <= i < j < |ep|
        ensures InOrder(ep, i, j)
      {
        if j < |ep| - 1 {
          assert InOrder(e, i, j);
        } else if i < |ep| - 2 {
          assert InOrder(e, i, |ep| - 2);
        }
      }
    }
  }

  /** What sortedness says about one pair of indices. */
  lemma SortedAt(ep: seq<B1>, i: int, j: int)
    requires Sorted(ep)
    ensures 0 <= i <= j < |ep| ==> ep[i].w <= ep[j].w
  {
    if 0 <= i < j < |ep| {
      assert InOrder(ep, i, j);
    }
  }

  /** Every slice of a sorted list is sorted. */
  lemma SortedSlice(ep: seq<B1>, s: nat, t: nat)
    requires Sorted(ep) && s <= t <= |ep|
    ensures Sorted(ep[s..t]) && Sorted(ep[..t]) && Sorted(ep[s..])
  {
    forall i, j | 0 <= i < j < t - s
      ensures InOrder(ep[s..t], i, j)
    {
      assert InOrder(ep, s + i, s + j);
    }
    forall i, j | 0 <= i < j < t
      ensures InOrder(ep[..t], i, j)
    {
      assert InOrder(ep, i, j);
    }
    forall i, j | 0 <= i < j < |ep| - s
      ensures InOrder(ep[s..], i, j)
    {
      assert InOrder(ep, s + i, s + j);
    }
  }

  /** A point covered by the fibre lies between two of its endpoints. */
  lemma CoversBetween(ep: seq<B1>, x: real) returns (i: nat, j: nat)
    requires Covers(ep, x)
    ensures i < |ep| && j < |ep| && ep[i].w <= x <= ep[j].w
  {
    var k :| InPair(ep, k, x);
    i, j := 2 * k, 2 * k + 1;
  }

  /** A fibre whose endpoints all lie in [lo, hi] covers nothing outside it. */
  lemma CoversWithin(ep: seq<B1>, lo: real, hi: real, x: real)
    requires AllWithin(ep, lo, hi) && Covers(ep, x)
    ensures lo <= x <= hi
  {
    var i, j := CoversBetween(ep, x);
  }

  /**
    * For a well-formed fibre and a position x that is no endpoint, x is
    * covered exactly when an odd number of endpoints lie below it.
    */
  lemma CoversParity(ep: seq<B1>, x: real, j: nat)
    requires WellFormed(ep) && j <= |ep|
    requires forall i :: 0 <= i < j ==> ep[i].w < x
    requires forall i :: j <= i < |ep| ==> ep[i].w > x
    ensures Covers(ep, x) <==> j % 2 == 1
  {
    if j % 2 == 1 {
      assert InPair(ep, (j - 1) / 2, x);
    }
    if Covers(ep, x) {
      var k :| InPair(ep, k, x);
      assert 2 * k < j <= 2 * k + 1;
    }
  }

  // ---------------------------------------------------------------------
  // The shape of Merge and Minus, as values

  /**
    * Merge replaces the endpoints il..ir (those inside the new range) by a
    * new lower endpoint when il is a lower index and a new upper endpoint
    * when ir is an upper index.
    */
  function MergedEp(ep: seq<B1>, il: int, ir: int, L: B1, H: B1): seq<B1>
    requires 0 <= il <= |ep| && il - 1 <= ir < |ep|
  {
    Replaced(ep, il, ir, Ins(il % 2 == 0, L, ir % 2 == 1, H))
  }

  /**
    * Minus replaces the endpoints il..ir by a new upper endpoint when il is
    * an upper index and a new lower endpoint when ir is a lower index.
    */
  function MinusedEp(ep: seq<B1>, il: int, ir: int, L: B1, H: B1): seq<B1>
    requires 0 <= il <= |ep| && il - 1 <= ir < |ep|
  {
    Replaced(ep, il, ir, Ins(il % 2 == 1, L, ir % 2 == 0, H))
  }

  /** The list with the endpoints il..ir taken out and ins put in their place. */
  function Replaced(ep: seq<B1>, il: int, ir: int, ins: seq<B1>): seq<B1>
    requires 0 <= il <= |ep| && il - 1 <= ir < |ep|
  {
    seq(il + |ins| + |ep| - ir - 1, i requires 0 <= i < il + |ins| + |ep| - ir - 1 =>
      if i < il then ep[i] else if i < il + |ins| then ins[i - il] else ep[i - il - |ins| + ir + 1])
  }

  /** Replaced is the concatenation of the part before, the new part and the part after. */
  lemma ReplacedSplit(ep: seq<B1>, il: int, ir: int, ins: seq<B1>)
    requires 0 <= il <= |ep| && il - 1 <= ir < |ep|
    ensures Replaced(ep, il, ir, ins) == ep[..il] + ins + ep[ir + 1..]
  {
  }

  /** What Loclohi establishes about a range [lo, hi] on a well-formed fibre. */
  predicate LoclohiFacts(ep: seq<B1>, il: int, ir: int, lo: real, hi: real) {
    && 0 <= il <= |ep| && il - 1 <= ir < |ep|
    && (forall i :: 0 <= i < il ==> ep[i].w < lo)
    && (forall i :: il <= i <= ir ==> lo <= ep[i].w <= hi)
    && (forall i :: ir < i < |ep| ==> ep[i].w > hi)
  }

  lemma SortedJoin(a: seq<B1>, b: seq<B1>)
    requires Sorted(a) && Sorted(b)
    requires forall i, j :: 0 <= i < |a| && 0 <= j < |b| ==> a[i].w <= b[j].w
    ensures Sorted(a + b)
  {
    forall i, j | 0 <= i < j < |a + b|
      ensures InOrder(a + b, i, j)
    {
      if j < |a| {
        assert InOrder(a, i, j);
      } else if i >= |a| {
        assert InOrder(b, i - |a|, j - |a|);
      }
    }
  }

  /** Replacing the endpoints inside [lo, hi] keeps the list well formed. */
  lemma ReplacedWellFormed(ep: seq<B1>, il: int, ir: int, lo: real, hi: real, ins: seq<B1>)
    requires WellFormed(ep) && LoclohiFacts(ep, il, ir, lo, hi) && lo <= hi
    requires Sorted(ins) && AllWithin(ins, lo, hi)
    requires (il + |ins|) % 2 == (ir + 1) % 2
    requires forall t :: 0 <= t < |ins| ==> ins[t].blower == ((il + t) % 2 == 0)
    ensures WellFormed(Replaced(ep, il, ir, ins))
  {
    ReplacedSorted(ep, il, ir, lo, hi, ins);
    ReplacedAlternating(ep, il, ir, ins);
  }

  /** Replacing the endpoints inside [lo, hi] by sorted ones within it keeps the list sorted. */
  lemma ReplacedSorted(ep: seq<B1>, il: int, ir: int, lo: real, hi: real, ins: seq<B1>)
    requires Sorted(ep) && LoclohiFacts(ep, il, ir, lo, hi) && lo <= hi
    requires Sorted(ins) && AllWithin(ins, lo, hi)
    ensures Sorted(Replaced(ep, il, ir, ins))
  {
    var r := Replaced(ep, il, ir, ins);
    var n := il + |ins|;
    forall i, j | 0 <= i < j < |r|
      ensures InOrder(r, i, j)
    {
      if j < il {
        assert InOrder(ep, i, j);
      } else if i >= n {
        assert InOrder(ep, i - n + ir + 1, j - n + ir + 1);
      } else if il <= i && j < n {
        assert InOrder(ins, i - il, j - il);
      }
    }
  }

  /** Replacing endpoints by ones of the right parity keeps lower and upper ends alternating. */
  lemma ReplacedAlternating(ep: seq<B1>, il: int, ir: int, ins: seq<B1>)
    requires Alternating(ep) && 0 <= il <= |ep| && il - 1 <= ir < |ep|
    requires (il + |ins|) % 2 == (ir + 1) % 2
    requires forall t :: 0 <= t < |ins| ==> ins[t].blower == ((il + t) % 2 == 0)
    ensures Alternating(Replaced(ep, il, ir, ins))
  {
    var r := Replaced(ep, il, ir, ins);
    var n := il + |ins|;
    forall i | 0 <= i < |r|
      ensures r[i].blower == (i % 2 == 0)
    {
      if i < il {
        assert r[i] == ep[i];
      } else if i < n {
        assert r[i] == ins[i - il];
      } else {
        assert r[i] == ep[i - n + ir + 1];
        SameParity(i, n, ir + 1);
      }
    }
  }

  /** Shifting by the difference of two numbers of equal parity keeps the parity. */
  lemma SameParity(i: int, a: int, b: int)
    requires a % 2 == b % 2
    ensures (i - a + b) % 2 == i % 2
  {
    assert (b - a) % 2 == 0;
  }

  /** Whether an odd number of endpoints lie strictly below x. */
  function OddBelow(s: seq<B1>, x: real): bool
  {
    if s == [] then false else (s[0].w < x) != OddBelow(s[1..], x)
  }

  lemma {:induction false} OddBelowConcat(a: seq<B1>, b: seq<B1>, x: real)
    ensures OddBelow(a + b, x) == (OddBelow(a, x) != OddBelow(b, x))
  {
    if a != [] {
      assert (a + b)[0] == a[0];
      assert (a + b)[1..] == a[1..] + b;
      OddBelowConcat(a[1..], b, x);
    } else {
      assert a + b == b;
    }
  }

  lemma {:induction false} OddBelowAll(s: seq<B1>, x: real)
    ensures (forall i :: 0 <= i < |s| ==> s[i].w < x) ==> OddBelow(s, x) == (|s| % 2 == 1)
    ensures (forall i :: 0 <= i < |s| ==> s[i].w >= x) ==> !OddBelow(s, x)
  {
    if s != [] {
      OddBelowAll(s[1..], x);
      if forall i :: 0 <= i < |s| ==> s[i].w < x {
        assert forall i :: 0 <= i < |s| - 1 ==> s[1..][i].w < x;
      }
      if forall i :: 0 <= i < |s| ==> s[i].w >= x {
        assert forall i :: 0 <= i < |s| - 1 ==> s[1..][i].w >= x;
      }
    }
  }

  lemma IsEndpointConcat(a: seq<B1>, b: seq<B1>, x: real)
    ensures IsEndpoint(a + b, x) <==> IsEndpoint(a, x) || IsEndpoint(b, x)
  {
    if IsEndpoint(a + b, x) {
      var i :| 0 <= i < |a + b| && (a + b)[i].w == x;
      if i >= |a| { assert b[i - |a|].w == x; }
    }
    if IsEndpoint(a, x) {
      var i :| 0 <= i < |a| && a[i].w == x;
      assert (a + b)[i].w == x;
    }
    if IsEndpoint(b, x) {
      var i :| 0 <= i < |b| && b[i].w == x;
      assert (a + b)[i + |a|].w == x;
    }
  }

  /** The endpoints below x come first in a sorted fibre; OddBelow is the parity of their number. */
  lemma SplitBelow(ep: seq<B1>, x: real) returns (j: nat)
    requires Sorted(ep)
    ensures j <= |ep| && OddBelow(ep, x) == (j % 2 == 1)
    ensures forall i :: 0 <= i < j ==> ep[i].w < x
    ensures forall i :: j <= i < |ep| ==> ep[i].w >= x
  {
    j := 0;
    while j < |ep| && ep[j].w < x
      invariant j <= |ep|
      invariant forall i :: 0 <= i < j ==> ep[i].w < x
    {
      j := j + 1;
    }
    forall i | j <= i < |ep|
      ensures ep[i].w >= x
    {
      SortedAt(ep, j, i);
    }
    assert ep == ep[..j] + ep[j..];
    OddBelowConcat(ep[..j], ep[j..], x);
    OddBelowAll(ep[..j], x);
    OddBelowAll(ep[j..], x);
  }

  /** Every endpoint of a well-formed fibre is covered. */
  lemma EndpointCovered(ep: seq<B1>, x: real)
    requires WellFormed(ep) && IsEndpoint(ep, x)
    ensures Covers(ep, x)
  {
    var i :| 0 <= i < |ep| && ep[i].w == x;
    if i % 2 == 0 {
      SortedAt(ep, i, i + 1);
      assert InPair(ep, i / 2, x);
    } else {
      SortedAt(ep, i - 1, i);
      assert InPair(ep, (i - 1) / 2, x);
    }
  }

  /**
    * The covered set of a well-formed fibre: its endpoints, and the
    * positions with an odd number of endpoints below them.
    */
  lemma CoversChar(ep: seq<B1>, x: real)
    requires WellFormed(ep)
    ensures Covers(ep, x) <==> IsEndpoint(ep, x) || OddBelow(ep, x)
  {
    if IsEndpoint(ep, x) {
      EndpointCovered(ep, x);
    } else {
      var j := SplitBelow(ep, x);
      CoversParity(ep, x, j);
    }
  }

  /** The covered set as the endpoints and the positions with an odd count below. */
  ghost predicate CountCovers(s: seq<B1>, x: real) {
    IsEndpoint(s, x) || OddBelow(s, x)
  }

  /** The count characterisation of a list split into three segments. */
  lemma SegmentsCount(a: seq<B1>, m: seq<B1>, b: seq<B1>, x: real)
    ensures CountCovers(a + m + b, x) <==>
      IsEndpoint(a, x) || IsEndpoint(m, x) || IsEndpoint(b, x) ||
      ((OddBelow(a, x) != OddBelow(m, x)) != OddBelow(b, x))
  {
    OddBelowConcat(a + m, b, x);
    OddBelowConcat(a, m, x);
    IsEndpointConcat(a + m, b, x);
    IsEndpointConcat(a, m, x);
  }

  /** Where x lies relative to [lo, hi] fixes what each segment contributes. */
  lemma SegmentCounts(a: seq<B1>, m: seq<B1>, b: seq<B1>, lo: real, hi: real, x: real)
    requires lo <= hi
    requires forall i :: 0 <= i < |a| ==> a[i].w < lo
    requires forall i :: 0 <= i < |b| ==> b[i].w > hi
    requires AllWithin(m, lo, hi)
    ensures x < lo ==> !OddBelow(m, x) && !OddBelow(b, x) && !IsEndpoint(m, x) && !IsEndpoint(b, x)
    ensures x > hi ==>
      OddBelow(a, x) == (|a| % 2 == 1) && OddBelow(m, x) == (|m| % 2 == 1) && !IsEndpoint(a, x) && !IsEndpoint(m, x)
    ensures lo <= x <= hi ==> OddBelow(a, x) == (|a| % 2 == 1) && !OddBelow(b, x) && !IsEndpoint(a, x) && !IsEndpoint(b, x)
  {
    OddBelowAll(a, x);
    OddBelowAll(m, x);
    OddBelowAll(b, x);
  }

  /** Outside [lo, hi] the middle segment only matters through its length. */
  lemma ReplacedOutside(a: seq<B1>, m: seq<B1>, ins: seq<B1>, b: seq<B1>, lo: real, hi: real, x: real)
    requires lo <= hi && (x < lo || x > hi)
    requires forall i :: 0 <= i < |a| ==> a[i].w < lo
    requires forall i :: 0 <= i < |b| ==> b[i].w > hi
    requires AllWithin(m, lo, hi) && AllWithin(ins, lo, hi) && |ins| % 2 == |m| % 2
    ensures CountCovers(a + ins + b, x) <==> CountCovers(a + m + b, x)
  {
    SegmentsCount(a, m, b, x);
    SegmentsCount(a, ins, b, x);
    SegmentCounts(a, m, b, lo, hi, x);
    SegmentCounts(a, ins, b, lo, hi, x);
  }

  /** Inside [lo, hi] only the middle segment and the length before it decide. */
  lemma ReplacedInside(a: seq<B1>, m: seq<B1>, b: seq<B1>, lo: real, hi: real, x: real)
    requires lo <= x <= hi
    requires forall i :: 0 <= i < |a| ==> a[i].w < lo
    requires forall i :: 0 <= i < |b| ==> b[i].w > hi
    requires AllWithin(m, lo, hi)
    ensures CountCovers(a + m + b, x) <==> IsEndpoint(m, x) || ((|a| % 2 == 1) != OddBelow(m, x))
  {
    SegmentsCount(a, m, b, x);
    SegmentCounts(a, m, b, lo, hi, x);
  }

  /** The endpoints Merge and Minus put in place of those inside [lo, hi]. */
  function Ins(withL: bool, L: B1, withH: bool, H: B1): seq<B1> {
    (if withL then [L] else []) + (if withH then [H] else [])
  }

  lemma InsCounts(withL: bool, L: B1, withH: bool, H: B1, x: real)
    ensures OddBelow(Ins(withL, L, withH, H), x) == ((withL && L.w < x) != (withH && H.w < x))
    ensures IsEndpoint(Ins(withL, L, withH, H), x) <==> (withL && L.w == x) || (withH && H.w == x)
  {
    var l: seq<B1> := if withL then [L] else [];
    var h: seq<B1> := if withH then [H] else [];
    OddBelowConcat(l, h, x);
    IsEndpointConcat(l, h, x);
    assert [L][1..] == [] && [H][1..] == [];
  }

  /** Merge at the level of counts: the old set united with [lo, hi]. */
  lemma MergeCount(a: seq<B1>, m: seq<B1>, b: seq<B1>, L: B1, H: B1, lo: real, hi: real, x: real)
    requires lo <= hi && L.w == lo && H.w == hi
    requires forall i :: 0 <= i < |a| ==> a[i].w < lo
    requires forall i :: 0 <= i < |b| ==> b[i].w > hi
    requires AllWithin(m, lo, hi)
    ensures CountCovers(a + Ins(|a| % 2 == 0, L, (|a| + |m|) % 2 == 0, H) + b, x) <==>
      CountCovers(a + m + b, x) || lo <= x <= hi
  {
    var ins := Ins(|a| % 2 == 0, L, (|a| + |m|) % 2 == 0, H);
    InsCounts(|a| % 2 == 0, L, (|a| + |m|) % 2 == 0, H, x);
    if lo <= x <= hi {
      ReplacedInside(a, ins, b, lo, hi, x);
    } else {
      ReplacedOutside(a, m, ins, b, lo, hi, x);
    }
  }

  /** Minus at the level of counts. */
  lemma MinusCount(a: seq<B1>, m: seq<B1>, b: seq<B1>, L: B1, H: B1, lo: real, hi: real, x: real)
    requires lo <= hi && L.w == lo && H.w == hi
    requires forall i :: 0 <= i < |a| ==> a[i].w < lo
    requires forall i :: 0 <= i < |b| ==> b[i].w > hi
    requires AllWithin(m, lo, hi)
    ensures CountCovers(a + Ins(|a| % 2 == 1, L, (|a| + |m|) % 2 == 1, H) + b, x) ==> CountCovers(a + m + b, x)
    ensures !(lo <= x <= hi) ==>
      (CountCovers(a + Ins(|a| % 2 == 1, L, (|a| + |m|) % 2 == 1, H) + b, x) <==> CountCovers(a + m + b, x))
    ensures lo < x < hi ==> !CountCovers(a + Ins(|a| % 2 == 1, L, (|a| + |m|) % 2 == 1, H) + b, x)
  {
    var ins := Ins(|a| % 2 == 1, L, (|a| + |m|) % 2 == 1, H);
    InsCounts(|a| % 2 == 1, L, (|a| + |m|) % 2 == 1, H, x);
    if lo <= x <= hi {
      ReplacedInside(a, ins, b, lo, hi, x);
      ReplacedInside(a, m, b, lo, hi, x);
      MinusInside(|a|, m, L, H, lo, hi, x);
    } else {
      ReplacedOutside(a, m, ins, b, lo, hi, x);
    }
  }

  /**
    * Inside [lo, hi] Minus keeps at most an endpoint at lo (after an odd
    * prefix) and one at hi (before an odd tail), and the old fibre covered
    * both.
    */
  lemma MinusInside(n: nat, m: seq<B1>, L: B1, H: B1, lo: real, hi: real, x: real)
    requires lo <= x <= hi && L.w == lo && H.w == hi && AllWithin(m, lo, hi)
    ensures var ins := Ins(n % 2 == 1, L, (n + |m|) % 2 == 1, H);
      IsEndpoint(ins, x) || ((n % 2 == 1) != OddBelow(ins, x)) ==>
      IsEndpoint(m, x) || ((n % 2 == 1) != OddBelow(m, x))
    ensures var ins := Ins(n % 2 == 1, L, (n + |m|) % 2 == 1, H);
      lo < x < hi ==> !(IsEndpoint(ins, x) || ((n % 2 == 1) != OddBelow(ins, x)))
  {
    InsCounts(n % 2 == 1, L, (n + |m|) % 2 == 1, H, x);
    OddBelowAll(m, lo);
    if !IsEndpoint(m, x) && x == hi {
      OddBelowAll(m, x);
    }
  }

  /** Merge's result is well formed and covers the old set united with [lo, hi]. */
  lemma MergedCovers(ep: seq<B1>, il: int, ir: int, lo: real, hi: real, L: B1, H: B1)
    requires WellFormed(ep) && LoclohiFacts(ep, il, ir, lo, hi) && lo <= hi
    requires L.w == lo && L.blower && H.w == hi && !H.blower
    ensures WellFormed(MergedEp(ep, il, ir, L, H))
    ensures IsUnion(MergedEp(ep, il, ir, L, H), ep, lo, hi)
  {
    var a, m, b := ep[..il], ep[il..ir + 1], ep[ir + 1..];
    var ins := Ins(il % 2 == 0, L, ir % 2 == 1, H);
    ReplacedWellFormed(ep, il, ir, lo, hi, ins);
    ReplacedSplit(ep, il, ir, ins);
    assert ep == a + m + b;
    assert (|a| + |m|) % 2 == 0 <==> ir % 2 == 1;
    forall x
      ensures Covers(a + ins + b, x) <==> Covers(a + m + b, x) || lo <= x <= hi
    {
      MergedAt(a, m, b, L, H, lo, hi, x);
    }
  }

  /**
    * Minus's result is well formed, covers nothing it did not cover before,
    * agrees with the old set outside [lo, hi] and covers nothing strictly
    * inside it.
    */
  lemma MinusedCovers(ep: seq<B1>, il: int, ir: int, lo: real, hi: real, L: B1, H: B1)
    requires WellFormed(ep) && LoclohiFacts(ep, il, ir, lo, hi) && lo <= hi
    requires L.w == lo && !L.blower && H.w == hi && H.blower
    ensures WellFormed(MinusedEp(ep, il, ir, L, H))
    ensures IsDifference(MinusedEp(ep, il, ir, L, H), ep, lo, hi)
  {
    var a, m, b := ep[..il], ep[il..ir + 1], ep[ir + 1..];
    var ins := Ins(il % 2 == 1, L, ir % 2 == 0, H);
    ReplacedWellFormed(ep, il, ir, lo, hi, ins);
    ReplacedSplit(ep, il, ir, ins);
    assert ep == a + m + b;
    assert (|a| + |m|) % 2 == 1 <==> ir % 2 == 0;
    forall x
      ensures Covers(a + ins + b, x) ==> Covers(a + m + b, x)
      ensures !(lo <= x <= hi) ==> (Covers(a + ins + b, x) <==> Covers(a + m + b, x))
      ensures lo < x < hi ==> !Covers(a + ins + b, x)
    {
      MinusedAt(a, m, b, L, H, lo, hi, x);
    }
  }

  // ---------------------------------------------------------------------
  // The operations of S1 as functions of the endpoint list

  /** The first index at or after i whose position is at least lo, or |ep|. */
  function FirstAtLeast(ep: seq<B1>, lo: real, i: nat): (r: nat)
    requires i <= |ep|
    ensures i <= r <= |ep|
    ensures forall k :: i <= k < r ==> ep[k].w < lo
    ensures r < |ep| ==> ep[r].w >= lo
    decreases |ep| - i
  {
    if i == |ep| || ep[i].w >= lo then i else FirstAtLeast(ep, lo, i + 1)
  }

  /** Scanning down from j to il, the last index whose position is at most hi, or il - 1. */
  function LastAtMost(ep: seq<B1>, hi: real, il: nat, j: int): (r: int)
    requires il <= |ep| && il - 1 <= j < |ep|
    ensures il - 1 <= r <= j
    ensures forall k :: r < k <= j ==> ep[k].w > hi
    ensures r >= il ==> ep[r].w <= hi
    decreases j - il + 1
  {
    if j < il || ep[j].w <= hi then j else LastAtMost(ep, hi, il, j - 1)
  }

  /** The pair of indices S1::Loclohi returns for the range [lo, hi]. */
  function Lohi(ep: seq<B1>, lo: real, hi: real): (nat, int)
  {
    var il := FirstAtLeast(ep, lo, 0);
    (il, LastAtMost(ep, hi, il, |ep| - 1))
  }

  /**
    * On a sorted list, il is the first index at or above lo, ir the last at
    * or below hi, il <= ir + 1, and everything between them lies in [lo, hi].
    */
  lemma LohiFacts(ep: seq<B1>, lo: real, hi: real)
    requires Sorted(ep) && lo <= hi
    ensures LoclohiFacts(ep, Lohi(ep, lo, hi).0, Lohi(ep, lo, hi).1, lo, hi)
    ensures Lohi(ep, lo, hi).1 < 0 || forall k :: 0 <= k <= Lohi(ep, lo, hi).1 ==> ep[k].w <= hi
  {
    var il, ir := Lohi(ep, lo, hi).0, Lohi(ep, lo, hi).1;
    forall k | il <= k <= ir
      ensures lo <= ep[k].w <= hi
    {
      SortedAt(ep, il, k);
      SortedAt(ep, k, ir);
    }
    forall k | 0 <= k <= ir
      ensures ep[k].w <= hi
    {
      SortedAt(ep, k, ir);
    }
  }

  /** The endpoint list after S1::Merge(lo, bl, hi, bh). */
  function Merged(ep: seq<B1>, lo: real, bl: bool, hi: real, bh: bool): seq<B1>
  {
    var il, ir := Lohi(ep, lo, hi).0, Lohi(ep, lo, hi).1;
    MergedEp(ep, il, ir, NewB1(lo, true, bl), NewB1(hi, false, bh))
  }

  /**
    * The endpoint list after S1::Minus(lo, bl, hi, bh).  The new lower
    * endpoint at hi carries bh when it is inserted into a covered interval
    * but bl when it overwrites an existing endpoint, as the code has it.
    */
  function Minused(ep: seq<B1>, lo: real, bl: bool, hi: real, bh: bool): seq<B1>
  {
    var il, ir := Lohi(ep, lo, hi).0, Lohi(ep, lo, hi).1;
    MinusedEp(ep, il, ir, NewB1(lo, false, bl), NewB1(hi, true, if ir < il then bh else bl))
  }

  /** Merged at the indices Loclohi finds. */
  lemma MergedAtLohi(ep: seq<B1>, lo: real, bl: bool, hi: real, bh: bool, il: int, ir: int)
    requires (il, ir) == Lohi(ep, lo, hi)
    ensures 0 <= il <= |ep| && il - 1 <= ir < |ep|
    ensures Merged(ep, lo, bl, hi, bh) == MergedEp(ep, il, ir, NewB1(lo, true, bl), NewB1(hi, false, bh))
  {
  }

  /** Minused at the indices Loclohi finds. */
  lemma MinusedAtLohi(ep: seq<B1>, lo: real, bl: bool, hi: real, bh: bool, il: int, ir: int)
    requires (il, ir) == Lohi(ep, lo, hi)
    ensures 0 <= il <= |ep| && il - 1 <= ir < |ep|
    ensures Minused(ep, lo, bl, hi, bh) == MinusedEp(ep, il, ir, NewB1(lo, false, bl), NewB1(hi, true, if ir < il then bh else bl))
  {
  }

  /** Merge keeps the invariant and yields the union of the old set and [lo, hi]. */
  lemma MergeUnion(ep: seq<B1>, lo: real, bl: bool, hi: real, bh: bool)
    requires WellFormed(ep) && lo <= hi
    ensures WellFormed(Merged(ep, lo, bl, hi, bh))
    ensures IsUnion(Merged(ep, lo, bl, hi, bh), ep, lo, hi)
  {
    LohiFacts(ep, lo, hi);
    var il, ir := Lohi(ep, lo, hi).0, Lohi(ep, lo, hi).1;
    MergedCovers(ep, il, ir, lo, hi, NewB1(lo, true, bl), NewB1(hi, false, bh));
  }

  /** A range beyond every endpoint is appended as one new pair. */
  lemma MergePastEnd(ep: seq<B1>, lo: real, bl: bool, hi: real, bh: bool)
    requires WellFormed(ep)
    requires forall i :: 0 <= i < |ep| ==> ep[i].w < lo
    ensures Merged(ep, lo, bl, hi, bh) == ep + [NewB1(lo, true, bl), NewB1(hi, false, bh)]
  {
    var il, ir := Lohi(ep, lo, hi).0, Lohi(ep, lo, hi).1;
    assert il == |ep|;
    assert ep[..il] == ep && ep[ir + 1..] == [];
  }

  /** The pair k strictly encloses [lo, hi], so no endpoint lies inside it. */
  predicate StrictlyInside(ep: seq<B1>, k: int, lo: real, hi: real) {
    0 <= k && 2 * k + 1 < |ep| && ep[2 * k].w < lo && lo <= hi && hi < ep[2 * k + 1].w
  }

  lemma LohiStrictlyInside(ep: seq<B1>, k: int, lo: real, hi: real)
    requires WellFormed(ep) && StrictlyInside(ep, k, lo, hi)
    ensures Lohi(ep, lo, hi) == (2 * k + 1, 2 * k)
  {
    var il := FirstAtLeast(ep, lo, 0);
    SortedAt(ep, il, 2 * k);
    assert il == 2 * k + 1;
    var ir := LastAtMost(ep, hi, il, |ep| - 1);
    SortedAt(ep, 2 * k + 1, ir);
  }

  /** A range inside one covered interval, enclosing no endpoint, changes nothing. */
  lemma MergeInsideKeeps(ep: seq<B1>, k: int, lo: real, bl: bool, hi: real, bh: bool)
    requires WellFormed(ep) && StrictlyInside(ep, k, lo, hi)
    ensures Merged(ep, lo, bl, hi, bh) == ep
  {
    LohiStrictlyInside(ep, k, lo, hi);
    assert ep[..2 * k + 1] + ep[2 * k + 1..] == ep;
  }

  /**
    * Minus keeps the invariant, covers nothing it did not cover before,
    * agrees with the old set outside [lo, hi] and covers nothing strictly
    * inside it.
    */
  lemma MinusDifference(ep: seq<B1>, lo: real, bl: bool, hi: real, bh: bool)
    requires WellFormed(ep) && lo <= hi
    ensures WellFormed(Minused(ep, lo, bl, hi, bh))
    ensures IsDifference(Minused(ep, lo, bl, hi, bh), ep, lo, hi)
  {
    LohiFacts(ep, lo, hi);
    var il, ir := Lohi(ep, lo, hi).0, Lohi(ep, lo, hi).1;
    MinusedCovers(ep, il, ir, lo, hi, NewB1(lo, false, bl), NewB1(hi, true, if ir < il then bh else bl));
  }

  /** A range inside one covered interval splits it with (lo upper, hi lower). */
  lemma MinusSplits(ep: seq<B1>, k: int, lo: real, bl: bool, hi: real, bh: bool)
    requires WellFormed(ep) && StrictlyInside(ep, k, lo, hi)
    ensures Minused(ep, lo, bl, hi, bh) == ep[..2 * k + 1] + [NewB1(lo, false, bl), NewB1(hi, true, bh)] + ep[2 * k + 1..]
  {
    LohiStrictlyInside(ep, k, lo, hi);
  }

  /** Every endpoint with its lower flag flipped. */
  function Flip(ep: seq<B1>): (r: seq<B1>)
    ensures |r| == |ep|
    ensures forall i :: 0 <= i < |ep| ==> r[i] == ep[i].(blower := !ep[i].blower)
  {
    seq(|ep|, i requires 0 <= i < |ep| => ep[i].(blower := !ep[i].blower))
  }

  /** The new endpoint at the bottom of the extent. */
  function ExtentLo(wrg: I1): B1 { NewB1(wrg.lo, true, false) }

  /** The new endpoint at the top of the extent. */
  function ExtentHi(wrg: I1): B1 { NewB1(wrg.hi, false, false) }

  /** 1 when the first endpoint sits at the bottom of the extent (and is dropped), else 0. */
  function InvFront(ep: seq<B1>, wrg: I1): nat
    requires ep != []
  {
    if ep[0].w == wrg.lo then 1 else 0
  }

  /** |ep| - 1 when the last endpoint sits at the top of the extent (and is dropped), else |ep|. */
  function InvBack(ep: seq<B1>, wrg: I1): nat
    requires ep != []
  {
    if ep[|ep| - 1].w == wrg.hi then |ep| - 1 else |ep|
  }

  /**
    * The endpoint list after S1::Invert within the extent wrg: every flag
    * flipped, then an endpoint at wrg.lo dropped or a lower one added
    * there, and the same at wrg.hi.
    */
  function Inverted(ep: seq<B1>, wrg: I1): (r: seq<B1>)
    requires |ep| % 2 == 0
    ensures |r| % 2 == 0
  {
    if ep == [] then [ExtentLo(wrg), ExtentHi(wrg)]
    else
      var s, t := InvFront(ep, wrg), InvBack(ep, wrg);
      (if s == 0 then [ExtentLo(wrg)] else []) + Flip(ep[s..t]) + (if t == |ep| then [ExtentHi(wrg)] else [])
  }

  /** Same positions, index by index. */
  predicate SamePositions(a: seq<B1>, b: seq<B1>) {
    |a| == |b| && forall i :: 0 <= i < |a| ==> a[i].w == b[i].w
  }

  lemma SamePositionsSorted(a: seq<B1>, b: seq<B1>)
    requires SamePositions(a, b)
    ensures Sorted(a) <==> Sorted(b)
  {
    if Sorted(a) {
      forall i, j | 0 <= i < j < |b|
        ensures InOrder(b, i, j)
      {
        assert InOrder(a, i, j);
      }
    }
    if Sorted(b) {
      forall i, j | 0 <= i < j < |a|
        ensures InOrder(a, i, j)
      {
        assert InOrder(b, i, j);
      }
    }
  }

  lemma {:induction false} SamePositionsCount(a: seq<B1>, b: seq<B1>, x: real)
    requires SamePositions(a, b)
    ensures OddBelow(a, x) == OddBelow(b, x)
    ensures IsEndpoint(a, x) <==> IsEndpoint(b, x)
  {
    if a != [] {
      SamePositionsCount(a[1..], b[1..], x);
    }
    if IsEndpoint(a, x) {
      var i :| 0 <= i < |a| && a[i].w == x;
      assert b[i].w == x;
    }
    if IsEndpoint(b, x) {
      var i :| 0 <= i < |b| && b[i].w == x;
      assert a[i].w == x;
    }
  }

  /**
    * S1::Invert closes with ASSERT(Check()): on a well-formed fibre that
    * check holds exactly when the extent is not empty and contains every
    * endpoint.
    */
  lemma InvertedWellFormed(ep: seq<B1>, wrg: I1)
    requires WellFormed(ep)
    ensures WellFormed(Inverted(ep, wrg)) <==> wrg.lo <= wrg.hi && AllWithin(ep, wrg.lo, wrg.hi)
  {
    if wrg.lo <= wrg.hi && AllWithin(ep, wrg.lo, wrg.hi) {
      InvertedValid(ep, wrg);
    }
    if WellFormed(Inverted(ep, wrg)) {
      InvertedWithin(ep, wrg);
    }
  }

  /** A well-formed inversion places the extent around every endpoint. */
  lemma InvertedWithin(ep: seq<B1>, wrg: I1)
    requires WellFormed(ep) && WellFormed(Inverted(ep, wrg))
    ensures wrg.lo <= wrg.hi && AllWithin(ep, wrg.lo, wrg.hi)
  {
    var r := Inverted(ep, wrg);
    if ep == [] {
      assert InOrder(r, 0, 1);
    } else {
      var n := |ep|;
      var s, t := InvFront(ep, wrg), InvBack(ep, wrg);
      if s == 0 {
        assert r[0] == ExtentLo(wrg) && r[1] == Flip(ep[s..t])[0];
        assert InOrder(r, 0, 1);
      }
      if t == n {
        assert r[|r| - 1] == ExtentHi(wrg);
        assert r[|r| - 2] == Flip(ep[s..t])[t - s - 1];
        assert InOrder(r, |r| - 2, |r| - 1);
      }
      SortedAt(ep, 0, n - 1);
      forall i | 0 <= i < n
        ensures wrg.lo <= ep[i].w <= wrg.hi
      {
        SortedAt(ep, 0, i);
        SortedAt(ep, i, n - 1);
      }
    }
  }

  /** Inverting a well-formed fibre inside its extent gives a well-formed fibre inside it. */
  lemma InvertedValid(ep: seq<B1>, wrg: I1)
    requires WellFormed(ep) && wrg.lo <= wrg.hi && AllWithin(ep, wrg.lo, wrg.hi)
    ensures WellFormed(Inverted(ep, wrg)) && AllWithin(Inverted(ep, wrg), wrg.lo, wrg.hi)
  {
    if ep != [] {
      var s, t := InvFront(ep, wrg), InvBack(ep, wrg);
      var P: seq<B1> := if s == 0 then [ExtentLo(wrg)] else [];
      var Q: seq<B1> := if t == |ep| then [ExtentHi(wrg)] else [];
      assert Inverted(ep, wrg) == P + Flip(ep[s..t]) + Q;
      SortedSlice(ep, s, t);
      FlipSorted(ep[s..t]);
      SortedJoin(P, Flip(ep[s..t]));
      SortedJoin(P + Flip(ep[s..t]), Q);
      InvertedAlternating(ep, s, t, P, Q);
    }
  }

  lemma FlipSorted(m: seq<B1>)
    requires Sorted(m)
    ensures Sorted(Flip(m))
  {
    forall i, j | 0 <= i < j < |m|
      ensures InOrder(Flip(m), i, j)
    {
      assert InOrder(m, i, j);
    }
  }

  /** Dropping or adding one endpoint at the front realigns the flipped flags. */
  lemma InvertedAlternating(ep: seq<B1>, s: nat, t: nat, P: seq<B1>, Q: seq<B1>)
    requires Alternating(ep) && |ep| % 2 == 0 && s <= t <= |ep| && s <= 1 && t >= |ep| - 1
    requires |P| == 1 - s && |Q| == t + 1 - |ep|
    requires forall i :: 0 <= i < |P| ==> P[i].blower
    requires forall i :: 0 <= i < |Q| ==> !Q[i].blower
    ensures Alternating(P + Flip(ep[s..t]) + Q)
  {
    var M := Flip(ep[s..t]);
    var r := P + M + Q;
    forall i | 0 <= i < |r|
      ensures r[i].blower == (i % 2 == 0)
    {
      if i < |P| {
        assert r[i] == P[i];
      } else if i < |P| + |M| {
        assert r[i] == M[i - |P|];
        assert M[i - |P|].blower == !ep[i - |P| + s].blower;
      } else {
        assert r[i] == Q[i - |P| - |M|];
      }
    }
  }

  /**
    * Inverting complements the covered set within wrg: nothing outside wrg
    * is covered, and inside it every position that is not an endpoint of
    * the old fibre is covered exactly when it was not before.
    */
  lemma InvertedComplement(ep: seq<B1>, wrg: I1)
    requires WellFormed(ep) && wrg.lo <= wrg.hi && AllWithin(ep, wrg.lo, wrg.hi)
    ensures IsComplement(Inverted(ep, wrg), ep, wrg)
  {
    InvertedValid(ep, wrg);
    forall x | Covers(Inverted(ep, wrg), x)
      ensures wrg.Contains(x)
    {
      CoversWithin(Inverted(ep, wrg), wrg.lo, wrg.hi, x);
    }
    forall x | wrg.Contains(x) && !IsEndpoint(ep, x)
      ensures Covers(Inverted(ep, wrg), x) <==> !Covers(ep, x)
    {
      CoversChar(ep, x);
      CoversChar(Inverted(ep, wrg), x);
      InvertedCount(ep, wrg, x);
    }
  }

  /** The count characterisation of the inverted list, position by position. */
  lemma InvertedCount(ep: seq<B1>, wrg: I1, x: real)
    requires |ep| % 2 == 0 && AllWithin(ep, wrg.lo, wrg.hi)
    requires wrg.Contains(x) && !IsEndpoint(ep, x)
    ensures CountCovers(Inverted(ep, wrg), x) <==> !CountCovers(ep, x)
  {
    var L, H := ExtentLo(wrg), ExtentHi(wrg);
    if ep == [] {
      InsCounts(true, L, true, H, x);
      assert Ins(true, L, true, H) == Inverted(ep, wrg);
    } else {
      var s, t := InvFront(ep, wrg), InvBack(ep, wrg);
      var M := ep[s..t];
      var P, Q := Ins(s == 0, L, false, H), Ins(t == |ep|, H, false, L);
      assert Inverted(ep, wrg) == P + Flip(M) + Q;
      FlippedCount(P, M, Q, x);
      InsCounts(s == 0, L, false, H, x);
      InsCounts(t == |ep|, H, false, L, x);
      InvertedEnds(ep, wrg, s, t, x);
    }
  }

  /** Flipping the flags of the middle segment leaves the count characterisation alone. */
  lemma FlippedCount(P: seq<B1>, M: seq<B1>, Q: seq<B1>, x: real)
    ensures CountCovers(P + Flip(M) + Q, x) <==>
      IsEndpoint(P, x) || IsEndpoint(M, x) || IsEndpoint(Q, x) ||
      ((OddBelow(P, x) != OddBelow(M, x)) != OddBelow(Q, x))
  {
    SamePositionsCount(Flip(M), M, x);
    SegmentsCount(P, Flip(M), Q, x);
  }

  /**
    * How the old list's count characterisation splits around the part
    * Invert keeps, and what that part contributes at the ends of wrg.
    */
  lemma InvertedEnds(ep: seq<B1>, wrg: I1, s: nat, t: nat, x: real)
    requires |ep| % 2 == 0 && ep != [] && AllWithin(ep, wrg.lo, wrg.hi)
    requires s == InvFront(ep, wrg) && t == InvBack(ep, wrg)
    requires wrg.Contains(x) && !IsEndpoint(ep, x)
    ensures s <= t && !IsEndpoint(ep[s..t], x)
    ensures CountCovers(ep, x) <==> ((s == 1) != OddBelow(ep[s..t], x))
    ensures x == wrg.lo ==> s == 0 && !OddBelow(ep[s..t], x)
    ensures x == wrg.hi ==> t == |ep| && OddBelow(ep[s..t], x) == (s == 1)
  {
    var a, m, b := ep[..s], ep[s..t], ep[t..];
    assert ep == a + m + b;
    SegmentsCount(a, m, b, x);
    IsEndpointConcat(a + m, b, x);
    IsEndpointConcat(a, m, x);
    OddBelowAll(a, x);
    OddBelowAll(b, x);
    if x == wrg.lo {
      OddBelowAll(m, x);
      assert ep[0].w != x;
    }
    if x == wrg.hi {
      assert ep[|ep| - 1].w != x;
      OddBelowAll(m, x);
    }
  }

  /** The positions and lower flags, the part of an endpoint Invert restores. */
  function Shape(ep: seq<B1>): seq<(real, bool)>
  {
    seq(|ep|, i requires 0 <= i < |ep| => (ep[i].w, ep[i].blower))
  }

  /** No pair of zero length sits at either end of the extent. */
  predicate NoZeroPairAtEnds(ep: seq<B1>, wrg: I1) {
    |ep| >= 2 ==>
      !(ep[0].w == wrg.lo && ep[1].w == wrg.lo) &&
      !(ep[|ep| - 2].w == wrg.hi && ep[|ep| - 1].w == wrg.hi)
  }

  /** Inverting twice restores every position and lower flag. */
  lemma InvertTwice(ep: seq<B1>, wrg: I1)
    requires WellFormed(ep) && wrg.lo <= wrg.hi && AllWithin(ep, wrg.lo, wrg.hi)
    requires NoZeroPairAtEnds(ep, wrg)
    ensures Shape(Inverted(Inverted(ep, wrg), wrg)) == Shape(ep)
  {
    var L, H := ExtentLo(wrg), ExtentHi(wrg);
    if ep == [] {
      var r := Inverted(ep, wrg);
      assert Flip(r[1..1]) == [];
    } else {
      InvertedAgain(ep, wrg);
      EndsFlags(ep);
      ShapeRestored(ep, InvFront(ep, wrg), InvBack(ep, wrg), L, H);
    }
  }

  /** A well-formed list starts with a lower endpoint and ends with an upper one. */
  lemma EndsFlags(ep: seq<B1>)
    requires |ep| % 2 == 0 && Alternating(ep) && ep != []
    ensures ep[0].blower && !ep[|ep| - 1].blower
  {
    var n := |ep| - 1;
    assert n % 2 == 1;
    assert ep[n].blower == (n % 2 == 0);
  }

  /** Putting back endpoints with the same position and flag restores the shape. */
  lemma ShapeRestored(ep: seq<B1>, s: nat, t: nat, L: B1, H: B1)
    requires s <= t <= |ep| && s <= 1 && |ep| - 1 <= t
    requires s == 1 ==> ep[0].w == L.w && ep[0].blower == L.blower
    requires t < |ep| ==> ep[|ep| - 1].w == H.w && ep[|ep| - 1].blower == H.blower
    ensures Shape((if s == 1 then [L] else []) + ep[s..t] + (if t < |ep| then [H] else [])) == Shape(ep)
  {
    var P: seq<B1> := if s == 1 then [L] else [];
    var Q: seq<B1> := if t < |ep| then [H] else [];
    assert ep == ep[..s] + ep[s..t] + ep[t..];
    if s == 1 {
      ShapeSingle(L, ep[..s]);
    }
    if t < |ep| {
      ShapeSingle(H, ep[t..]);
    }
    ShapeConcat3(P, ep[s..t], Q);
    ShapeConcat3(ep[..s], ep[s..t], ep[t..]);
  }

  /**
    * The second inversion drops exactly the endpoints the first one added
    * and adds back, as fresh endpoints, those it dropped.
    */
  lemma InvertedAgain(ep: seq<B1>, wrg: I1)
    requires |ep| % 2 == 0 && ep != [] && NoZeroPairAtEnds(ep, wrg)
    ensures InvFront(ep, wrg) <= InvBack(ep, wrg)
    ensures Inverted(Inverted(ep, wrg), wrg) ==
      (if InvFront(ep, wrg) == 1 then [ExtentLo(wrg)] else []) +
      ep[InvFront(ep, wrg)..InvBack(ep, wrg)] +
      (if InvBack(ep, wrg) < |ep| then [ExtentHi(wrg)] else [])
  {
    var L, H := ExtentLo(wrg), ExtentHi(wrg);
    var n, s, t := |ep|, InvFront(ep, wrg), InvBack(ep, wrg);
    var P: seq<B1> := if s == 0 then [L] else [];
    var Q: seq<B1> := if t == n then [H] else [];
    var M := Flip(ep[s..t]);
    var r := Inverted(ep, wrg);
    assert r == P + M + Q;
    FlipFlip(ep[s..t]);
    if r == [] {
      assert ep[s..t] == [];
    } else {
      var s', t' := InvFront(r, wrg), InvBack(r, wrg);
      assert s' == 1 - s by {
        if s == 1 { assert M != [] ==> M[0].w == ep[1].w; }
      }
      assert t' == (if t == n then |r| - 1 else |r|) by {
        if t == n - 1 { assert M != [] ==> M[|M| - 1].w == ep[n - 2].w; }
      }
      assert r[s'..t'] == M;
    }
  }

  /** Flipping twice gives back the list. */
  lemma FlipFlip(m: seq<B1>)
    ensures Flip(Flip(m)) == m
  {
  }

  lemma ShapeSingle(p: B1, e: seq<B1>)
    requires |e| == 1 && e[0].w == p.w && e[0].blower == p.blower
    ensures Shape([p]) == Shape(e)
  {
  }

  lemma ShapeConcat3(a: seq<B1>, m: seq<B1>, b: seq<B1>)
    ensures Shape(a + m + b) == Shape(a) + Shape(m) + Shape(b)
  {
  }

  /** Every endpoint with its cut code set to c. */
  function WithCutCodes(ep: seq<B1>, c: int): (r: seq<B1>)
    ensures |r| == |ep|
    ensures forall i :: 0 <= i < |ep| ==> r[i] == ep[i].(cutcode := c)
  {
    seq(|ep|, i requires 0 <= i < |ep| => ep[i].(cutcode := c))
  }

  /** Cut codes play no part in the invariant or the covered set. */
  lemma CutCodesKeep(ep: seq<B1>, c: int)
    ensures WellFormed(WithCutCodes(ep, c)) <==> WellFormed(ep)
    ensures Shape(WithCutCodes(ep, c)) == Shape(ep)
    ensures SameCover(WithCutCodes(ep, c), ep)
  {
    var r := WithCutCodes(ep, c);
    SamePositionsSorted(r, ep);
    forall x
      ensures Covers(r, x) <==> Covers(ep, x)
    {
      if Covers(r, x) {
        var k :| InPair(r, k, x);
        assert InPair(ep, k, x);
      }
      if Covers(ep, x) {
        var k :| InPair(ep, k, x);
        assert InPair(r, k, x);
      }
    }
  }

  /** Endpoint i stamped with contour number n. */
  function Stamp(ep: seq<B1>, i: nat, n: int): (r: seq<B1>)
    requires i < |ep|
    ensures |r| == |ep| && r[i].contournumber == n
    ensures forall j :: 0 <= j < |ep| && j != i ==> r[j] == ep[j]
  {
    ep[i := ep[i].(contournumber := n)]
  }

  /** Stamping keeps positions and flags, hence the invariant and the covered set. */
  lemma StampKeeps(ep: seq<B1>, i: nat, n: int)
    requires i < |ep|
    ensures Shape(Stamp(ep, i, n)) == Shape(ep)
    ensures WellFormed(Stamp(ep, i, n)) <==> WellFormed(ep)
    ensures SameCover(Stamp(ep, i, n), ep)
  {
    var r := Stamp(ep, i, n);
    SamePositionsSorted(r, ep);
    forall x
      ensures Covers(r, x) <==> Covers(ep, x)
    {
      if Covers(r, x) {
        var k :| InPair(r, k, x);
        assert InPair(ep, k, x);
      }
      if Covers(ep, x) {
        var k :| InPair(ep, k, x);
        assert InPair(r, k, x);
      }
    }
  }

  lemma MergedAt(a: seq<B1>, m: seq<B1>, b: seq<B1>, L: B1, H: B1, lo: real, hi: real, x: real)
    requires lo <= hi && L.w == lo && H.w == hi
    requires forall i :: 0 <= i < |a| ==> a[i].w < lo
    requires forall i :: 0 <= i < |b| ==> b[i].w > hi
    requires AllWithin(m, lo, hi)
    requires WellFormed(a + m + b) && WellFormed(a + Ins(|a| % 2 == 0, L, (|a| + |m|) % 2 == 0, H) + b)
    ensures Covers(a + Ins(|a| % 2 == 0, L, (|a| + |m|) % 2 == 0, H) + b, x) <==> Covers(a + m + b, x) || lo <= x <= hi
  {
    CoversChar(a + m + b, x);
    CoversChar(a + Ins(|a| % 2 == 0, L, (|a| + |m|) % 2 == 0, H) + b, x);
    MergeCount(a, m, b, L, H, lo, hi, x);
  }

  lemma MinusedAt(a: seq<B1>, m: seq<B1>, b: seq<B1>, L: B1, H: B1, lo: real, hi: real, x: real)
    requires lo <= hi && L.w == lo && H.w == hi
    requires forall i :: 0 <= i < |a| ==> a[i].w < lo
    requires forall i :: 0 <= i < |b| ==> b[i].w > hi
    requires AllWithin(m, lo, hi)
    requires WellFormed(a + m + b) && WellFormed(a + Ins(|a| % 2 == 1, L, (|a| + |m|) % 2 == 1, H) + b)
    ensures Covers(a + Ins(|a| % 2 == 1, L, (|a| + |m|) % 2 == 1, H) + b, x) ==> Covers(a + m + b, x)
    ensures !(lo <= x <= hi) ==>
      (Covers(a + Ins(|a| % 2 == 1, L, (|a| + |m|) % 2 == 1, H) + b, x) <==> Covers(a + m + b, x))
    ensures lo < x < hi ==> !Covers(a + Ins(|a| % 2 == 1, L, (|a| + |m|) % 2 == 1, H) + b, x)
  {
    CoversChar(a + m + b, x);
    CoversChar(a + Ins(|a| % 2 == 1, L, (|a| + |m|) % 2 == 1, H) + b, x);
    MinusCount(a, m, b, L, H, lo, hi, x);
  }

  // ---------------------------------------------------------------------
  // The in-place steps of S1's methods, related to the functions above

  /** Pair k is the first pair of the list that encloses x. */
  ghost predicate FirstPairAt(ep: seq<B1>, k: int, x: real) {
    InPair(ep, k, x) && forall k' :: 0 <= k' < k ==> !InPair(ep, k', x)
  }

  /** Merge past the last endpoint appends the new pair. */
  lemma MergeOffEnd(e: seq<B1>, il: int, ir: int, L: B1, H: B1)
    requires |e| % 2 == 0 && il == |e| && ir == il - 1
    ensures e + [L, H] == MergedEp(e, il, ir, L, H)
  {
  }

  /** Merge of a range that holds no endpoint: a new pair inside a gap, nothing inside a covered interval. */
  lemma MergeBetween(e: seq<B1>, il: int, ir: int, L: B1, H: B1, r: seq<B1>)
    requires Alternating(e) && 0 <= il < |e| && ir == il - 1
    requires r == if e[il].blower then (e[..il] + [H, H] + e[il..])[il := L] else e
    ensures r == MergedEp(e, il, ir, L, H)
  {
    if e[il].blower {
      assert r == e[..il] + [L, H] + e[il..];
    }
  }

  /** Minus past the last endpoint changes nothing. */
  lemma MinusOffEnd(e: seq<B1>, il: int, ir: int, L: B1, H: B1)
    requires |e| % 2 == 0 && il == |e| && ir == il - 1
    ensures e == MinusedEp(e, il, ir, L, H)
  {
  }

  /** Minus of a range that holds no endpoint: a new gap inside a covered interval, nothing inside a gap. */
  lemma MinusBetween(e: seq<B1>, il: int, ir: int, L: B1, H: B1, r: seq<B1>)
    requires Alternating(e) && 0 <= il < |e| && ir == il - 1
    requires r == if e[il].blower then e else e[..il] + [L] + (e[..il] + [H] + e[il..])[il..]
    ensures r == MinusedEp(e, il, ir, L, H)
  {
    if !e[il].blower {
      assert r == e[..il] + [L, H] + e[il..];
    }
  }

  /**
    * The overwrite-then-erase steps shared by Merge and Minus: e2 is e with
    * the endpoint at il0 replaced by L (when withL) and the one at ir0 by H
    * (when withH); erasing the endpoints i..j of e2 that are left inside
    * the range gives e with il0..ir0 replaced by the new endpoints.
    */
  lemma StepsReplaced(e: seq<B1>, e2: seq<B1>, il0: int, ir0: int, i: int, j: int,
                      withL: bool, L: B1, withH: bool, H: B1)
    requires 0 <= il0 <= ir0 < |e| == |e2|
    requires i == (if withL then il0 + 1 else il0) && j == (if withH then ir0 - 1 else ir0) && i <= j + 1
    requires withL ==> e2[il0] == L
    requires withH ==> e2[ir0] == H
    requires forall k :: 0 <= k < |e| && k != il0 && k != ir0 ==> e2[k] == e[k]
    ensures (if i <= j then e2[..i] + e2[j + 1..] else e2) == Replaced(e, il0, ir0, Ins(withL, L, withH, H))
  {
    if i > j {
      assert e2 == e2[..i] + e2[j + 1..];
    }
    var ins := Ins(withL, L, withH, H);
    var lhs := e2[..i] + e2[j + 1..];
    var R := Replaced(e, il0, ir0, ins);
    assert |lhs| == |R|;
    forall k | 0 <= k < |lhs|
      ensures lhs[k] == R[k]
    {
      if k < il0 {
        assert lhs[k] == e2[k];
      } else if k < i {
        assert lhs[k] == L && R[k] == ins[0];
      } else if k < il0 + |ins| {
        assert lhs[k] == e2[ir0] && R[k] == ins[|ins| - 1];
      } else {
        assert lhs[k] == e2[k - i + j + 1];
      }
    }
  }

  /** Flipping a slice is the slice of the flipped list. */
  lemma FlipSlice(e: seq<B1>, s: int, t: int)
    requires 0 <= s <= t <= |e|
    ensures Flip(e)[s..t] == Flip(e[s..t])
  {
  }

  /** Invert's steps: every flag flipped, then the front fixed, then the back. */
  lemma InvertSteps(e: seq<B1>, wrg: I1, f1: seq<B1>, r: seq<B1>)
    requires |e| % 2 == 0 && e != []
    requires f1 == if Flip(e)[0].w == wrg.lo then Flip(e)[1..] else [ExtentLo(wrg)] + Flip(e)
    requires f1 != [] && r == if f1[|f1| - 1].w == wrg.hi then f1[..|f1| - 1] else f1 + [ExtentHi(wrg)]
    ensures r == Inverted(e, wrg)
  {
    var f := Flip(e);
    var s, t := InvFront(e, wrg), InvBack(e, wrg);
    var P: seq<B1> := if s == 0 then [ExtentLo(wrg)] else [];
    var Q: seq<B1> := if t == |e| then [ExtentHi(wrg)] else [];
    FlipSlice(e, s, t);
    assert f1 == P + f[s..];
    assert f1[|f1| - 1] == f[|f| - 1];
    if t == |e| {
      assert f[s..] == f[s..t];
    } else {
      assert f1[..|f1| - 1] == P + f[s..t];
    }
  }

  // ---------------------------------------------------------------------
  // The pair ContainsRG reports

  /** The index of the first pair at or after pair k that encloses x, or -1 when none does. */
  function FirstPairFrom(ep: seq<B1>, x: real, k: nat): (r: int)
    ensures r == -1 || (k <= r && InPair(ep, r, x))
    decreases |ep| - 2 * k
  {
    if 2 * k + 1 >= |ep| then -1
    else if ep[2 * k].w <= x <= ep[2 * k + 1].w then k
    else FirstPairFrom(ep, x, k + 1)
  }

  /** The scan from pair k skips exactly the pairs that do not enclose x. */
  lemma {:induction false} FirstPairFromChar(ep: seq<B1>, x: real, k: nat)
    ensures var r := FirstPairFrom(ep, x, k);
      && (r == -1 <==> forall k' :: k <= k' ==> !InPair(ep, k', x))
      && (r >= 0 ==> forall k' :: k <= k' < r ==> !InPair(ep, k', x))
    decreases |ep| - 2 * k
  {
    if 2 * k + 1 < |ep| && !(ep[2 * k].w <= x <= ep[2 * k + 1].w) {
      FirstPairFromChar(ep, x, k + 1);
      assert !InPair(ep, k, x);
    }
  }

  /**
    * The interval ContainsRG returns: the first pair enclosing x, or the
    * unit interval when there is none.
    */
  function PairRG(ep: seq<B1>, x: real): (r: I1)
    ensures Covers(ep, x) ==> exists k :: FirstPairAt(ep, k, x) && r == I1(ep[2 * k].w, ep[2 * k + 1].w)
    ensures Covers(ep, x) ==> r.Contains(x)
    ensures !Covers(ep, x) ==> r == I1unit
  {
    FirstPairFromChar(ep, x, 0);
    var k := FirstPairFrom(ep, x, 0);
    if k < 0 then I1unit
    else
      assert FirstPairAt(ep, k, x);
      I1(ep[2 * k].w, ep[2 * k + 1].w)
  }
}
