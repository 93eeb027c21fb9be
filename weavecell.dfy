// S2weaveCell: one cell of a weave, the rectangle between two neighbouring
// u-fibres and two neighbouring v-fibres, with the fibre endpoints on its
// boundary listed in the order met walking round it, and the lower
// endpoints paired with the entries before them.

module WeaveCell {
  import opened Geom
  import opened Endpoints
  import opened Fibres
  import opened Weave

  /** Bit 0 of a corner or side number. */
  function Bit0(x: nat): bool { x % 2 == 1 }

  /** Bit 1 of a corner or side number. */
  function Bit1(x: nat): bool { (x / 2) % 2 == 1 }

  /** The two low bits of x give its place among four. */
  lemma BitsQuarter(x: nat)
    ensures Bit0(x) <==> x % 4 == 1 || x % 4 == 3
    ensures Bit1(x) <==> x % 4 >= 2
    ensures Bit1(x + 1) <==> x % 4 == 1 || x % 4 == 2
  {
    var q := x / 4;
    assert x == 4 * q + x % 4;
    assert x / 2 == 2 * q + (x % 4) / 2;
    assert (x + 1) / 2 == 2 * q + (x % 4 + 1) / 2;
  }

  /**
    * An entry of the boundary list: the side (0 left, 1 top, 2 right,
    * 3 bottom) and the index of the endpoint on that side's fibre.
    */
  datatype Bound = Bound(side: nat, slot: nat)

  // ---------------------------------------------------------------------
  // Finding the cell

  /**
    * FindCellParal: the least index from 1 whose fibre lies beyond lw, or
    * the size of the family when there is none.
    */
  method FindCellParal(wfibs: seq<Fibre>, lw: real) returns (res: nat)
    ensures 1 <= res && (res <= |wfibs| || res == 1)
    ensures forall j :: 1 <= j < res && j < |wfibs| ==> wfibs[j].wp <= lw
    ensures res < |wfibs| ==> wfibs[res].wp > lw
  {
    res := 1;
    while res < |wfibs| && !(wfibs[res].wp > lw)
      invariant 1 <= res && (res <= |wfibs| || res == 1)
      invariant forall j :: 1 <= j < res && j < |wfibs| ==> wfibs[j].wp <= lw
    {
      res := res + 1;
    }
  }

  // ---------------------------------------------------------------------
  // The endpoints one side contributes

  /**
    * The index range AddBoundListMatches feeds in: Loclohi's, less a lower
    * endpoint at rg.lo at its start and an upper endpoint at rg.hi at its end.
    */
  function MatchRange(ep: seq<B1>, rg: I1): (r: (int, int))
    ensures 0 <= r.0 <= |ep| && r.0 - 1 <= r.1 < |ep|
  {
    var il, ir := Lohi(ep, rg.lo, rg.hi).0, Lohi(ep, rg.lo, rg.hi).1;
    var il' := if il <= ir && ep[il].blower && ep[il].w == rg.lo then il + 1 else il;
    var ir' := if il' <= ir && !ep[ir].blower && ep[ir].w == rg.hi then ir - 1 else ir;
    (il', ir')
  }

  /** Entries of side edgno for slots a up to b. */
  function Ascending(edgno: nat, a: nat, b: int): (r: seq<Bound>)
    ensures |r| == if a <= b then b - a + 1 else 0
    decreases b - a
  {
    if a > b then [] else Ascending(edgno, a, b - 1) + [Bound(edgno, b)]
  }

  /** Entries of side edgno for slots b down to a. */
  function Descending(edgno: nat, a: nat, b: int): (r: seq<Bound>)
    ensures |r| == if a <= b then b - a + 1 else 0
    decreases b - a
  {
    if a > b then [] else Descending(edgno, a + 1, b) + [Bound(edgno, a)]
  }

  /** The entries AddBoundListMatches appends for side edgno: ascending, or descending when going down. */
  function Matches(ep: seq<B1>, rg: I1, edgno: nat, bGoingDown: bool): seq<Bound> {
    var a, b := MatchRange(ep, rg).0, MatchRange(ep, rg).1;
    if bGoingDown then Descending(edgno, a, b) else Ascending(edgno, a, b)
  }

  /** bLeftIn of AddBoundListMatches: the endpoint before the range is a lower one. */
  function LeftIn(ep: seq<B1>, rg: I1): bool {
    var a := MatchRange(ep, rg).0;
    if a == 0 then false else ep[a - 1].blower
  }

  /** bRightIn of AddBoundListMatches: the endpoint after the range is an upper one. */
  function RightIn(ep: seq<B1>, rg: I1): bool {
    var b := MatchRange(ep, rg).1;
    if b == |ep| - 1 then false else !ep[b + 1].blower
  }

  /**
    * AddBoundListMatches: appends the endpoints of fibre fw inside rg to the
    * list as entries of side edgno, in the direction the walk round the cell
    * runs, and tells whether the fibre is inside where that walk leaves it.
    */
  method AddBoundListMatches(boundlist: seq<Bound>, fw: Fibre, rg: I1, edgno: nat, bGoingDown: bool)
    returns (bl: seq<Bound>, bEndIn: bool)
    ensures bl == boundlist + Matches(fw.ep, rg, edgno, bGoingDown)
    ensures bEndIn == if bGoingDown then LeftIn(fw.ep, rg) else RightIn(fw.ep, rg)
  {
    var ep := fw.ep;
    var il, ir := EndpointsLoclohi(ep, rg);
    if il <= ir && ep[il].blower && ep[il].w == rg.lo {
      il := il + 1;
    }
    if il <= ir && !ep[ir].blower && ep[ir].w == rg.hi {
      ir := ir - 1;
    }
    assert (il, ir) == MatchRange(ep, rg);
    var bLeftIn := if il == 0 then false else ep[il - 1].blower;
    var bRightIn := if ir == |ep| - 1 then false else !ep[ir + 1].blower;
    bEndIn := if bGoingDown then bLeftIn else bRightIn;
    if !bGoingDown {
      bl := AppendAscending(boundlist, edgno, il, ir);
    } else {
      bl := AppendDescending(boundlist, edgno, il, ir);
    }
  }

  /** The upward loop of AddBoundListMatches: slots il to ir in turn. */
  method AppendAscending(boundlist: seq<Bound>, edgno: nat, il: nat, ir: int) returns (bl: seq<Bound>)
    requires il <= ir + 1
    ensures bl == boundlist + Ascending(edgno, il, ir)
  {
    bl := boundlist;
    var i := il;
    while i <= ir
      invariant il <= i <= ir + 1
      invariant bl == boundlist + Ascending(edgno, il, i - 1)
    {
      bl := bl + [Bound(edgno, i)];
      i := i + 1;
    }
  }

  /** The downward loop of AddBoundListMatches: slots ir down to il. */
  method AppendDescending(boundlist: seq<Bound>, edgno: nat, il: nat, ir: int) returns (bl: seq<Bound>)
    requires il <= ir + 1
    ensures bl == boundlist + Descending(edgno, il, ir)
  {
    bl := boundlist;
    var i := ir;
    while i >= il
      invariant il - 1 <= i <= ir
      invariant bl == boundlist + Descending(edgno, i + 1, ir)
    {
      bl := bl + [Bound(edgno, i)];
      i := i - 1;
    }
  }

  /**
    * On a well-formed fibre and an ordered range, the entries lie in the
    * range; every endpoint in the range is entered unless it is a lower one
    * at rg.lo or an upper one at rg.hi; and Loclohi's first endpoint, when a
    * lower one at rg.lo, and its last, when an upper one at rg.hi, are not.
    */
  lemma MatchesChar(ep: seq<B1>, rg: I1)
    requires WellFormed(ep) && rg.lo <= rg.hi
    ensures var a, b := MatchRange(ep, rg).0, MatchRange(ep, rg).1;
      forall j :: a <= j <= b ==> rg.Contains(ep[j].w)
    ensures var a, b := MatchRange(ep, rg).0, MatchRange(ep, rg).1;
      forall j :: 0 <= j < |ep| && rg.Contains(ep[j].w) && !(ep[j].blower && ep[j].w == rg.lo)
        && !(!ep[j].blower && ep[j].w == rg.hi)
        ==> a <= j <= b
    ensures var il, ir := Lohi(ep, rg.lo, rg.hi).0, Lohi(ep, rg.lo, rg.hi).1;
      il <= ir && ep[il].blower && ep[il].w == rg.lo ==> il < MatchRange(ep, rg).0
    ensures var il, ir := Lohi(ep, rg.lo, rg.hi).0, Lohi(ep, rg.lo, rg.hi).1;
      il <= ir && !ep[ir].blower && ep[ir].w == rg.hi ==> MatchRange(ep, rg).1 < ir
  {
    LohiFacts(ep, rg.lo, rg.hi);
  }

  /** Positions at or past the first one at or above lo are at or above lo. */
  lemma AtOrAbove(ep: seq<B1>, lo: real, hi: real, j: int)
    requires Sorted(ep) && lo <= hi && 0 <= j < |ep|
    ensures ep[j].w < lo <==> j < Lohi(ep, lo, hi).0
    ensures ep[j].w <= hi <==> j <= Lohi(ep, lo, hi).1 || j < Lohi(ep, lo, hi).0
  {
    LohiFacts(ep, lo, hi);
    var il := Lohi(ep, lo, hi).0;
    if j >= il {
      SortedAt(ep, il, j);
    }
  }

  /**
    * On a well-formed fibre and an ordered range, bLeftIn says exactly
    * whether the fibre covers rg.lo, and bRightIn whether it covers rg.hi.
    */
  lemma InsideFlags(ep: seq<B1>, rg: I1)
    requires WellFormed(ep) && rg.lo <= rg.hi
    ensures LeftIn(ep, rg) <==> Covers(ep, rg.lo)
    ensures RightIn(ep, rg) <==> Covers(ep, rg.hi)
  {
    LeftInCovers(ep, rg);
    RightInCovers(ep, rg);
  }

  lemma LeftInCovers(ep: seq<B1>, rg: I1)
    requires WellFormed(ep) && rg.lo <= rg.hi
    ensures LeftIn(ep, rg) <==> Covers(ep, rg.lo)
  {
    LohiFacts(ep, rg.lo, rg.hi);
    var il, ir := Lohi(ep, rg.lo, rg.hi).0, Lohi(ep, rg.lo, rg.hi).1;
    var a := if il <= ir && ep[il].blower && ep[il].w == rg.lo then il + 1 else il;
    assert a == MatchRange(ep, rg).0;
    if a > 0 && ep[a - 1].blower {
      LowerBeforeCovers(ep, rg.lo, rg.hi, il, ir, a);
    }
    if Covers(ep, rg.lo) {
      var k :| InPair(ep, k, rg.lo);
      CoversLowerBefore(ep, rg.lo, rg.hi, il, ir, k);
    }
  }

  /** An entry range starting after a lower endpoint starts inside the pair that endpoint opens. */
  lemma LowerBeforeCovers(ep: seq<B1>, lo: real, hi: real, il: int, ir: int, a: int)
    requires WellFormed(ep) && LoclohiFacts(ep, il, ir, lo, hi) && lo <= hi
    requires a == if il <= ir && ep[il].blower && ep[il].w == lo then il + 1 else il
    requires a > 0 && ep[a - 1].blower
    ensures InPair(ep, (a - 1) / 2, lo)
  {
    assert (a - 1) % 2 == 0;
    assert a < |ep|;
    if a == il + 1 {
      SortedAt(ep, il, a);
    } else {
      assert ep[a - 1].w < lo;
    }
  }

  /** When pair k covers lo, the entry range starts just after a lower endpoint. */
  lemma CoversLowerBefore(ep: seq<B1>, lo: real, hi: real, il: int, ir: int, k: int)
    requires WellFormed(ep) && LoclohiFacts(ep, il, ir, lo, hi) && lo <= hi
    requires InPair(ep, k, lo)
    ensures var a := if il <= ir && ep[il].blower && ep[il].w == lo then il + 1 else il;
      a > 0 && ep[a - 1].blower
  {
    assert il <= 2 * k + 1;
    if il % 2 == 0 {
      assert il <= 2 * k;
      SortedAt(ep, il, 2 * k);
      assert ep[il].w == lo && ep[il].blower;
    } else {
      assert ep[il].blower == false;
      assert ep[il - 1].blower;
    }
  }

  lemma RightInCovers(ep: seq<B1>, rg: I1)
    requires WellFormed(ep) && rg.lo <= rg.hi
    ensures RightIn(ep, rg) <==> Covers(ep, rg.hi)
  {
    LohiFacts(ep, rg.lo, rg.hi);
    var il, ir := Lohi(ep, rg.lo, rg.hi).0, Lohi(ep, rg.lo, rg.hi).1;
    var a := if il <= ir && ep[il].blower && ep[il].w == rg.lo then il + 1 else il;
    var b := if a <= ir && !ep[ir].blower && ep[ir].w == rg.hi then ir - 1 else ir;
    assert b == MatchRange(ep, rg).1;
    if b != |ep| - 1 && !ep[b + 1].blower {
      UpperAfterCovers(ep, rg.lo, rg.hi, il, ir, a, b);
    }
    if Covers(ep, rg.hi) {
      var k :| InPair(ep, k, rg.hi);
      CoversUpperAfter(ep, rg.lo, rg.hi, il, ir, a, k);
    }
  }

  /** An entry range ending before an upper endpoint ends inside the pair that endpoint closes. */
  lemma UpperAfterCovers(ep: seq<B1>, lo: real, hi: real, il: int, ir: int, a: int, b: int)
    requires WellFormed(ep) && LoclohiFacts(ep, il, ir, lo, hi) && lo <= hi
    requires a == if il <= ir && ep[il].blower && ep[il].w == lo then il + 1 else il
    requires b == if a <= ir && !ep[ir].blower && ep[ir].w == hi then ir - 1 else ir
    requires b != |ep| - 1 && !ep[b + 1].blower
    ensures InPair(ep, b / 2, hi)
  {
    assert b % 2 == 0 && b >= 0;
    if b == ir - 1 {
      assert ep[b + 1].w == hi;
      if b >= il {
        assert ep[b].w <= hi;
      } else {
        assert ep[b].w < lo;
      }
    } else if b >= il {
      assert ep[b].w <= hi && ep[b + 1].w > hi;
    } else {
      assert ep[b].w < lo && ep[b + 1].w > hi;
    }
  }

  /** When pair k covers hi, the entry range ends just before an upper endpoint. */
  lemma CoversUpperAfter(ep: seq<B1>, lo: real, hi: real, il: int, ir: int, a: int, k: int)
    requires WellFormed(ep) && LoclohiFacts(ep, il, ir, lo, hi) && lo <= hi
    requires a == if il <= ir && ep[il].blower && ep[il].w == lo then il + 1 else il
    requires InPair(ep, k, hi)
    ensures var b := if a <= ir && !ep[ir].blower && ep[ir].w == hi then ir - 1 else ir;
      b != |ep| - 1 && !ep[b + 1].blower
  {
    assert 2 * k <= ir;
    if ir % 2 == 1 {
      SortedAt(ep, 2 * k + 1, ir);
      assert ep[ir].w == hi && !ep[ir].blower;
    } else {
      assert ir + 1 < |ep|;
      assert !ep[ir + 1].blower;
    }
  }

  // ---------------------------------------------------------------------
  // Pairing the list

  /** The cyclic predecessor of entry i among n. */
  function Pred(i: nat, n: nat): nat {
    if i == 0 then (if n == 0 then 0 else n - 1) else i - 1
  }

  /** The number of true entries. */
  function CountTrue(s: seq<bool>): nat {
    if s == [] then 0 else CountTrue(s[..|s| - 1]) + (if s[|s| - 1] then 1 else 0)
  }

  /** The pairs CreateBoundList makes among the first m entries: each lower one joined to the one before it. */
  function PairsUpTo(lower: seq<bool>, m: nat): seq<(nat, nat)>
    requires m <= |lower|
  {
    if m == 0 then []
    else PairsUpTo(lower, m - 1) + (if lower[m - 1] then [(Pred(m - 1, |lower|), m - 1)] else [])
  }

  /**
    * The pairs name every lower entry once, in increasing order, each with
    * its cyclic predecessor.
    */
  lemma {:induction false} PairsChar(lower: seq<bool>, m: nat)
    requires m <= |lower|
    ensures var r := PairsUpTo(lower, m);
      && |r| == CountTrue(lower[..m])
      && (forall k :: 0 <= k < |r| ==> r[k].1 < m && lower[r[k].1] && r[k].0 == Pred(r[k].1, |lower|))
      && (forall k :: 0 < k < |r| ==> r[k - 1].1 < r[k].1)
  {
    if m > 0 {
      PairsChar(lower, m - 1);
      assert lower[..m][..m - 1] == lower[..m - 1];
    }
  }

  /** A list of even length whose entries alternate has as many lower entries as others. */
  lemma {:induction false} HalfLower(lower: seq<bool>)
    requires |lower| % 2 == 0
    requires forall i :: 0 <= i < |lower| - 1 ==> lower[i] != lower[i + 1]
    ensures 2 * CountTrue(lower) == |lower|
  {
    if lower != [] {
      var s := lower[..|lower| - 2];
      HalfLower(s);
      assert lower[..|lower| - 1][..|lower| - 2] == s;
    }
  }

  /** With lower entries alternating round an even list, the pairs number half the entries. */
  lemma PairsHalf(lower: seq<bool>)
    requires |lower| % 2 == 0
    requires forall i :: 0 <= i < |lower| - 1 ==> lower[i] != lower[i + 1]
    ensures 2 * |PairsUpTo(lower, |lower|)| == |lower|
  {
    PairsChar(lower, |lower|);
    assert lower[..|lower|] == lower;
    HalfLower(lower);
  }

  /** The entries all name one of the four sides and an endpoint on it. */
  predicate EntriesValid(bl: seq<Bound>, sides: seq<Fibre>) {
    |sides| == 4 && forall k :: 0 <= k < |bl| ==> bl[k].side < 4 && bl[k].slot < |sides[bl[k].side].ep|
  }

  /** GetBoundLower of one entry: the endpoint's blower, negated on sides 2 and 3. */
  function LowerOf(e: Bound, sides: seq<Fibre>): bool
    requires |sides| == 4 && e.side < 4 && e.slot < |sides[e.side].ep|
  {
    !Bit1(e.side) == sides[e.side].ep[e.slot].blower
  }

  /** GetBoundLower for every entry. */
  function Lowers(bl: seq<Bound>, sides: seq<Fibre>): (r: seq<bool>)
    requires EntriesValid(bl, sides)
    ensures |r| == |bl| && forall k :: 0 <= k < |bl| ==> r[k] == LowerOf(bl[k], sides)
  {
    if bl == [] then [] else Lowers(bl[..|bl| - 1], sides) + [LowerOf(bl[|bl| - 1], sides)]
  }

  /** Entries of side edgno for slots within its fibre are valid. */
  lemma {:induction false} AscendingValid(edgno: nat, a: nat, b: int, sides: seq<Fibre>)
    requires |sides| == 4 && edgno < 4 && b < |sides[edgno].ep|
    ensures EntriesValid(Ascending(edgno, a, b), sides)
    decreases b - a
  {
    if a <= b {
      AscendingValid(edgno, a, b - 1, sides);
    }
  }

  lemma {:induction false} DescendingValid(edgno: nat, a: nat, b: int, sides: seq<Fibre>)
    requires |sides| == 4 && edgno < 4 && b < |sides[edgno].ep|
    ensures EntriesValid(Descending(edgno, a, b), sides)
    decreases b - a
  {
    if a <= b {
      DescendingValid(edgno, a + 1, b, sides);
    }
  }

  lemma MatchesValid(ep: seq<B1>, rg: I1, edgno: nat, bGoingDown: bool, sides: seq<Fibre>)
    requires |sides| == 4 && edgno < 4 && sides[edgno].ep == ep
    ensures EntriesValid(Matches(ep, rg, edgno, bGoingDown), sides)
  {
    var a, b := MatchRange(ep, rg).0, MatchRange(ep, rg).1;
    if bGoingDown {
      DescendingValid(edgno, a, b, sides);
    } else {
      AscendingValid(edgno, a, b, sides);
    }
  }

  lemma EntriesJoin(a: seq<Bound>, b: seq<Bound>, sides: seq<Fibre>)
    requires EntriesValid(a, sides) && EntriesValid(b, sides)
    ensures EntriesValid(a + b, sides)
  {
  }

  /**
    * The boundary list of a cell whose sides are l (left), t (top), r (right)
    * and b (bottom) and whose extents are urg and vrg: the left side going
    * up, the top going right, the right side going down, the bottom going left.
    */
  function CellList(l: Fibre, t: Fibre, r: Fibre, b: Fibre, urg: I1, vrg: I1): seq<Bound> {
    Matches(l.ep, vrg, 0, false) + Matches(t.ep, urg, 1, false)
    + Matches(r.ep, vrg, 2, true) + Matches(b.ep, urg, 3, true)
  }

  /** Every entry of a cell's list names an endpoint of its side. */
  lemma CellListValid(l: Fibre, t: Fibre, r: Fibre, b: Fibre, urg: I1, vrg: I1)
    ensures EntriesValid(CellList(l, t, r, b, urg, vrg), [l, t, r, b])
  {
    var s := [l, t, r, b];
    var m0, m1 := Matches(l.ep, vrg, 0, false), Matches(t.ep, urg, 1, false);
    var m2, m3 := Matches(r.ep, vrg, 2, true), Matches(b.ep, urg, 3, true);
    MatchesValid(l.ep, vrg, 0, false, s);
    MatchesValid(t.ep, urg, 1, false, s);
    MatchesValid(r.ep, vrg, 2, true, s);
    MatchesValid(b.ep, urg, 3, true, s);
    EntriesJoin(m0, m1, s);
    EntriesJoin(m0 + m1, m2, s);
    EntriesJoin(m0 + m1 + m2, m3, s);
  }

  // ---------------------------------------------------------------------
  // Why the entries alternate

  /** Entry k of an ascending run names slot a + k. */
  lemma {:induction false} AscendingAt(edgno: nat, a: nat, b: int, k: nat)
    requires a + k <= b
    ensures Ascending(edgno, a, b)[k] == Bound(edgno, a + k)
    decreases b - a
  {
    if a + k < b {
      AscendingAt(edgno, a, b - 1, k);
    }
  }

  /** Entry k of a descending run names slot b - k. */
  lemma {:induction false} DescendingAt(edgno: nat, a: nat, b: int, k: nat)
    requires a + k <= b
    ensures Descending(edgno, a, b)[k] == Bound(edgno, b - k)
    decreases b - a
  {
    if a + k < b {
      DescendingAt(edgno, a + 1, b, k);
    }
  }

  /** Entries i and i + 1 differ. */
  predicate Differs(x: seq<bool>, i: int) {
    0 <= i < |x| - 1 && x[i] != x[i + 1]
  }

  /**
    * x alternates, and read as a walk along one side it starts just after
    * the inside flag s and ends on the inside flag e: its first entry is a
    * lower one exactly when the walk starts outside, its last exactly when
    * the walk ends inside, and an empty x leaves the flag as it was.
    */
  predicate Run(x: seq<bool>, s: bool, e: bool) {
    && (forall i :: 0 <= i < |x| - 1 ==> Differs(x, i))
    && (|x| > 0 ==> x[0] == !s && x[|x| - 1] == e)
    && (|x| == 0 ==> s == e)
  }

  /** Two runs that meet on the same flag make one run. */
  lemma RunJoin(x: seq<bool>, y: seq<bool>, s: bool, m: bool, e: bool)
    requires Run(x, s, m) && Run(y, m, e)
    ensures Run(x + y, s, e)
  {
    var z := x + y;
    forall i | 0 <= i < |z| - 1
      ensures Differs(z, i)
    {
      if i + 1 < |x| {
        assert Differs(x, i);
        assert z[i] == x[i] && z[i + 1] == x[i + 1];
      } else if i >= |x| {
        assert Differs(y, i - |x|);
        assert z[i] == y[i - |x|] && z[i + 1] == y[i + 1 - |x|];
      } else {
        assert z[i] == x[|x| - 1] && z[i + 1] == y[0];
      }
    }
  }

  /** A run that ends on the flag it started from has even length. */
  lemma {:induction false} RunCycle(x: seq<bool>, s: bool)
    requires Run(x, s, s)
    ensures |x| % 2 == 0
    decreases |x|
  {
    if |x| > 0 {
      assert |x| != 1;
      var x' := x[..|x| - 2];
      forall i | 0 <= i < |x'| - 1
        ensures Differs(x', i)
      {
        assert Differs(x, i);
      }
      if |x'| > 0 {
        assert x'[|x'| - 1] == x[|x| - 3];
        assert Differs(x, |x| - 3) && Differs(x, |x| - 2);
      }
      RunCycle(x', s);
    }
  }

  /** The inside flag a walk along a side starts from: bLeftIn going up or right, bRightIn going down or left. */
  function StartIn(ep: seq<B1>, rg: I1, bGoingDown: bool): bool {
    if bGoingDown then RightIn(ep, rg) else LeftIn(ep, rg)
  }

  /** The inside flag a walk along a side ends on, AddBoundListMatches' bEndIn. */
  function EndIn(ep: seq<B1>, rg: I1, bGoingDown: bool): bool {
    if bGoingDown then LeftIn(ep, rg) else RightIn(ep, rg)
  }

  /** Neighbouring endpoints of an alternating list differ in their lower flag; it starts lower and ends upper. */
  lemma AlternatingStep(ep: seq<B1>, i: int)
    requires |ep| % 2 == 0 && Alternating(ep)
    ensures 0 <= i && i + 1 < |ep| ==> ep[i].blower != ep[i + 1].blower
    ensures |ep| > 0 ==> ep[0].blower && !ep[|ep| - 1].blower
  {
    if 0 <= i && i + 1 < |ep| {
      assert ep[i].blower == (i % 2 == 0) && ep[i + 1].blower == ((i + 1) % 2 == 0);
    }
    if |ep| > 0 {
      assert ep[0].blower && ep[|ep| - 1].blower == ((|ep| - 1) % 2 == 0);
    }
  }

  /**
    * The lower flags of slots a..b of an alternating list, in order,
    * alternate; they start just after the flag of slot a - 1 and end on the
    * negated flag of slot b + 1 (outside before the first slot and after
    * the last).
    */
  lemma SlotsUp(ep: seq<B1>, a: nat, b: int, x: seq<bool>)
    requires |ep| % 2 == 0 && Alternating(ep) && a <= |ep| && a - 1 <= b < |ep|
    requires |x| == b - a + 1
    requires forall k :: 0 <= k < |x| ==> x[k] == ep[a + k].blower
    ensures Run(x, if a == 0 then false else ep[a - 1].blower,
                   if b == |ep| - 1 then false else !ep[b + 1].blower)
  {
    forall k | 0 <= k < |x| - 1
      ensures Differs(x, k)
    {
      AlternatingStep(ep, a + k);
    }
    AlternatingStep(ep, a - 1);
    AlternatingStep(ep, b);
  }

  /** The negated lower flags of slots b down to a of an alternating list alternate, the other way round. */
  lemma SlotsDown(ep: seq<B1>, a: nat, b: int, x: seq<bool>)
    requires |ep| % 2 == 0 && Alternating(ep) && a <= |ep| && a - 1 <= b < |ep|
    requires |x| == b - a + 1
    requires forall k :: 0 <= k < |x| ==> x[k] == !ep[b - k].blower
    ensures Run(x, if b == |ep| - 1 then false else !ep[b + 1].blower,
                   if a == 0 then false else ep[a - 1].blower)
  {
    forall k | 0 <= k < |x| - 1
      ensures Differs(x, k)
    {
      AlternatingStep(ep, b - k - 1);
    }
    AlternatingStep(ep, a - 1);
    AlternatingStep(ep, b);
  }

  /** An ascending run of slots a..b, read on side edgno of the first two, alternates like the slots. */
  lemma AscendingRun(ep: seq<B1>, a: nat, b: int, edgno: nat, sides: seq<Fibre>)
    requires |sides| == 4 && edgno < 4 && sides[edgno].ep == ep && !Bit1(edgno)
    requires |ep| % 2 == 0 && Alternating(ep) && a <= |ep| && a - 1 <= b < |ep|
    ensures EntriesValid(Ascending(edgno, a, b), sides)
    ensures Run(Lowers(Ascending(edgno, a, b), sides), if a == 0 then false else ep[a - 1].blower,
                if b == |ep| - 1 then false else !ep[b + 1].blower)
  {
    AscendingValid(edgno, a, b, sides);
    var lw := Lowers(Ascending(edgno, a, b), sides);
    forall k | 0 <= k < |lw|
      ensures lw[k] == ep[a + k].blower
    {
      AscendingAt(edgno, a, b, k);
    }
    SlotsUp(ep, a, b, lw);
  }

  /** A descending run of slots b..a, read on side edgno of the last two, alternates against the slots. */
  lemma DescendingRun(ep: seq<B1>, a: nat, b: int, edgno: nat, sides: seq<Fibre>)
    requires |sides| == 4 && edgno < 4 && sides[edgno].ep == ep && Bit1(edgno)
    requires |ep| % 2 == 0 && Alternating(ep) && a <= |ep| && a - 1 <= b < |ep|
    ensures EntriesValid(Descending(edgno, a, b), sides)
    ensures Run(Lowers(Descending(edgno, a, b), sides), if b == |ep| - 1 then false else !ep[b + 1].blower,
                if a == 0 then false else ep[a - 1].blower)
  {
    DescendingValid(edgno, a, b, sides);
    var lw := Lowers(Descending(edgno, a, b), sides);
    forall k | 0 <= k < |lw|
      ensures lw[k] == !ep[b - k].blower
    {
      DescendingAt(edgno, a, b, k);
    }
    SlotsDown(ep, a, b, lw);
  }

  /**
    * The entries one side contributes alternate between lower and upper,
    * starting after the side's start flag and ending on its end flag.
    */
  lemma SideRun(ep: seq<B1>, rg: I1, edgno: nat, bGoingDown: bool, sides: seq<Fibre>)
    requires |sides| == 4 && edgno < 4 && sides[edgno].ep == ep && Bit1(edgno) == bGoingDown
    requires |ep| % 2 == 0 && Alternating(ep)
    ensures EntriesValid(Matches(ep, rg, edgno, bGoingDown), sides)
    ensures Run(Lowers(Matches(ep, rg, edgno, bGoingDown), sides), StartIn(ep, rg, bGoingDown), EndIn(ep, rg, bGoingDown))
  {
    var a, b := MatchRange(ep, rg).0, MatchRange(ep, rg).1;
    assert LeftIn(ep, rg) == if a == 0 then false else ep[a - 1].blower;
    assert RightIn(ep, rg) == if b == |ep| - 1 then false else !ep[b + 1].blower;
    if bGoingDown {
      assert Matches(ep, rg, edgno, bGoingDown) == Descending(edgno, a, b);
      DescendingRun(ep, a, b, edgno, sides);
    } else {
      assert Matches(ep, rg, edgno, bGoingDown) == Ascending(edgno, a, b);
      AscendingRun(ep, a, b, edgno, sides);
    }
  }

  /** On well-formed sides, corners that agree make each side's end flag the next side's start flag. */
  lemma CornerFlagsChain(l: Fibre, t: Fibre, r: Fibre, b: Fibre, urg: I1, vrg: I1)
    requires WellFormed(l.ep) && WellFormed(t.ep) && WellFormed(r.ep) && WellFormed(b.ep)
    requires urg.lo <= urg.hi && vrg.lo <= vrg.hi
    requires CornersAgree(l, t, r, b, urg, vrg)
    ensures EndIn(l.ep, vrg, false) == StartIn(t.ep, urg, false)
    ensures EndIn(t.ep, urg, false) == StartIn(r.ep, vrg, true)
    ensures EndIn(r.ep, vrg, true) == StartIn(b.ep, urg, true)
    ensures EndIn(b.ep, urg, true) == StartIn(l.ep, vrg, false)
  {
    InsideFlags(l.ep, vrg);
    InsideFlags(t.ep, urg);
    InsideFlags(r.ep, vrg);
    InsideFlags(b.ep, urg);
  }

  /** Lowers of a joined list is the join of the Lowers. */
  lemma LowersAppend(x: seq<Bound>, y: seq<Bound>, sides: seq<Fibre>)
    requires EntriesValid(x, sides) && EntriesValid(y, sides)
    ensures EntriesValid(x + y, sides)
    ensures Lowers(x + y, sides) == Lowers(x, sides) + Lowers(y, sides)
  {
    EntriesJoin(x, y, sides);
    var z, lx, ly := x + y, Lowers(x, sides), Lowers(y, sides);
    var lz := Lowers(z, sides);
    forall k | 0 <= k < |z|
      ensures lz[k] == (lx + ly)[k]
    {
      if k < |x| {
        assert z[k] == x[k];
        assert lz[k] == LowerOf(x[k], sides) == lx[k];
      } else {
        assert z[k] == y[k - |x|];
        assert lz[k] == LowerOf(y[k - |x|], sides) == ly[k - |x|];
      }
    }
    assert lz == lx + ly;
  }

  /**
    * The two fibres through each corner of the cell agree on whether the
    * corner is inside: the left and top sides at the top-left corner, the
    * top and right at the top-right, the right and bottom at the
    * bottom-right, the bottom and left at the bottom-left.
    */
  ghost predicate CornersAgree(l: Fibre, t: Fibre, r: Fibre, b: Fibre, urg: I1, vrg: I1) {
    && (Covers(l.ep, vrg.hi) <==> Covers(t.ep, urg.lo))
    && (Covers(t.ep, urg.hi) <==> Covers(r.ep, vrg.hi))
    && (Covers(r.ep, vrg.lo) <==> Covers(b.ep, urg.hi))
    && (Covers(b.ep, urg.lo) <==> Covers(l.ep, vrg.lo))
  }

  /** The left and top sides' entries run from the cell's start flag to the top side's end flag. */
  lemma LeftTopRun(l: Fibre, t: Fibre, r: Fibre, b: Fibre, urg: I1, vrg: I1)
    requires WellFormed(l.ep) && WellFormed(t.ep) && WellFormed(r.ep) && WellFormed(b.ep)
    requires urg.lo <= urg.hi && vrg.lo <= vrg.hi
    requires CornersAgree(l, t, r, b, urg, vrg)
    ensures var m := Matches(l.ep, vrg, 0, false) + Matches(t.ep, urg, 1, false);
      && EntriesValid(m, [l, t, r, b])
      && Run(Lowers(m, [l, t, r, b]), StartIn(l.ep, vrg, false), EndIn(t.ep, urg, false))
  {
    var s := [l, t, r, b];
    var m0, m1 := Matches(l.ep, vrg, 0, false), Matches(t.ep, urg, 1, false);
    SideRun(l.ep, vrg, 0, false, s);
    SideRun(t.ep, urg, 1, false, s);
    CornerFlagsChain(l, t, r, b, urg, vrg);
    RunJoin(Lowers(m0, s), Lowers(m1, s), StartIn(l.ep, vrg, false), EndIn(l.ep, vrg, false), EndIn(t.ep, urg, false));
    LowersAppend(m0, m1, s);
  }

  /** The right and bottom sides' entries run from the top side's end flag back to the cell's start flag. */
  lemma RightBottomRun(l: Fibre, t: Fibre, r: Fibre, b: Fibre, urg: I1, vrg: I1)
    requires WellFormed(l.ep) && WellFormed(t.ep) && WellFormed(r.ep) && WellFormed(b.ep)
    requires urg.lo <= urg.hi && vrg.lo <= vrg.hi
    requires CornersAgree(l, t, r, b, urg, vrg)
    ensures var m := Matches(r.ep, vrg, 2, true) + Matches(b.ep, urg, 3, true);
      && EntriesValid(m, [l, t, r, b])
      && Run(Lowers(m, [l, t, r, b]), EndIn(t.ep, urg, false), StartIn(l.ep, vrg, false))
  {
    var s := [l, t, r, b];
    var m2, m3 := Matches(r.ep, vrg, 2, true), Matches(b.ep, urg, 3, true);
    SideRun(r.ep, vrg, 2, true, s);
    SideRun(b.ep, urg, 3, true, s);
    CornerFlagsChain(l, t, r, b, urg, vrg);
    RunJoin(Lowers(m2, s), Lowers(m3, s), EndIn(t.ep, urg, false), EndIn(r.ep, vrg, true), StartIn(l.ep, vrg, false));
    LowersAppend(m2, m3, s);
  }

  /** On well-formed sides that agree at the corners, the lower flags round the cell form a closed run. */
  lemma CellRun(l: Fibre, t: Fibre, r: Fibre, b: Fibre, urg: I1, vrg: I1)
    requires WellFormed(l.ep) && WellFormed(t.ep) && WellFormed(r.ep) && WellFormed(b.ep)
    requires urg.lo <= urg.hi && vrg.lo <= vrg.hi
    requires CornersAgree(l, t, r, b, urg, vrg)
    ensures EntriesValid(CellList(l, t, r, b, urg, vrg), [l, t, r, b])
    ensures Run(Lowers(CellList(l, t, r, b, urg, vrg), [l, t, r, b]), StartIn(l.ep, vrg, false), StartIn(l.ep, vrg, false))
  {
    var s := [l, t, r, b];
    var m01 := Matches(l.ep, vrg, 0, false) + Matches(t.ep, urg, 1, false);
    var m23 := Matches(r.ep, vrg, 2, true) + Matches(b.ep, urg, 3, true);
    LeftTopRun(l, t, r, b, urg, vrg);
    RightBottomRun(l, t, r, b, urg, vrg);
    RunJoin(Lowers(m01, s), Lowers(m23, s), StartIn(l.ep, vrg, false), EndIn(t.ep, urg, false), StartIn(l.ep, vrg, false));
    LowersAppend(m01, m23, s);
    assert m01 + m23 == CellList(l, t, r, b, urg, vrg);
  }

  /**
    * On well-formed sides that agree at the corners, the entries round the
    * cell alternate between lower and upper, the list has even length, and
    * CreateBoundList's pairs number half its entries.
    */
  lemma CellListAlternates(l: Fibre, t: Fibre, r: Fibre, b: Fibre, urg: I1, vrg: I1)
    requires WellFormed(l.ep) && WellFormed(t.ep) && WellFormed(r.ep) && WellFormed(b.ep)
    requires urg.lo <= urg.hi && vrg.lo <= vrg.hi
    requires CornersAgree(l, t, r, b, urg, vrg)
    ensures var bl, s := CellList(l, t, r, b, urg, vrg), [l, t, r, b];
      && EntriesValid(bl, s)
      && |bl| % 2 == 0
      && (forall i :: 0 <= i < |bl| - 1 ==> Lowers(bl, s)[i] != Lowers(bl, s)[i + 1])
      && 2 * |PairsUpTo(Lowers(bl, s), |bl|)| == |bl|
  {
    CellRun(l, t, r, b, urg, vrg);
    var lw := Lowers(CellList(l, t, r, b, urg, vrg), [l, t, r, b]);
    RunCycle(lw, StartIn(l.ep, vrg, false));
    forall i | 0 <= i < |lw| - 1
      ensures lw[i] != lw[i + 1]
    {
      assert Differs(lw, i);
    }
    PairsHalf(lw);
  }

  /**
    * Well-formed sides alone do not make the entries alternate: a left side
    * inside from v = 0.5 up to the top-left corner, with a top side that
    * is empty, lists one lone lower entry, and CreateBoundList then pairs
    * it with itself, so twice the pair count is not the list's length.
    */
  lemma OddCellList()
    ensures var l := Fibre([NewB1(0.5, true, false), NewB1(1.0, false, false)], 0.0);
      var t, r, b := Fibre([], 1.0), Fibre([], 1.0), Fibre([], 0.0);
      var bl := CellList(l, t, r, b, I1(0.0, 1.0), I1(0.0, 1.0));
      && WellFormed(l.ep) && WellFormed(t.ep) && WellFormed(r.ep) && WellFormed(b.ep)
      && EntriesValid(bl, [l, t, r, b])
      && |bl| == 1
      && 2 * |PairsUpTo(Lowers(bl, [l, t, r, b]), |bl|)| != |bl|
  {
    var l := Fibre([NewB1(0.5, true, false), NewB1(1.0, false, false)], 0.0);
    var t, r, b := Fibre([], 1.0), Fibre([], 1.0), Fibre([], 0.0);
    var rg := I1(0.0, 1.0);
    assert Lohi(l.ep, 0.0, 1.0) == (0, 1);
    assert MatchRange(l.ep, rg) == (0, 0);
    var bl := CellList(l, t, r, b, rg, rg);
    assert bl == [Bound(0, 0)];
    CellListValid(l, t, r, b, rg, rg);
    assert Lowers(bl, [l, t, r, b]) == [true];
    assert PairsUpTo([true], 1) == [(0, 0)];
  }

  /**
    * The listing half of CreateBoundList: the four sides' entries in turn,
    * with whether the walk round the cell leaves each side inside, which
    * is whether the corner it reaches next lies inside.
    */
  method BuildBoundList(l: Fibre, t: Fibre, r: Fibre, b: Fibre, urg: I1, vrg: I1)
    returns (bl: seq<Bound>, bLUin: bool, bRUin: bool, bRDin: bool, bLDin: bool)
    ensures bl == CellList(l, t, r, b, urg, vrg)
    ensures bLUin == RightIn(l.ep, vrg) && bRUin == RightIn(t.ep, urg)
    ensures bRDin == LeftIn(r.ep, vrg) && bLDin == LeftIn(b.ep, urg)
  {
    bl := [];
    bl, bLUin := AddBoundListMatches(bl, l, vrg, 0, false);
    bl, bRUin := AddBoundListMatches(bl, t, urg, 1, false);
    bl, bRDin := AddBoundListMatches(bl, r, vrg, 2, true);
    bl, bLDin := AddBoundListMatches(bl, b, urg, 3, true);
  }

  /** The pairing loop of CreateBoundList: each entry that starts an inside stretch, with the entry before it. */
  method PairEntries(bl: seq<Bound>, s: seq<Fibre>) returns (pairs: seq<(nat, nat)>)
    requires EntriesValid(bl, s)
    ensures pairs == PairsUpTo(Lowers(bl, s), |bl|)
  {
    pairs := [];
    var ib := |bl| - 1;
    var ibl := 0;
    while ibl < |bl|
      invariant 0 <= ibl <= |bl|
      invariant ib == if ibl == 0 then |bl| - 1 else ibl - 1
      invariant pairs == PairsUpTo(Lowers(bl, s), ibl)
    {
      if LowerOf(bl[ibl], s) {
        pairs := pairs + [(ib, ibl)];
      }
      ib := ibl;
      ibl := ibl + 1;
    }
  }

  /**
    * What CreateBoundList builds for a cell with sides l (left), t (top),
    * r (right), b (bottom) and extents urg, vrg: the list, the four corner
    * flags (left-up, right-up, right-down, left-down) and the pairs.
    */
  predicate CellListed(bl: seq<Bound>, lu: bool, ru: bool, rd: bool, ld: bool, pairs: seq<(nat, nat)>,
                       l: Fibre, t: Fibre, r: Fibre, b: Fibre, urg: I1, vrg: I1)
  {
    && bl == CellList(l, t, r, b, urg, vrg)
    && lu == RightIn(l.ep, vrg) && ru == RightIn(t.ep, urg)
    && rd == LeftIn(r.ep, vrg) && ld == LeftIn(b.ep, urg)
    && EntriesValid(bl, [l, t, r, b])
    && pairs == PairsUpTo(Lowers(bl, [l, t, r, b]), |bl|)
  }

  /**
    * Always true. Gated below states CellListed under a quantifier that the
    * solver opens only where a proof mentions Gate, which keeps the
    * definition of the boundary list out of the cell's frame reasoning.
    */
  function Gate(k: nat): bool { true }

  /** CellListed, unfolded only where a proof mentions Gate (see GatedListed). */
  ghost predicate Gated(bl: seq<Bound>, lu: bool, ru: bool, rd: bool, ld: bool, pairs: seq<(nat, nat)>,
                  l: Fibre, t: Fibre, r: Fibre, b: Fibre, urg: I1, vrg: I1)
  {
    forall k: nat {:trigger Gate(k)} :: Gate(k) ==> CellListed(bl, lu, ru, rd, ld, pairs, l, t, r, b, urg, vrg)
  }

  lemma GatedListed(bl: seq<Bound>, lu: bool, ru: bool, rd: bool, ld: bool, pairs: seq<(nat, nat)>,
                     l: Fibre, t: Fibre, r: Fibre, b: Fibre, urg: I1, vrg: I1)
    requires Gated(bl, lu, ru, rd, ld, pairs, l, t, r, b, urg, vrg)
    ensures CellListed(bl, lu, ru, rd, ld, pairs, l, t, r, b, urg, vrg)
  {
    assert Gate(0);
  }

  /** CreateBoundList on values: the list, the corner flags and the pairs of one cell. */
  method CellBounds(l: Fibre, t: Fibre, r: Fibre, b: Fibre, urg: I1, vrg: I1)
    returns (bl: seq<Bound>, lu: bool, ru: bool, rd: bool, ld: bool, pairs: seq<(nat, nat)>)
    ensures Gated(bl, lu, ru, rd, ld, pairs, l, t, r, b, urg, vrg)
  {
    bl, lu, ru, rd, ld := BuildBoundList(l, t, r, b, urg, vrg);
    CellListValid(l, t, r, b, urg, vrg);
    pairs := PairEntries(bl, [l, t, r, b]);
  }

  // ---------------------------------------------------------------------
  // The cell

  class S2weaveCell {
    /** The weave the cell lies in. */
    const ps2w: S2weave
    /** The cell lies between u-fibres iu - 1 and iu and v-fibres iv - 1 and iv. */
    var iu: int
    var iv: int
    /** The four sides, as the weave held them when the cell was set up. */
    var fulo: Fibre
    var fuhi: Fibre
    var fvlo: Fibre
    var fvhi: Fibre
    /** The cell's extent in u and in v. */
    var clurg: I1
    var clvrg: I1
    /** The endpoints on the boundary, side by side round the cell. */
    var boundlist: seq<Bound>
    /** Whether each corner lies inside the area: left-up, right-up, right-down, left-down (bLUin, bRUin, bRDin, bLDin). */
    var corners: (bool, bool, bool, bool)
    /** Indices into boundlist joined by the cell's contour lines. */
    var bolistpairs: seq<(nat, nat)>

    /** A cell of weave w, not yet placed. */
    constructor (w: S2weave)
      ensures ps2w == w && boundlist == [] && bolistpairs == []
    {
      ps2w := w;
      iu, iv := 1, 1;
      boundlist, bolistpairs := [], [];
    }

    /** The sides by number: left, top, right, bottom. */
    function Sides(): seq<Fibre>
      reads this`fulo, this`fvhi, this`fuhi, this`fvlo
    {
      [fulo, fvhi, fuhi, fvlo]
    }

    /** iu and iv name a cell of the weave. */
    predicate Placed()
      reads this`iu, this`iv, ps2w`ufibs, ps2w`vfibs
    {
      1 <= iu < |ps2w.ufibs| && 1 <= iv < |ps2w.vfibs|
    }

    /** The sides and extents are those of cell (iu, iv) of the weave. */
    predicate BuiltAt()
      reads this`iu, this`iv, this`fulo, this`fuhi, this`fvlo, this`fvhi, this`clurg, this`clvrg
      reads ps2w`ufibs, ps2w`vfibs
    {
      && Placed()
      && fulo == ps2w.ufibs[iu - 1] && fuhi == ps2w.ufibs[iu]
      && fvlo == ps2w.vfibs[iv - 1] && fvhi == ps2w.vfibs[iv]
      && clurg == I1(fulo.wp, fuhi.wp) && clvrg == I1(fvlo.wp, fvhi.wp)
    }

    /** p lies on side icn (mod 4) of the cell. */
    predicate OnSide(icn: nat, p: P2)
      reads this`clurg, this`clvrg
    {
      var s := icn % 4;
      if s == 0 then p.u == clurg.lo && clvrg.Contains(p.v)
      else if s == 1 then p.v == clvrg.hi && clurg.Contains(p.u)
      else if s == 2 then p.u == clurg.hi && clvrg.Contains(p.v)
      else p.v == clvrg.lo && clurg.Contains(p.u)
    }

    /** The extent along side icn: v on the left and right sides, u on the top and bottom. */
    function SideRange(icn: nat): I1
      reads this`clurg, this`clvrg
    {
      if Bit0(icn) then clurg else clvrg
    }

    /** The boundary list, corner flags and pairs CreateBoundList builds from the sides. */
    ghost predicate Listed()
      reads this
    {
      Gated(boundlist, corners.0, corners.1, corners.2, corners.3, bolistpairs, fulo, fvhi, fuhi, fvlo, clurg, clvrg)
    }

    /**
      * S2weaveCell::GetCorner: corners 0 to 3 are bottom-left, top-left,
      * top-right and bottom-right.
      */
    function GetCorner(icn: nat): (r: P2)
      reads this
      ensures r.u == if icn % 4 >= 2 then clurg.hi else clurg.lo
      ensures r.v == if icn % 4 == 1 || icn % 4 == 2 then clvrg.hi else clvrg.lo
    {
      BitsQuarter(icn);
      var buhi := Bit1(icn);
      var bvhi := Bit1(icn + 1);
      P2(if buhi then clurg.hi else clurg.lo, if bvhi then clvrg.hi else clvrg.lo)
    }

    /** S2weaveCell::GetSide: the side running from corner icn to the next one. */
    function GetSide(icn: nat): (r: Fibre)
      reads this
      ensures r == Sides()[icn % 4]
    {
      BitsQuarter(icn);
      if !Bit1(icn) then (if !Bit0(icn) then fulo else fvhi)
      else (if !Bit0(icn) then fuhi else fvlo)
    }

    /**
      * S2weaveCell::GetBoundLower: whether entry ibl starts an inside stretch
      * walking round the cell; sides 2 and 3 are walked backwards, so there
      * the endpoint's blower is negated.
      */
    function GetBoundLower(ibl: nat): (r: bool)
      reads this
      requires EntriesValid(boundlist, Sides()) && ibl < |boundlist|
      ensures r == LowerOf(boundlist[ibl], Sides())
      ensures r <==> (boundlist[ibl].side < 2 <==> Sides()[boundlist[ibl].side].ep[boundlist[ibl].slot].blower)
    {
      BitsQuarter(boundlist[ibl].side);
      var e := boundlist[ibl];
      (!Bit1(e.side)) == GetSide(e.side).ep[e.slot].blower
    }

    /**
      * S2weaveCell::GetBoundPoint: the point of entry ibl, on its side at
      * the endpoint's position along it.
      */
    function GetBoundPoint(ibl: nat): (r: P2)
      reads this
      requires EntriesValid(boundlist, Sides()) && ibl < |boundlist|
      ensures var e := boundlist[ibl];
        (if Bit0(e.side) then r.u else r.v) == Sides()[e.side].ep[e.slot].w
      ensures var e := boundlist[ibl];
        (&& fulo.wp == clurg.lo && fuhi.wp == clurg.hi && fvlo.wp == clvrg.lo && fvhi.wp == clvrg.hi
         && SideRange(e.side).Contains(Sides()[e.side].ep[e.slot].w))
        ==> OnSide(e.side, r)
    {
      var e := boundlist[ibl];
      var binV := !Bit0(e.side);
      var wb := GetSide(e.side).ep[e.slot].w;
      var wp := GetSide(e.side).wp;
      if binV then P2(wp, wb) else P2(wb, wp)
    }

    /** The corners lie on the sides that meet there, and each side's fibre sits on its line. */
    lemma SideJoinsCorners(icn: nat)
      requires icn < 4 && clurg.lo <= clurg.hi && clvrg.lo <= clvrg.hi
      requires fulo.wp == clurg.lo && fuhi.wp == clurg.hi && fvlo.wp == clvrg.lo && fvhi.wp == clvrg.hi
      ensures OnSide(icn, GetCorner(icn)) && OnSide(icn, GetCorner(icn + 1))
      ensures if Bit0(icn) then GetSide(icn).wp == GetCorner(icn).v == GetCorner(icn + 1).v
              else GetSide(icn).wp == GetCorner(icn).u == GetCorner(icn + 1).u
    {
      BitsQuarter(icn);
    }

    /** S2weaveCell::ConstructCellBounds: takes the sides and extents of cell (iu, iv) and clears the lists. */
    method ConstructCellBounds()
      requires Placed()
      modifies this`fulo, this`fuhi, this`fvlo, this`fvhi, this`clurg, this`clvrg, this`boundlist, this`bolistpairs
      ensures BuiltAt() && boundlist == [] && bolistpairs == []
    {
      var a, b, c, d := ps2w.ufibs[iu - 1], ps2w.ufibs[iu], ps2w.vfibs[iv - 1], ps2w.vfibs[iv];
      fulo, fuhi, fvlo, fvhi := a, b, c, d;
      clurg, clvrg := I1(a.wp, b.wp), I1(c.wp, d.wp);
      boundlist, bolistpairs := [], [];
    }

    /**
      * S2weaveCell::CreateBoundList: lists the endpoints of the left side
      * going up, the top going right, the right side going down and the
      * bottom going left, records which corners lie inside, and pairs every
      * entry that starts an inside stretch with the entry before it.
      */
    method CreateBoundList() returns (n: nat)
      requires boundlist == [] && bolistpairs == []
      modifies this`boundlist, this`corners, this`bolistpairs
      ensures Listed() && n == |bolistpairs|
    {
      var l, t, r, b, u, v := fulo, fvhi, fuhi, fvlo, clurg, clvrg;
      var bl, lu, ru, rd, ld, pairs := CellBounds(l, t, r, b, u, v);
      boundlist, corners, bolistpairs := bl, (lu, ru, rd, ld), pairs;
      assert l == fulo && t == fvhi && r == fuhi && b == fvlo && u == clurg && v == clvrg;
      assert Gated(bl, lu, ru, rd, ld, pairs, l, t, r, b, u, v);
      n := |pairs|;
    }

    /** The facts Listed holds: the list CellList gives, valid entries, and the pairs of its lower entries. */
    lemma ListedFacts()
      requires Listed()
      ensures boundlist == CellList(fulo, fvhi, fuhi, fvlo, clurg, clvrg)
      ensures EntriesValid(boundlist, Sides())
      ensures bolistpairs == PairsUpTo(Lowers(boundlist, Sides()), |boundlist|)
    {
      GatedListed(boundlist, corners.0, corners.1, corners.2, corners.3, bolistpairs, fulo, fvhi, fuhi, fvlo, clurg, clvrg);
    }

    /**
      * When the boundary crossings alternate between entering and leaving
      * the area round the cell, CreateBoundList's count is half the list.
      */
    lemma PairCount()
      requires Listed()
      requires EntriesValid(boundlist, Sides())
      requires |boundlist| % 2 == 0
      requires forall i :: 0 <= i < |boundlist| - 1 ==> GetBoundLower(i) != GetBoundLower(i + 1)
      ensures 2 * |bolistpairs| == |boundlist|
    {
      ListedFacts();
      var lw := Lowers(boundlist, Sides());
      forall i | 0 <= i < |lw| - 1
        ensures lw[i] != lw[i + 1]
      {
        assert GetBoundLower(i) != GetBoundLower(i + 1);
      }
      PairsHalf(lw);
    }

    /**
      * On well-formed sides, each corner flag says whether the side whose
      * walk reaches that corner covers it.
      */
    lemma CornerFlags()
      requires Listed()
      requires WellFormed(fulo.ep) && WellFormed(fuhi.ep) && WellFormed(fvlo.ep) && WellFormed(fvhi.ep)
      requires clurg.lo <= clurg.hi && clvrg.lo <= clvrg.hi
      ensures corners.0 <==> Covers(fulo.ep, clvrg.hi)
      ensures corners.1 <==> Covers(fvhi.ep, clurg.hi)
      ensures corners.2 <==> Covers(fuhi.ep, clvrg.lo)
      ensures corners.3 <==> Covers(fvlo.ep, clurg.lo)
    {
      GatedListed(boundlist, corners.0, corners.1, corners.2, corners.3, bolistpairs, fulo, fvhi, fuhi, fvlo, clurg, clvrg);
      InsideFlags(fulo.ep, clvrg);
      InsideFlags(fvhi.ep, clurg);
      InsideFlags(fuhi.ep, clvrg);
      InsideFlags(fvlo.ep, clurg);
    }

    /**
      * On well-formed sides whose corners agree (each corner is inside on
      * both sides that meet there or on neither), the crossings round the
      * cell alternate between lower and upper, the list has even length and
      * CreateBoundList's count is half the list.
      */
    lemma CornersPairUp()
      requires Listed()
      requires WellFormed(fulo.ep) && WellFormed(fuhi.ep) && WellFormed(fvlo.ep) && WellFormed(fvhi.ep)
      requires clurg.lo <= clurg.hi && clvrg.lo <= clvrg.hi
      requires CornersAgree(fulo, fvhi, fuhi, fvlo, clurg, clvrg)
      ensures EntriesValid(boundlist, Sides()) && |boundlist| % 2 == 0
      ensures forall i :: 0 <= i < |boundlist| - 1 ==> GetBoundLower(i) != GetBoundLower(i + 1)
      ensures 2 * |bolistpairs| == |boundlist|
    {
      ListedFacts();
      CellListAlternates(fulo, fvhi, fuhi, fvlo, clurg, clvrg);
      var lw := Lowers(boundlist, Sides());
      forall i | 0 <= i < |boundlist| - 1
        ensures GetBoundLower(i) != GetBoundLower(i + 1)
      {
        assert lw[i] != lw[i + 1];
      }
    }

    /**
      * S2weaveCell::FindCellIndex: places the cell round lptc and rebuilds
      * its sides and boundary list.
      */
    method FindCellIndex(lptc: P2)
      requires |ps2w.ufibs| >= 2 && ps2w.ufibs[0].wp <= lptc.u < ps2w.ufibs[|ps2w.ufibs| - 1].wp
      requires |ps2w.vfibs| >= 2 && ps2w.vfibs[0].wp <= lptc.v < ps2w.vfibs[|ps2w.vfibs| - 1].wp
      modifies this`iu, this`iv, this`fulo, this`fuhi, this`fvlo, this`fvhi, this`clurg, this`clvrg
      modifies this`boundlist, this`corners, this`bolistpairs
      ensures BuiltAt() && Listed()
      ensures clurg.lo <= lptc.u < clurg.hi && clvrg.lo <= lptc.v < clvrg.hi
      ensures forall j :: 1 <= j < iu ==> ps2w.ufibs[j].wp <= lptc.u
      ensures forall j :: 1 <= j < iv ==> ps2w.vfibs[j].wp <= lptc.v
    {
      var ru := FindCellParal(ps2w.ufibs, lptc.u);
      var rv := FindCellParal(ps2w.vfibs, lptc.v);
      iu, iv := ru, rv;
      ConstructCellBounds();
      var _ := CreateBoundList();
    }

    /**
      * S2weaveCell::AdvanceCrossSide: moves to the neighbouring cell across
      * side icn, where cspt, a point on that side, lies on the opposite side.
      */
    method AdvanceCrossSide(icn: nat, cspt: P2)
      requires icn < 4 && BuiltAt() && OnSide(icn, cspt)
      requires icn == 0 ==> iu > 1
      requires icn == 2 ==> iu + 1 < |ps2w.ufibs|
      requires icn == 3 ==> iv > 1
      requires icn == 1 ==> iv + 1 < |ps2w.vfibs|
      modifies this`iu, this`iv, this`fulo, this`fuhi, this`fvlo, this`fvhi, this`clurg, this`clvrg
      modifies this`boundlist, this`corners, this`bolistpairs
      ensures iu == old(iu) + (if icn == 0 then -1 else if icn == 2 then 1 else 0)
      ensures iv == old(iv) + (if icn == 3 then -1 else if icn == 1 then 1 else 0)
      ensures BuiltAt() && Listed()
      ensures OnSide(icn + 2, cspt)
    {
      if icn == 0 {
        iu := iu - 1;
      } else if icn == 2 {
        iu := iu + 1;
      } else if icn == 3 {
        iv := iv - 1;
      } else {
        iv := iv + 1;
      }
      ConstructCellBounds();
      var _ := CreateBoundList();
    }

    /** Entry j stops GetBoundListPosition's scan for a point at wb on side sic. */
    predicate Stops(sic: nat, wb: real, j: nat)
      reads this
      requires EntriesValid(boundlist, Sides()) && j < |boundlist|
    {
      var e := boundlist[j];
      var w := Sides()[e.side].ep[e.slot].w;
      || e.side > sic
      || (e.side == sic && (w == wb || (if !Bit1(sic) then w >= wb else w <= wb)))
    }

    /** Where the scan lands from stop r0: past an entry at wb that does not start an inside stretch, cyclically. */
    function Landing(sic: nat, wb: real, r0: nat): nat
      reads this
      requires EntriesValid(boundlist, Sides()) && r0 <= |boundlist| && |boundlist| > 0
    {
      var n := |boundlist|;
      if r0 < n && boundlist[r0].side == sic && Sides()[sic].ep[boundlist[r0].slot].w == wb
         && !GetBoundLower(r0)
      then (if r0 + 1 == n then 0 else r0 + 1)
      else (if r0 == n then 0 else r0)
    }

    /**
      * S2weaveCell::GetBoundListPosition: where a point ptb on side sic falls
      * in the boundary list: the first entry on that side at or past it in
      * the side's walking direction (past it when the entry coincides with
      * ptb and ends an inside stretch), else the first entry of a later side,
      * wrapping to 0; -1 for an empty list.
      */
    method GetBoundListPosition(sic: nat, ptb: P2, bOnBoundOutside: bool) returns (r: int)
      requires sic < 4 && EntriesValid(boundlist, Sides())
      requires GetSide(sic).wp == if !Bit0(sic) then ptb.u else ptb.v
      ensures |boundlist| == 0 <==> r == -1
      ensures |boundlist| > 0 ==> 0 <= r < |boundlist|
      ensures |boundlist| > 0 ==>
        var wb := if !Bit0(sic) then ptb.v else ptb.u;
        exists r0 :: 0 <= r0 <= |boundlist| && (forall j :: 0 <= j < r0 ==> !Stops(sic, wb, j))
          && (r0 < |boundlist| ==> Stops(sic, wb, r0)) && r == Landing(sic, wb, r0)
    {
      if |boundlist| == 0 {
        return -1;
      }
      var res := 0;
      var bgoingup := !Bit1(sic);
      var binV := !Bit0(sic);
      var wb := if binV then ptb.v else ptb.u;
      while res < |boundlist|
        invariant 0 <= res <= |boundlist|
        invariant forall j :: 0 <= j < res ==> !Stops(sic, wb, j)
      {
        var e := boundlist[res];
        if e.side == sic {
          var w := GetSide(sic).ep[e.slot].w;
          if w == wb {
            var landed := res;
            if !GetBoundLower(res) {
              landed := res + 1;
              if landed == |boundlist| {
                landed := 0;
              }
            }
            assert landed == Landing(sic, wb, res);
            return landed;
          }
          if if bgoingup then w >= wb else w <= wb {
            assert res == Landing(sic, wb, res);
            return res;
          }
        } else if e.side > sic {
          break;
        }
        res := res + 1;
      }
      var r0 := res;
      if res == |boundlist| {
        res := 0;
      }
      assert res == Landing(sic, wb, r0);
      return res;
    }
  }
}
