// Partition1: a range cut into evenly spaced parts, used to index the
// cells of the spatial grid.  The boundaries are exact reals, so the parts
// are exactly equal.

module Partitions {
  import opened Geom

  /** The value size_t(0) - 1 that NumParts yields on an empty boundary list. */
  const SizeMax: int := 0x1_0000_0000_0000_0000 - 1

  /** The n + 1 boundaries lrg.Along(i / n), i = 0..n. */
  function Evenly(lrg: I1, n: nat): (b: seq<real>)
    requires n >= 1
    ensures |b| == n + 1
    ensures forall i :: 0 <= i <= n ==> b[i] == lrg.Along(i as real / n as real)
  {
    seq(n + 1, i requires 0 <= i <= n => lrg.Along(i as real / n as real))
  }

  /** The number of parts the range/width constructor makes: floor(Leng / w) + 1. */
  function PartCount(lrg: I1, w: real): (n: int)
    requires w > 0.0 && lrg.lo <= lrg.hi
    ensures n >= 1
    ensures w * (n - 1) as real <= lrg.Leng() < w * n as real
  {
    PartCountBounds(lrg, w);
    (lrg.Leng() / w).Floor + 1
  }

  lemma PartCountBounds(lrg: I1, w: real)
    requires w > 0.0 && lrg.lo <= lrg.hi
    ensures var n := (lrg.Leng() / w).Floor + 1;
      n >= 1 && w * (n - 1) as real <= lrg.Leng() < w * n as real
  {
    var q := lrg.Leng() / w;
    var n := q.Floor + 1;
    assert lrg.Leng() == w * q;
    assert (n - 1) as real <= q < n as real;
    Scale(w, (n - 1) as real, q);
    Scale(w, q, n as real);
    assert w * q < w * n as real;
    assert lrg.Leng() < w * n as real;
  }

  datatype Partition1 = Partition1(b: seq<real>, bRegular: bool) {

    /**
      * A regular partition holds n + 1 >= 2 evenly spaced boundaries over a
      * range with lo <= hi, and a single part when the range has length
      * zero; a non-regular one is only ever the empty default.
      */
    predicate Valid() {
      if bRegular then
        |b| >= 2 && b[0] <= b[|b| - 1] && (b[0] == b[|b| - 1] ==> |b| == 2) &&
        forall i :: 0 <= i < |b| ==> EvenAt(i)
      else
        b == []
    }

    /** Boundary i sits at the fraction i / n of the range, n being the number of parts. */
    predicate EvenAt(i: int) {
      0 <= i < |b| && |b| >= 2 && b[i] == I1(b[0], b[|b| - 1]).Along(i as real / (|b| - 1) as real)
    }

    /** One less than the number of boundaries, wrapping like size_t on an empty list. */
    function NumParts(): (r: int)
      ensures |b| > 0 ==> r == |b| - 1
      ensures |b| == 0 ==> r == SizeMax
    {
      if |b| == 0 then SizeMax else |b| - 1
    }

    /** The i-th part [b[i], b[i + 1]]. */
    function GetPart(i: int): (r: I1)
      requires 0 <= i < NumParts() && |b| > 0
      ensures r.lo == b[i] && r.hi == b[i + 1]
      ensures Valid() ==> r.lo <= r.hi
    {
      if Valid() then
        BoundariesOrdered(this, i, i + 1);
        I1(b[i], b[i + 1])
      else
        I1(b[i], b[i + 1])
    }

    /** The whole range, from the first boundary to the last. */
    function Getrg(): (r: I1)
      requires |b| > 0
      ensures r.lo == b[0] && r.hi == b[|b| - 1]
      ensures Valid() ==> forall i :: 0 <= i < |b| ==> r.Contains(b[i])
    {
      if Valid() then (
        assert forall i :: 0 <= i < |b| ==> b[0] <= b[i] <= b[|b| - 1] by {
          forall i | 0 <= i < |b| ensures b[0] <= b[i] <= b[|b| - 1] {
            BoundariesOrdered(this, 0, i);
            BoundariesOrdered(this, i, |b| - 1);
          }
        }
        I1(b[0], b[|b| - 1])
      ) else I1(b[0], b[|b| - 1])
    }

    /**
      * i is the part FindPart settles on for x: b[i] <= x, and x lies
      * below b[i + 1] unless i is the last part.
      */
    predicate IsPartOf(x: real, i: int) {
      0 <= i < NumParts() && i + 1 < |b| && b[i] <= x && (x < b[i + 1] || i == NumParts() - 1)
    }

    /**
      * The first guess (x - lo) / (hi - lo) * (NumParts + 1), truncated.
      * On a zero-length range the quotient is a NaN, whose conversion
      * yields the most negative integer; -1 stands for it.
      */
    function Guess(x: real): (g: int)
      requires Valid() && bRegular && Getrg().Contains(x)
      ensures g >= -1
    {
      var rg := Getrg();
      if rg.lo == rg.hi then -1
      else
        var t := rg.InvAlong(x);
        assert 0.0 <= t by { DivNonneg(x - rg.lo, rg.hi - rg.lo); }
        (t * (NumParts() + 1) as real).Floor
    }

    /**
      * Partition1::FindPart: the guess, clamped at both ends and corrected
      * by one step.  Only the default constructor makes a partition that
      * is not regular, and it has no boundaries, so Getrg() (and with it
      * the search after ASSERT(0)) is never reached on one.
      */
    function FindPart(x: real): (i: int)
      requires Valid() && |b| > 0 && Getrg().Contains(x)
      ensures bRegular && IsPartOf(x, i)
    {
      GuessFacts(this, x);
      var g := Guess(x);
      if g < 0 then 0
      else if g > NumParts() - 1 then NumParts() - 1
      else if b[g] > x then g - 1
      else if b[g + 1] <= x then g + 1
      else g
    }

    /** Partition1::FindPartRG: the parts of both ends of xrg. */
    function FindPartRG(xrg: I1): (r: (int, int))
      requires Valid() && |b| > 0 && Getrg().Contains(xrg.lo) && Getrg().Contains(xrg.hi)
      ensures bRegular && IsPartOf(xrg.lo, r.0) && IsPartOf(xrg.hi, r.1)
      ensures xrg.lo <= xrg.hi ==> r.0 <= r.1
    {
      var r := (FindPart(xrg.lo), FindPart(xrg.hi));
      if xrg.lo <= xrg.hi then
        PartMonotone(this, xrg.lo, xrg.hi, r.0, r.1);
        r
      else
        r
    }
  }

  /** Partition1(): the default, non-regular and empty. */
  function DefaultPartition(): (p: Partition1)
    ensures p.Valid() && !p.bRegular && p.b == []
  {
    Partition1([], false)
  }

  /**
    * Partition1(lrg, w): pushes the boundaries lrg.Along(i / n) for
    * i = 0..n, n = floor(Leng / w) + 1, so that every part is at most w long.
    */
  method Make(lrg: I1, w: real) returns (p: Partition1)
    requires w > 0.0 && lrg.lo <= lrg.hi
    ensures p == Partition1(Evenly(lrg, PartCount(lrg, w)), true)
    ensures p.Valid() && p.bRegular
    ensures p.NumParts() == PartCount(lrg, w)
    ensures p.Getrg() == lrg
    ensures forall i :: 0 <= i < p.NumParts() ==>
      p.GetPart(i).Leng() == lrg.Leng() / PartCount(lrg, w) as real && p.GetPart(i).Leng() <= w
  {
    var n := (lrg.Leng() / w).Floor + 1;
    assert n == PartCount(lrg, w);
    var b: seq<real> := [];
    var i := 0;
    while i <= n
      invariant 0 <= i <= n + 1
      invariant b == Evenly(lrg, n)[..i]
    {
      b := b + [lrg.Along(i as real / n as real)];
      i := i + 1;
    }
    p := Partition1(b, true);
    EvenlyEnds(lrg, n);
    assert p.b == Evenly(lrg, n);
    forall k | 0 <= k < n
      ensures p.GetPart(k).Leng() == lrg.Leng() / n as real && p.GetPart(k).Leng() <= w
    {
      EvenlyStep(lrg, n, k);
      PartShort(lrg, w, n);
    }
  }

  // ---------------------------------------------------------------------
  // Arithmetic of evenly spaced boundaries

  /** Two regular partitions over the same range with the same number of parts are the same. */
  lemma RegularUnique(p: Partition1, q: Partition1)
    requires p.Valid() && p.bRegular && q.Valid() && q.bRegular
    requires p.Getrg() == q.Getrg() && p.NumParts() == q.NumParts()
    ensures p == q
  {
    assert |p.b| == |q.b|;
    forall i | 0 <= i < |p.b| ensures p.b[i] == q.b[i] {
      assert p.EvenAt(i) && q.EvenAt(i);
    }
  }

  lemma DivNonneg(a: real, d: real)
    requires a >= 0.0 && d > 0.0
    ensures a / d >= 0.0
  {
  }

  /** The floor facts behind FindPart, on the fraction t of the range below x. */
  lemma GuessRange(t: real, n: int)
    requires 0.0 <= t <= 1.0 && n >= 1
    ensures var g := (t * (n + 1) as real).Floor;
      0 <= g && (g - 1) as real <= t * n as real < (g + 1) as real
  {
    var nr := n as real;
    var g := (t * (nr + 1.0)).Floor;
    assert t * (nr + 1.0) == t * nr + t;
    assert 0.0 <= t * nr by { Scale(nr, 0.0, t); }
  }

  /** The first boundary is lo and the last is hi. */
  lemma EvenlyEnds(lrg: I1, n: nat)
    requires n >= 1
    ensures Evenly(lrg, n)[0] == lrg.lo && Evenly(lrg, n)[n] == lrg.hi
  {
    var nr := n as real;
    assert nr / nr == 1.0;
    assert Evenly(lrg, n)[n] == lrg.Along(nr / nr);
  }

  /** Consecutive boundaries are Leng / n apart. */
  lemma EvenlyStep(lrg: I1, n: nat, k: int)
    requires n >= 1 && 0 <= k < n
    ensures Evenly(lrg, n)[k + 1] - Evenly(lrg, n)[k] == lrg.Leng() / n as real
  {
    var L, nr := lrg.Leng(), n as real;
    var a, c := k as real / nr, (k + 1) as real / nr;
    assert c - a == 1.0 / nr;
    calc {
      Evenly(lrg, n)[k + 1] - Evenly(lrg, n)[k];
      L * c - L * a;
      L * (c - a);
      L * (1.0 / nr);
    }
  }

  /** Leng / n is below w when n = floor(Leng / w) + 1. */
  lemma PartShort(lrg: I1, w: real, n: int)
    requires w > 0.0 && lrg.lo <= lrg.hi && n == PartCount(lrg, w)
    ensures lrg.Leng() / n as real <= w
  {
    var L, nr := lrg.Leng(), n as real;
    assert L < nr * w;
    assert nr * (L / nr) == L;
    Scale(nr, L / nr, w);
  }

  /** How many parts of a regular partition lie below x, as a real. */
  function PartsBelow(p: Partition1, x: real): real
    requires |p.b| >= 2 && p.b[0] < p.b[|p.b| - 1]
  {
    I1(p.b[0], p.b[|p.b| - 1]).InvAlong(x) * (|p.b| - 1) as real
  }

  /** On a regular partition, b[k] <= x exactly when at least k parts lie below x. */
  lemma BoundaryBelow(p: Partition1, x: real, k: int)
    requires p.Valid() && p.bRegular && 0 <= k < |p.b| && p.b[0] < p.b[|p.b| - 1]
    ensures p.b[k] <= x <==> k as real <= PartsBelow(p, x)
  {
    var rg := I1(p.b[0], p.b[|p.b| - 1]);
    var L, n := rg.hi - rg.lo, (|p.b| - 1) as real;
    var t := rg.InvAlong(x);
    var a := k as real / n;
    assert x == rg.lo + L * t;
    assert p.EvenAt(k);
    assert p.b[k] == rg.lo + L * a;
    Scale(L, a, t);
    assert n * a == k as real;
    Scale(n, a, t);
  }

  /** Boundaries never decrease, and strictly increase over a range of positive length. */
  lemma BoundariesOrdered(p: Partition1, i: int, j: int)
    requires p.Valid() && 0 <= i <= j < |p.b|
    ensures p.b[i] <= p.b[j]
    ensures i < j && p.b[0] < p.b[|p.b| - 1] ==> p.b[i] < p.b[j]
  {
    if p.bRegular {
      var L, n := p.b[|p.b| - 1] - p.b[0], (|p.b| - 1) as real;
      assert p.EvenAt(i) && p.EvenAt(j);
      assert p.b[i] == p.b[0] + L * (i as real / n);
      assert p.b[j] == p.b[0] + L * (j as real / n);
      OrderedBoundaries(p.b[0], L, n, i as real, j as real, p.b[i], p.b[j]);
    }
  }

  /** lo + L * (i / n) grows with i for L >= 0, strictly when L > 0. */
  lemma OrderedBoundaries(lo: real, L: real, n: real, i: real, j: real, bi: real, bj: real)
    requires n > 0.0 && L >= 0.0 && i <= j
    requires bi == lo + L * (i / n) && bj == lo + L * (j / n)
    ensures bi <= bj
    ensures i < j && L > 0.0 ==> bi < bj
  {
    DivMul(i, n);
    DivMul(j, n);
    FractionOrder(L, n, i / n, j / n, i, j);
  }

  /** L * (i / n) grows with i for L >= 0, strictly when L > 0. */
  lemma FractionOrder(L: real, n: real, a: real, c: real, i: real, j: real)
    requires n > 0.0 && L >= 0.0 && n * a == i && n * c == j && i <= j
    ensures L * a <= L * c
    ensures i < j && L > 0.0 ==> L * a < L * c
  {
    Scale(n, a, c);
    if L > 0.0 {
      Scale(L, a, c);
    } else {
      assert L * a == 0.0 && L * c == 0.0;
    }
  }

  /** Division by a positive n is undone by multiplying by n. */
  lemma DivMul(x: real, n: real)
    requires n > 0.0
    ensures n * (x / n) == x
  {
  }

  /** p / m lies in [0, 1] when 0 <= p <= m. */
  lemma UnitFraction(p: real, m: real, t: real)
    requires 0.0 <= p <= m && m > 0.0 && t == p / m
    ensures 0.0 <= t <= 1.0
  {
    assert m * t == p;
    assert m * 1.0 == m && m * 0.0 == 0.0;
    Scale(m, t, 1.0);
    Scale(m, 0.0, t);
  }

  /** The guess as a floor of t * (n + 1), t the fraction of the range below x. */
  lemma GuessBasics(p: Partition1, x: real)
    requires p.Valid() && p.bRegular && p.Getrg().Contains(x) && p.b[0] < p.b[|p.b| - 1]
    ensures var g := p.Guess(x);
      0 <= g && (g - 1) as real <= PartsBelow(p, x) < (g + 1) as real
  {
    var lo, hi := p.b[0], p.b[|p.b| - 1];
    var t := I1(lo, hi).InvAlong(x);
    UnitFraction(x - lo, hi - lo, t);
    GuessRange(t, p.NumParts());
    assert p.NumParts() == |p.b| - 1;
  }

  /** Above the clamp at the top, x lies in the last part. */
  lemma GuessTop(p: Partition1, x: real)
    requires p.Valid() && p.bRegular && p.Getrg().Contains(x) && p.b[0] < p.b[|p.b| - 1]
    requires p.Guess(x) > p.NumParts() - 1
    ensures p.IsPartOf(x, p.NumParts() - 1)
  {
    var n, g := p.NumParts(), p.Guess(x);
    GuessBasics(p, x);
    assert (n - 1) as real <= PartsBelow(p, x);
    BoundaryBelow(p, x, n - 1);
    assert p.b[n - 1] <= x;
    assert x <= p.b[n];
  }

  /** A guess whose boundary lies above x is one part too high. */
  lemma GuessDown(p: Partition1, x: real)
    requires p.Valid() && p.bRegular && p.Getrg().Contains(x) && p.b[0] < p.b[|p.b| - 1]
    requires 0 <= p.Guess(x) <= p.NumParts() - 1 && p.b[p.Guess(x)] > x
    ensures 0 < p.Guess(x) && p.IsPartOf(x, p.Guess(x) - 1)
  {
    var g := p.Guess(x);
    GuessBasics(p, x);
    BoundaryBelow(p, x, 0);
    BoundaryBelow(p, x, g);
    BoundaryBelow(p, x, g - 1);
  }

  /** A guess whose boundary lies at or below x is the part, so the upward step never happens. */
  lemma GuessStays(p: Partition1, x: real)
    requires p.Valid() && p.bRegular && p.Getrg().Contains(x) && p.b[0] < p.b[|p.b| - 1]
    requires 0 <= p.Guess(x) <= p.NumParts() - 1 && p.b[p.Guess(x)] <= x
    ensures x < p.b[p.Guess(x) + 1] && p.IsPartOf(x, p.Guess(x))
  {
    var g := p.Guess(x);
    GuessBasics(p, x);
    BoundaryBelow(p, x, g + 1);
  }

  /** On a zero-length range every boundary is lo and part 0 holds x. */
  lemma GuessFlat(p: Partition1, x: real)
    requires p.Valid() && p.bRegular && p.Getrg().Contains(x) && p.b[0] == p.b[|p.b| - 1]
    ensures p.Guess(x) == -1 && p.IsPartOf(x, 0)
  {
  }

  /**
    * The case analysis of FindPart: t * (n + 1) exceeds t * n by at most
    * one, so below the top clamp the guess is the part of x or the one
    * above it, one downward step lands on the part, and the upward step
    * is never taken.
    */
  lemma GuessFacts(p: Partition1, x: real)
    requires p.Valid() && p.bRegular && p.Getrg().Contains(x)
    ensures var g, n := p.Guess(x), p.NumParts();
      (g < 0 ==> p.IsPartOf(x, 0)) &&
      (g > n - 1 ==> p.IsPartOf(x, n - 1)) &&
      (0 <= g <= n - 1 && p.b[g] > x ==> 0 < g && p.IsPartOf(x, g - 1)) &&
      (0 <= g <= n - 1 && p.b[g] <= x ==> x < p.b[g + 1] && p.IsPartOf(x, g))
  {
    var n, g := p.NumParts(), p.Guess(x);
    if p.b[0] == p.b[|p.b| - 1] {
      GuessFlat(p, x);
    } else {
      GuessBasics(p, x);
      if g > n - 1 {
        GuessTop(p, x);
      } else if p.b[g] > x {
        GuessDown(p, x);
      } else {
        GuessStays(p, x);
      }
    }
  }

  /** A point below another never lies in a higher part. */
  lemma PartMonotone(p: Partition1, x: real, y: real, i: int, j: int)
    requires p.Valid() && p.bRegular && x <= y && p.IsPartOf(x, i) && p.IsPartOf(y, j)
    ensures i <= j
  {
    if j < i {
      BoundariesOrdered(p, j + 1, i);
      assert false;
    }
  }

  /** Every point of the range lies in exactly one part in the sense of IsPartOf. */
  lemma PartUnique(p: Partition1, x: real, i: int, j: int)
    requires p.Valid() && p.bRegular && p.IsPartOf(x, i) && p.IsPartOf(x, j)
    ensures i == j
  {
    PartMonotone(p, x, x, i, j);
    PartMonotone(p, x, x, j, i);
  }

  /**
    * Below the clamp at the top, the guess of FindPart is its answer or
    * the part above it; above the clamp the answer is the last part.
    */
  lemma GuessOneAbove(p: Partition1, x: real)
    requires p.Valid() && p.bRegular && p.Getrg().Contains(x)
    ensures var g, i, n := p.Guess(x), p.FindPart(x), p.NumParts();
      (0 <= g <= n - 1 ==> g == i || g == i + 1) && (g > n - 1 ==> i == n - 1)
  {
    GuessFacts(p, x);
  }
}
