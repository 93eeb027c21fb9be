// Geometric primitives shared by the whole engine: closed real intervals
// (I1), 2D and 3D points (P2, P3) and linear interpolation.  Doubles are
// modelled as mathematical reals, so nothing here rounds.

module Maybe {
  /** The optional value returned by FindInwards (bolts/maybe.h). */
  datatype Option<+T> = Nothing | Just(value: T)

  /** An operation that either yields a value or stops on a failed assertion. */
  datatype Result<+T> = Ok(value: T) | Fail(reason: string)
}

module Geom {

  /** A closed interval [lo, hi]; lo <= hi is not enforced, as in I1. */
  datatype I1 = I1(lo: real, hi: real) {

    function Leng(): real { hi - lo }

    predicate Contains(x: real) { lo <= x && x <= hi }

    /** The point a fraction t of the way from lo to hi. */
    function Along(t: real): real { lo + (hi - lo) * t }

    /** The fraction of the way from lo to hi at which x lies. */
    function InvAlong(x: real): real
      requires lo != hi
    {
      (x - lo) / (hi - lo)
    }

    /** The interval widened by r at both ends. */
    function Inflate(r: real): I1 { I1(lo - r, hi + r) }
  }

  /** The unit interval used as the default extent of a fibre. */
  const I1unit := I1(0.0, 1.0)

  function Min(a: real, b: real): real { if a <= b then a else b }
  function Max(a: real, b: real): real { if a <= b then b else a }

  /** The interval spanned by two values given in either order. */
  function SCombine(a: real, b: real): (r: I1)
    ensures r.lo <= r.hi
    ensures r.Contains(a) && r.Contains(b)
    ensures r.lo == a || r.lo == b
    ensures r.hi == a || r.hi == b
  {
    I1(Min(a, b), Max(a, b))
  }

  /** Clips `a` to `b` in place and reports whether anything is left. */
  function Intersect(a: I1, b: I1): (r: (bool, I1))
    ensures r.0 <==> r.1.lo <= r.1.hi
    ensures forall x :: r.1.Contains(x) <==> a.Contains(x) && b.Contains(x)
  {
    var c := I1(Max(a.lo, b.lo), Min(a.hi, b.hi));
    (c.lo <= c.hi, c)
  }

  /** Widens the interval to take in x; bFirst restarts it at x. */
  function Absorb(rg: I1, x: real, bFirst: bool): (r: I1)
    requires bFirst || rg.lo <= rg.hi
    ensures r.Contains(x)
    ensures !bFirst && rg.lo <= rg.hi ==> forall y :: rg.Contains(y) ==> r.Contains(y)
    ensures bFirst ==> r == I1(x, x)
  {
    if bFirst then I1(x, x)
    else if x < rg.lo then I1(x, rg.hi)
    else if x > rg.hi then I1(rg.lo, x)
    else rg
  }

  datatype P2 = P2(u: real, v: real)

  datatype P3 = P3(x: real, y: real, z: real)

  /** The point a fraction lam of the way from p0 to p1. */
  function AlongP2(lam: real, p0: P2, p1: P2): P2 {
    P2(p0.u + (p1.u - p0.u) * lam, p0.v + (p1.v - p0.v) * lam)
  }

  /** The fraction of the way from a to b at which x lies. */
  function InvAlong(x: real, a: real, b: real): real
    requires a != b
  {
    (x - a) / (b - a)
  }

  /** Multiplying by a positive factor keeps the order both ways. */
  lemma Scale(m: real, a: real, c: real)
    requires m > 0.0
    ensures m * a <= m * c <==> a <= c
    ensures m * a < m * c <==> a < c
  {
    if a <= c { assert m * (c - a) >= 0.0; } else { assert m * (a - c) > 0.0; }
    if a < c { assert m * (c - a) > 0.0; } else { assert m * (a - c) >= 0.0; }
  }
}
