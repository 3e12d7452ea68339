/** Trapezoidal membership and the three-set fuzzifier. */
module Membership {
  import opened FixedPoint

  /** The four break points of one trapezoid: support (a, d), plateau [b, c]. */
  datatype Thresholds = Thresholds(a: int, b: int, c: int, d: int) {
    predicate Ordered() { a <= b <= c <= d }
    predicate InS8() {
      -128 <= a <= 127 && -128 <= b <= 127 && -128 <= c <= 127 && -128 <= d <= 127
    }
  }

  /** The neg, zero and pos sets of one input dimension. */
  datatype MfSet3 = MfSet3(neg: Thresholds, zero: Thresholds, pos: Thresholds) {
    function At(i: int): Thresholds
      requires 0 <= i < 3
    {
      if i == 0 then neg else if i == 1 then zero else pos
    }
    predicate Valid() { neg.Ordered() && zero.Ordered() && pos.Ordered() }
    predicate InS8() { neg.InS8() && zero.InS8() && pos.InS8() }
  }

  /** Three Q1.15 membership degrees, in the order (neg, zero, pos). */
  datatype Mu3 = Mu3(neg: int, zero: int, pos: int) {
    function At(i: int): int
      requires 0 <= i < 3
    {
      if i == 0 then neg else if i == 1 then zero else pos
    }
  }

  /** Trapezoidal membership of x in Q1.15. Outside the open support (a, d) it is 0;
      inside the support and on the plateau [b, c] it is the maximum; on the two
      ramps it is the floor of the linear interpolation. The source's zero-width
      guards (`dx = 1`) and its `min(Q15_MAX, ..)` cap are kept, and the ramp
      clauses show that neither ever changes the result: a ramp branch is only
      reached when its width is at least 2 and its numerator below its width. */
  function TrapezoidMu(x: int, a: int, b: int, c: int, d: int): (r: int)
    ensures 0 <= r <= Q15Max
    ensures x <= a || x >= d ==> r == 0
    ensures a < x < d && b <= x <= c ==> r == Q15Max
    ensures a < x < b && x < d ==> r == (x - a) * 32768 / (b - a)
    ensures a < x < d && b <= x && c < x ==> r == (d - x) * 32768 / (d - c)
  {
    if x <= a || x >= d then 0
    else if b <= x <= c then Q15Max
    else if a < x < b then
      var dx := if b - a == 0 then 1 else b - a;
      var t := x - a;
      RampBelowOne(t, dx);
      Min(Q15Max, t * 32768 / dx)
    else
      var dx := if d - c == 0 then 1 else d - c;
      var t := d - x;
      RampBelowOne(t, dx);
      Min(Q15Max, t * 32768 / dx)
  }

  /** A ramp numerator strictly below its width gives a Q1.15 value below one. */
  lemma RampBelowOne(t: int, dx: int)
    requires 0 < t < dx
    ensures 0 <= t * 32768 / dx <= Q15Max
  {
    assert t * 32768 < dx * 32768;
    DivBelow(t * 32768, dx, 32768);
  }

  lemma DivBelow(n: int, d: int, k: int)
    requires d > 0 && 0 <= n < d * k
    ensures 0 <= n / d < k
  {
    var q := n / d;
    assert d * q <= n;
    if q >= k {
      MulLeft(d, k, q);
    }
  }

  lemma DivMonotone(n1: int, n2: int, d: int)
    requires d > 0 && n1 <= n2
    ensures n1 / d <= n2 / d
  {
    var q1 := n1 / d;
    var q2 := n2 / d;
    assert d * q1 <= n1 && n2 < d * q2 + d;
    if q1 > q2 {
      MulLeft(d, q2 + 1, q1);
    }
  }

  function Mu(x: int, t: Thresholds): (r: int)
    ensures 0 <= r <= Q15Max
  {
    TrapezoidMu(x, t.a, t.b, t.c, t.d)
  }

  /** The degrees of x in the neg, zero and pos sets, in that order. */
  function Fuzzify(x: int, mf: MfSet3): (r: Mu3)
    ensures forall i :: 0 <= i < 3 ==> 0 <= r.At(i) <= Q15Max
    ensures forall i :: 0 <= i < 3 ==> r.At(i) == Mu(x, mf.At(i))
  {
    Mu3(Mu(x, mf.neg), Mu(x, mf.zero), Mu(x, mf.pos))
  }

  /** For ordered thresholds the membership never decreases left of the plateau's end
      (inside the support) and never increases right of the plateau's start. */
  lemma TrapezoidShape(x: int, y: int, t: Thresholds)
    requires t.Ordered() && x <= y
    ensures y <= t.c && y < t.d ==> Mu(x, t) <= Mu(y, t)
    ensures t.b <= x && t.a < x ==> Mu(x, t) >= Mu(y, t)
  {
    var a, b, c, d := t.a, t.b, t.c, t.d;
    if y <= c && y < d && a < x && x < b && y < b {
      DivMonotone((x - a) * 32768, (y - a) * 32768, b - a);
    }
    if b <= x && a < x && c < x && y < d {
      DivMonotone((d - y) * 32768, (d - x) * 32768, d - c);
    }
  }
}
