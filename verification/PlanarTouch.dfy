// What counts as touching within the weld quantum: how far a point is from a ring, and which
// edges cross or run along each other.
module PlanarTouch {
  import opened Common
  import opened GeoTriangulate
  import opened PolyWinding
  import opened PolySimple
  import Boundary = PlanarBoundary

  /** How close two things are that touch, squared. */
  const TOUCH: real := 1.0 / Boundary.QUANTUM
  const TOUCH2: real := TOUCH * TOUCH

  function Sq(x: real): real { x * x }

  function Dist2(p: Pt, q: Pt): real { Sq(q.x - p.x) + Sq(q.y - p.y) }

  function Times(x: real, y: real): real { x * y }

  lemma {:induction false} SqOrder(x: real, y: real)
    ensures AbsReal(x) <= AbsReal(y) ==> Sq(x) <= Sq(y)
    ensures AbsReal(x) < AbsReal(y) ==> Sq(x) < Sq(y)
    ensures Sq(x) >= 0.0
  {
    var u, v := AbsReal(x), AbsReal(y);
    Signs(u, v - u);
    Signs(v, v - u);
    Signs(u, u);
    assert v * v - u * u == u * (v - u) + v * (v - u);
    assert Sq(x) == u * u && Sq(y) == v * v;
  }

  // ---------------------------------------------------------------- along a line

  /** A point's distance to a point of a line, by its distance to the line and along it. */
  lemma {:induction false} DistTimes(a: Pt, b: Pt, p: Pt, t: real)
    ensures var n := Dist2(a, b); Times(n, Dist2(p, Mix(a, b, t))) == Sq(Cross(a, b, p)) + Sq(Along(a, b, p) - Times(t, n))
  {
    hide Cross, Along, Mix, Sq, Times, Dist2;
    var u, v, e, f := b.x - a.x, b.y - a.y, p.x - a.x, p.y - a.y;
    var x, y := Mix(a, b, t).x - p.x, Mix(a, b, t).y - p.y;
    var c, g := Cross(a, b, p), Along(a, b, p) - Times(t, Dist2(a, b));
    CrossParts(a, b, p, t);
    DistIs(a, b);
    DistIs(p, Mix(a, b, t));
    Lagrange(u, v, x, y);
    Crosswise(u, v, e, f, t, x, y, c, g);
    SqMinus(g);
    SqMinus(c);
  }

  lemma {:induction false} DistIs(p: Pt, q: Pt)
    ensures Dist2(p, q) == Sq(q.x - p.x) + Sq(q.y - p.y)
  {
  }

  lemma {:induction false} CrossParts(a: Pt, b: Pt, p: Pt, t: real)
    ensures var u, v, e, f := b.x - a.x, b.y - a.y, p.x - a.x, p.y - a.y;
      && Cross(a, b, p) == u * f - v * e && Along(a, b, p) == e * u + f * v
      && Mix(a, b, t).x - p.x == t * u - e && Mix(a, b, t).y - p.y == t * v - f
  {
  }

  lemma {:induction false} Lagrange(u: real, v: real, x: real, y: real)
    ensures Times(Sq(u) + Sq(v), Sq(x) + Sq(y)) == Sq(u * x + v * y) + Sq(u * y - v * x)
  {
  }

  lemma {:induction false} Crosswise(u: real, v: real, e: real, f: real, t: real, x: real, y: real, c: real, g: real)
    requires x == t * u - e && y == t * v - f && c == u * f - v * e && g == e * u + f * v - Times(t, Sq(u) + Sq(v))
    ensures u * x + v * y == -g && u * y - v * x == -c
  {
  }

  lemma {:induction false} SqMinus(x: real)
    ensures Sq(-x) == Sq(x)
  {
  }

  /** The distance between two points of a line. */
  lemma {:induction false} MixDist(a: Pt, b: Pt, s: real, t: real)
    ensures var n := Dist2(a, b); Times(n, Dist2(Mix(a, b, s), Mix(a, b, t))) == Sq(Times(t, n) - Times(s, n))
  {
    var u, v, r := b.x - a.x, b.y - a.y, t - s;
    var x, y := Mix(a, b, t).x - Mix(a, b, s).x, Mix(a, b, t).y - Mix(a, b, s).y;
    assert x == r * u && y == r * v;
    MixParts(u, v, x, y, r);
    TimesApart(s, t, Dist2(a, b));
    hide Sq, Times;
    assert Dist2(a, b) == Sq(u) + Sq(v);
    assert Dist2(Mix(a, b, s), Mix(a, b, t)) == Sq(x) + Sq(y);
  }

  lemma {:induction false} MixParts(u: real, v: real, x: real, y: real, r: real)
    requires x == r * u && y == r * v
    ensures Times(Sq(u) + Sq(v), Sq(x) + Sq(y)) == Sq(Times(r, Sq(u) + Sq(v)))
  {
    Lagrange(u, v, x, y);
    assert u * y - v * x == 0.0;
    assert u * x + v * y == r * (u * u) + r * (v * v);
  }

  lemma {:induction false} TimesApart(s: real, t: real, n: real)
    ensures Times(t - s, n) == Times(t, n) - Times(s, n)
  {
  }

  lemma {:induction false} AlongSelf(a: Pt, b: Pt)
    ensures Along(a, b, b) == Dist2(a, b) >= 0.0 && (a != b <==> Dist2(a, b) > 0.0)
  {
    AlongEnds(a, b);
  }

  // ---------------------------------------------------------------- distance to a ring

  function Clamp(t: real): real { if t < 0.0 then 0.0 else if t > 1.0 then 1.0 else t }

  /** The point of a segment a point projects to, held between the ends. */
  function Foot(a: Pt, b: Pt, p: Pt): Pt {
    var n := Dist2(a, b);
    Mix(a, b, if n > 0.0 then Clamp(Along(a, b, p) / n) else 0.0)
  }

  /** It is the segment's nearest point. */
  lemma {:induction false} FootNearest(a: Pt, b: Pt, p: Pt)
    ensures On(a, b, Foot(a, b, p)) && forall w :: On(a, b, w) ==> Dist2(p, Foot(a, b, p)) <= Dist2(p, w)
  {
    hide Dist2, Along, Mix;
    var n := Dist2(a, b);
    AlongSelf(a, b);
    if n > 0.0 {
      var t := Along(a, b, p) / n;
      var u := Clamp(t);
      OnMix(a, b, u);
      assert Along(a, b, p) == t * n;
      forall w | On(a, b, w) ensures Dist2(p, Mix(a, b, u)) <= Dist2(p, w) {
        var v :| 0.0 <= v <= 1.0 && w == Mix(a, b, v);
        Nearer(a, b, p, t, u, v);
      }
    } else {
      OnPoint(a);
      OnEnds(a, b);
    }
  }

  lemma {:induction false} OnPoint(a: Pt)
    ensures Mix(a, a, 0.0) == a && forall w :: On(a, a, w) ==> w == a
  {
  }

  lemma {:induction false} Nearer(a: Pt, b: Pt, p: Pt, t: real, u: real, v: real)
    requires 0.0 <= v <= 1.0 && u == Clamp(t) && Dist2(a, b) > 0.0 && Along(a, b, p) == t * Dist2(a, b)
    ensures Dist2(p, Mix(a, b, u)) <= Dist2(p, Mix(a, b, v))
  {
    var n := Dist2(a, b);
    assert Along(a, b, p) == Times(t, n);
    hide Dist2, Cross, Along, Mix, Sq, Times;
    DistTimes(a, b, p, u);
    DistTimes(a, b, p, v);
    SqGap(t, u, v, n);
    TimesOrder(n, Dist2(p, Mix(a, b, u)), Dist2(p, Mix(a, b, v)));
  }

  lemma {:induction false} SqGap(t: real, u: real, v: real, n: real)
    requires 0.0 <= v <= 1.0 && u == Clamp(t) && n > 0.0
    ensures Sq(Times(t, n) - Times(u, n)) <= Sq(Times(t, n) - Times(v, n))
  {
    GapTimes(t, u, n);
    GapTimes(t, v, n);
    TimesOrder(n, AbsReal(t - u), AbsReal(t - v));
    SqOrder(Times(t, n) - Times(u, n), Times(t, n) - Times(v, n));
  }

  lemma {:induction false} GapTimes(t: real, u: real, n: real)
    requires n > 0.0
    ensures AbsReal(Times(t, n) - Times(u, n)) == Times(n, AbsReal(t - u))
  {
    Signs(n, t - u);
    assert t * n - u * n == n * (t - u);
  }

  lemma {:induction false} TimesOrder(n: real, x: real, y: real)
    requires n > 0.0
    ensures (Times(n, x) <= Times(n, y) <==> x <= y) && (Times(n, x) < Times(n, y) <==> x < y)
  {
    Signs(n, y - x);
    Signs(n, x - y);
    assert n * (y - x) == n * y - n * x && n * (x - y) == n * x - n * y;
  }

  /** The squared distance to the nearest point of a ring; none of an empty one. */
  method DistanceToRing(p: Pt, r: seq<Pt>) returns (best: Option<real>)
    ensures best.None? <==> r == []
    ensures best.Some? ==> (exists w :: !Off(r, w) && Dist2(p, w) == best.value) && forall w :: !Off(r, w) ==> best.value <= Dist2(p, w)
  {
    hide Foot, Dist2, On, Mix;
    best := None;
    for i := 0 to |r|
      invariant best.None? <==> i == 0
      invariant best.Some? ==> exists k: nat, w :: k < i && On(r[k], After(r, k), w) && Dist2(p, w) == best.value
      invariant best.Some? ==> forall k: nat, w :: k < i && On(r[k], After(r, k), w) ==> best.value <= Dist2(p, w)
    {
      var a, b := r[i], After(r, i);
      var w := Foot(a, b, p);
      FootNearest(a, b, p);
      var d := Dist2(p, w);
      best := if best.None? || d < best.value then Some(d) else best;
    }
    if best.Some? { RingPoints(p, r, best.value); }
  }

  lemma {:induction false} RingPoints(p: Pt, r: seq<Pt>, best: real)
    requires exists k: nat, w :: k < |r| && On(r[k], After(r, k), w) && Dist2(p, w) == best
    requires forall k: nat, w :: k < |r| && On(r[k], After(r, k), w) ==> best <= Dist2(p, w)
    ensures (exists w :: !Off(r, w) && Dist2(p, w) == best) && forall w :: !Off(r, w) ==> best <= Dist2(p, w)
  {
    hide On, Dist2;
    var k: nat, w :| k < |r| && On(r[k], After(r, k), w) && Dist2(p, w) == best;
    EdgeAt(r, k);
    assert !Off(r, w);
    forall w | !Off(r, w) ensures best <= Dist2(p, w) {
      var a, b :| IsEdge(r, a, b) && On(a, b, w);
    }
  }

  /** Within the quantum of some point of the ring. */
  ghost predicate Near(p: Pt, r: seq<Pt>) { exists w :: !Off(r, w) && Dist2(p, w) <= TOUCH2 }

  /** ... so a point that is not near is off the ring. */
  lemma {:induction false} ClearOff(p: Pt, r: seq<Pt>)
    requires !Near(p, r)
    ensures Off(r, p)
  {
    assert Dist2(p, p) == 0.0;
    hide Off;
  }

  method TouchesRing(p: Pt, r: seq<Pt>) returns (near: bool)
    ensures near <==> Near(p, r)
  {
    hide Dist2, Off;
    var best := DistanceToRing(p, r);
    if r == [] { NoPoints(r); }
    near := best.Some? && best.value <= TOUCH2;
  }

  lemma {:induction false} NoPoints(r: seq<Pt>)
    requires r == []
    ensures forall w :: Off(r, w)
  {
  }

  // ---------------------------------------------------------------- sides, within the quantum

  /** An edge of a ring. */
  datatype Span = Span(a: Pt, b: Pt)

  function Len2(e: Span): real { Dist2(e.a, e.b) }

  /** The side of the edge's line a point lies on, neither when it is within the quantum. */
  function Side(e: Span, p: Pt): int {
    var c := Cross(e.a, e.b, p);
    if Sq(c) <= Times(Len2(e), TOUCH2) then 0 else if c > 0.0 then 1 else -1
  }

  /** Neither side is being within the quantum of some point of the line. */
  lemma {:induction false} SideExact(e: Span, p: Pt)
    requires e.a != e.b
    ensures Side(e, p) == 0 <==> exists t: real :: Dist2(p, Mix(e.a, e.b, t)) <= TOUCH2
  {
    var a, b, n, m, c := e.a, e.b, Len2(e), Along(e.a, e.b, p), Cross(e.a, e.b, p);
    AlongSelf(a, b);
    var t := m / n;
    assert Times(t, n) == m;
    hide Dist2, Along, Cross, Mix, Times;
    DistTimes(a, b, p, t);
    TimesOrder(n, Dist2(p, Mix(a, b, t)), TOUCH2);
    forall u: real | Dist2(p, Mix(a, b, u)) <= TOUCH2 ensures Side(e, p) == 0 {
      DistTimes(a, b, p, u);
      TimesOrder(n, Dist2(p, Mix(a, b, u)), TOUCH2);
      SqOrder(m - Times(u, n), 0.0);
    }
  }

  /** Each edge has the other's ends on opposite sides. */
  predicate Crossing(s: Span, t: Span) {
    Side(s, t.a) * Side(s, t.b) < 0 && Side(t, s.a) * Side(t, s.b) < 0
  }

  /** Every end is further than the quantum from the other edge's line. */
  predicate ClearEnds(s: Span, t: Span) {
    Side(s, t.a) != 0 && Side(s, t.b) != 0 && Side(t, s.a) != 0 && Side(t, s.b) != 0
  }

  /** Edges cross exactly when they share a point and no end is near the other's line. */
  lemma {:induction false} CrossingExact(s: Span, t: Span)
    ensures Crossing(s, t) <==> ClearEnds(s, t) && exists w :: On(s.a, s.b, w) && On(t.a, t.b, w)
  {
    SideSign(s, t.a);
    SideSign(s, t.b);
    SideSign(t, s.a);
    SideSign(t, s.b);
    hide Side, Cross, On;
    if Crossing(s, t) {
      Opposite(Side(s, t.a), Side(s, t.b));
      Opposite(Side(t, s.a), Side(t, s.b));
      var w := Meet(s.a, s.b, t.a, t.b);
    }
    if w :| On(s.a, s.b, w) && On(t.a, t.b, w) {
      OnLine(s.a, s.b, w);
      OnLine(t.a, t.b, w);
      SideOfMix(s.a, s.b, t.a, t.b, w);
      SideOfMix(t.a, t.b, s.a, s.b, w);
    }
  }

  lemma {:induction false} SideSign(e: Span, p: Pt)
    ensures -1 <= Side(e, p) <= 1
    ensures (Side(e, p) > 0 ==> Cross(e.a, e.b, p) > 0.0) && (Side(e, p) < 0 ==> Cross(e.a, e.b, p) < 0.0)
  {
    if Cross(e.a, e.b, p) == 0.0 {
      AlongSelf(e.a, e.b);
      Signs(Len2(e), TOUCH2);
    }
  }

  lemma {:induction false} Opposite(u: int, v: int)
    requires -1 <= u <= 1 && -1 <= v <= 1 && u * v < 0
    ensures (u == 1 && v == -1) || (u == -1 && v == 1)
  {
  }

  // ---------------------------------------------------------------- running along

  function Lesser(x: real, y: real): real { if x <= y then x else y }

  /** Where along `s` what it shares with `t` begins and ends, scaled by its length. */
  function From(s: Span, t: Span): real { MaxReal(0.0, Lesser(Along(s.a, s.b, t.a), Along(s.a, s.b, t.b))) }
  function To(s: Span, t: Span): real { Lesser(Len2(s), MaxReal(Along(s.a, s.b, t.a), Along(s.a, s.b, t.b))) }

  predicate RunsAlong(s: Span, t: Span) {
    To(s, t) > From(s, t) && Sq(To(s, t) - From(s, t)) > Times(Len2(s), TOUCH2)
  }

  /** Two points of `s`, further apart than the quantum, that points of `t` project to. */
  ghost predicate SharesLength(s: Span, t: Span) {
    exists u, v, u', v' :: Projects(s, t, u', u) && Projects(s, t, v', v) && Dist2(u, v) > TOUCH2
  }

  ghost predicate Projects(s: Span, t: Span, w: Pt, u: Pt) {
    On(t.a, t.b, w) && On(s.a, s.b, u) && Along(s.a, s.b, w) == Along(s.a, s.b, u)
  }

  /** A point of a segment that projects to a place between where its ends do. */
  lemma {:induction false} Projected(s: Span, t: Span, x: real) returns (w: Pt)
    requires var c, d := Along(s.a, s.b, t.a), Along(s.a, s.b, t.b); Lesser(c, d) <= x <= MaxReal(c, d)
    ensures On(t.a, t.b, w) && Along(s.a, s.b, w) == x
  {
    var c, d := Along(s.a, s.b, t.a), Along(s.a, s.b, t.b);
    if c == d {
      w := t.a;
      OnEnds(t.a, t.b);
    } else {
      var p := Portion(x - c, x - d);
      w := Mix(t.a, t.b, p);
      OnMix(t.a, t.b, p);
      AlongMix(s.a, s.b, t.a, t.b, p);
      hide Along, Mix;
      assert p * (d - c) == x - c;
    }
  }

  /** A point of the first edge at a place along it. */
  lemma {:induction false} AtPlace(s: Span, x: real) returns (r: real)
    requires 0.0 <= x <= Len2(s) && Len2(s) > 0.0
    ensures 0.0 <= r <= 1.0 && Times(r, Len2(s)) == x && Along(s.a, s.b, Mix(s.a, s.b, r)) == x
  {
    r := Quotient(x, Len2(s));
    AlongSelf(s.a, s.b);
    AlongPortion(s.a, s.b, r);
    hide Along, Mix, Dist2;
  }

  lemma {:induction false} RunsShares(s: Span, t: Span)
    requires s.a != s.b && RunsAlong(s, t)
    ensures SharesLength(s, t)
  {
    AlongSelf(s.a, s.b);
    hide Along, Mix, Dist2, Times, Sq, On;
    var x, y, n := From(s, t), To(s, t), Len2(s);
    var p := AtPlace(s, x);
    var q := AtPlace(s, y);
    var u, v := Mix(s.a, s.b, p), Mix(s.a, s.b, q);
    OnMix(s.a, s.b, p);
    OnMix(s.a, s.b, q);
    var u' := Projected(s, t, x);
    var v' := Projected(s, t, y);
    MixDist(s.a, s.b, p, q);
    TimesOrder(n, TOUCH2, Dist2(u, v));
    assert Projects(s, t, u', u) && Projects(s, t, v', v);
  }

  lemma {:induction false} PlaceOf(s: Span, u: Pt) returns (p: real)
    requires On(s.a, s.b, u)
    ensures u == Mix(s.a, s.b, p) && Along(s.a, s.b, u) == Times(p, Len2(s)) && 0.0 <= Times(p, Len2(s)) <= Len2(s)
  {
    hide Along, Mix, Dist2, Times;
    p :| 0.0 <= p <= 1.0 && u == Mix(s.a, s.b, p);
    AlongSelf(s.a, s.b);
    AlongPortion(s.a, s.b, p);
    PortionTimes(p, Len2(s), Along(s.a, s.b, s.b), Along(s.a, s.b, u));
  }

  lemma {:induction false} PortionTimes(p: real, n: real, m: real, x: real)
    requires 0.0 <= p <= 1.0 && m == n >= 0.0 && x == p * m
    ensures x == Times(p, n) && 0.0 <= Times(p, n) <= n
  {
    PortionBound(p, n);
  }

  lemma {:induction false} Mixed(q: real, c: real, d: real)
    requires 0.0 <= q <= 1.0
    ensures Lesser(c, d) <= (1.0 - q) * c + q * d <= MaxReal(c, d)
  {
    var lo, hi := Lesser(c, d), MaxReal(c, d);
    Shared(q, c - lo, d - lo);
    Shared(q, hi - c, hi - d);
    Weighted(q, c, d, lo, hi);
  }

  lemma {:induction false} Weighted(q: real, c: real, d: real, lo: real, hi: real)
    ensures (1.0 - q) * (c - lo) + q * (d - lo) == (1.0 - q) * c + q * d - lo
    ensures (1.0 - q) * (hi - c) + q * (hi - d) == hi - ((1.0 - q) * c + q * d)
  {
  }

  lemma {:induction false} Reaches(s: Span, t: Span, w: Pt)
    requires On(t.a, t.b, w)
    ensures var c, d := Along(s.a, s.b, t.a), Along(s.a, s.b, t.b); Lesser(c, d) <= Along(s.a, s.b, w) <= MaxReal(c, d)
  {
    hide Along, Mix, Lesser, MaxReal;
    var q :| 0.0 <= q <= 1.0 && w == Mix(t.a, t.b, q);
    AlongMix(s.a, s.b, t.a, t.b, q);
    Mixed(q, Along(s.a, s.b, t.a), Along(s.a, s.b, t.b));
  }

  lemma {:induction false} ShareWithin(s: Span, t: Span, u: Pt, w: Pt) returns (p: real)
    requires Projects(s, t, w, u)
    ensures u == Mix(s.a, s.b, p) && From(s, t) <= Times(p, Len2(s)) <= To(s, t)
  {
    hide Along, Mix, Dist2, Times, On;
    p := PlaceOf(s, u);
    Reaches(s, t, w);
  }

  lemma {:induction false} SharesRuns(s: Span, t: Span)
    requires s.a != s.b && SharesLength(s, t)
    ensures RunsAlong(s, t)
  {
    hide Along, Mix, Dist2, Times, On, From, To, Projects, Sq;
    AlongSelf(s.a, s.b);
    var u, v, u', v' :| Projects(s, t, u', u) && Projects(s, t, v', v) && Dist2(u, v) > TOUCH2;
    var n := Len2(s);
    var p := ShareWithin(s, t, u, u');
    var q := ShareWithin(s, t, v, v');
    MixDist(s.a, s.b, p, q);
    TimesOrder(n, TOUCH2, Dist2(u, v));
    TouchPositive(n);
    SqOrder(Times(q, n) - Times(p, n), To(s, t) - From(s, t));
  }

  lemma {:induction false} TouchPositive(n: real)
    requires n > 0.0
    ensures Times(n, TOUCH2) > 0.0 && Sq(0.0) == 0.0
  {
    Signs(n, TOUCH2);
  }

  /** Running along is sharing more than the quantum. */
  lemma {:induction false} RunsAlongExact(s: Span, t: Span)
    requires s.a != s.b
    ensures RunsAlong(s, t) <==> SharesLength(s, t)
  {
    if RunsAlong(s, t) { RunsShares(s, t); }
    if SharesLength(s, t) { SharesRuns(s, t); }
    hide RunsAlong, SharesLength;
  }

  // ---------------------------------------------------------------- all pairs

  /** A pair of edges is refused for crossing, or for running along each other: judged along
      the first when the second's ends are near its line, else along the second. */
  predicate Offends(s: Span, t: Span) {
    if Crossing(s, t) then true
    else if Side(s, t.a) == 0 && Side(s, t.b) == 0 then RunsAlong(s, t)
    else Side(t, s.a) == 0 && Side(t, s.b) == 0 && RunsAlong(t, s)
  }

  /** Within a hundred-thousandth of the edge's line. */
  ghost predicate ByLine(e: Span, p: Pt) { exists t: real :: Dist2(p, Mix(e.a, e.b, t)) <= 0.0000000001 }

  ghost predicate SharePoint(s: Span, t: Span) { exists w :: On(s.a, s.b, w) && On(t.a, t.b, w) }

  /** What is refused: edges that share a point with every end clear of the other's line, and
      edges of which one lies within the quantum of the other's line and shares length with it. */
  lemma {:induction false} OffendsExact(s: Span, t: Span)
    requires s.a != s.b && t.a != t.b
    ensures Offends(s, t) <==>
      || (!ByLine(s, t.a) && !ByLine(s, t.b) && !ByLine(t, s.a) && !ByLine(t, s.b) && SharePoint(s, t))
      || (ByLine(s, t.a) && ByLine(s, t.b) && SharesLength(s, t))
      || (!(ByLine(s, t.a) && ByLine(s, t.b)) && ByLine(t, s.a) && ByLine(t, s.b) && SharesLength(t, s))
    ensures TOUCH2 == 0.0000000001
  {
    CrossingExact(s, t);
    RunsAlongExact(s, t);
    RunsAlongExact(t, s);
    SideByLine(s, t.a);
    SideByLine(s, t.b);
    SideByLine(t, s.a);
    SideByLine(t, s.b);
    hide Crossing, Side, RunsAlong, SharesLength, ByLine, On;
  }

  lemma {:induction false} SideByLine(e: Span, p: Pt)
    requires e.a != e.b
    ensures Side(e, p) == 0 <==> ByLine(e, p)
  {
    assert TOUCH2 == 0.0000000001;
    SideExact(e, p);
    hide Side, Dist2, Mix;
  }

  function RingEdges(r: seq<Pt>, n: nat): seq<Span>
    requires n <= |r|
  {
    if n == 0 then []
    else RingEdges(r, n - 1) + if Dist2(r[n - 1], After(r, n - 1)) > TOUCH2 then [Span(r[n - 1], After(r, n - 1))] else []
  }

  /** All rings' edges longer than the quantum, in order. */
  function LongEdges(rings: seq<seq<Pt>>): seq<Span> {
    if rings == [] then [] else LongEdges(rings[..|rings| - 1]) + RingEdges(rings[|rings| - 1], |rings[|rings| - 1]|)
  }

  ghost predicate EdgesOffend(rings: seq<seq<Pt>>) {
    exists i, j :: 0 <= i < j < |LongEdges(rings)| && Offends(LongEdges(rings)[i], LongEdges(rings)[j])
  }

  method EdgesCrossOrOverlap(rings: seq<seq<Pt>>) returns (found: bool)
    ensures found <==> EdgesOffend(rings)
  {
    hide Offends, Dist2;
    var edges: seq<Span> := [];
    for m := 0 to |rings|
      invariant edges == LongEdges(rings[..m])
    {
      var r := rings[m];
      for i := 0 to |r|
        invariant edges == LongEdges(rings[..m]) + RingEdges(r, i)
      {
        if Dist2(r[i], After(r, i)) > TOUCH2 {
          edges := edges + [Span(r[i], After(r, i))];
        }
      }
      assert rings[..m + 1][..m] == rings[..m];
    }
    assert rings[..|rings|] == rings;
    for i := 0 to |edges|
      invariant forall k, l :: 0 <= k < i && k < l < |edges| ==> !Offends(edges[k], edges[l])
    {
      for j := i + 1 to |edges|
        invariant forall l :: i < l < j ==> !Offends(edges[i], edges[l])
      {
        if Offends(edges[i], edges[j]) {
          return true;
        }
      }
    }
    return false;
  }

  /** The edges taken are the rings' edges longer than the quantum. */
  lemma {:induction false} RingEdgesExact(r: seq<Pt>, n: nat, e: Span)
    requires n <= |r|
    ensures e in RingEdges(r, n) <==> Len2(e) > TOUCH2 && exists k: nat :: k < n && r[k] == e.a && After(r, k) == e.b
  {
    hide Dist2;
    if n > 0 { RingEdgesExact(r, n - 1, e); }
  }

  lemma {:induction false} LongEdgesExact(rings: seq<seq<Pt>>, e: Span)
    ensures e in LongEdges(rings) <==> Len2(e) > TOUCH2 && exists r <- rings :: IsEdge(r, e.a, e.b)
  {
    hide Len2;
    if rings != [] {
      var n := |rings| - 1;
      LongEdgesExact(rings[..n], e);
      RingEdgesExact(rings[n], |rings[n]|, e);
      assert forall r :: r in rings <==> r in rings[..n] || r == rings[n];
      assert IsEdge(rings[n], e.a, e.b) <==> exists k: nat :: k < |rings[n]| && rings[n][k] == e.a && After(rings[n], k) == e.b;
    }
  }
}
