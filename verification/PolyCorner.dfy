// A polygon's corner triangles: what they wind round, the part of one that no edge enters,
// and what cutting an ear off keeps.
module PolyCorner {
  import opened GeoTriangulate
  import opened PolyWinding
  import opened PolySimple

  /** In the closed triangle of the corner `e` between `a` and `b`. */
  predicate InCorner(a: Pt, e: Pt, b: Pt, v: Pt) { Cross(a, e, v) >= 0.0 && Cross(e, b, v) >= 0.0 && Cross(b, a, v) >= 0.0 }

  /** Inside it, off its sides. */
  predicate Within(a: Pt, e: Pt, b: Pt, v: Pt) { Cross(a, e, v) > 0.0 && Cross(e, b, v) > 0.0 && Cross(b, a, v) > 0.0 }

  lemma {:induction false} CornerSum(a: Pt, e: Pt, b: Pt, v: Pt)
    ensures Cross(a, e, v) + Cross(e, b, v) + Cross(b, a, v) == Cross(a, e, b)
  {
  }

  /** A point as the corners' weighted mean. */
  lemma {:induction false} Weights(a: Pt, e: Pt, b: Pt, v: Pt)
    ensures Cross(a, e, v) + Cross(e, b, v) + Cross(b, a, v) == Cross(a, e, b)
    ensures Cross(e, b, v) * (a.x - v.x) + Cross(b, a, v) * (e.x - v.x) + Cross(a, e, v) * (b.x - v.x) == 0.0
    ensures Cross(e, b, v) * (a.y - v.y) + Cross(b, a, v) * (e.y - v.y) + Cross(a, e, v) * (b.y - v.y) == 0.0
  {
  }

  lemma {:induction false} CornerCrosses(a: Pt, e: Pt, b: Pt)
    ensures Cross(a, e, a) == 0.0 && Cross(a, e, e) == 0.0
    ensures Cross(e, b, e) == 0.0 && Cross(e, b, b) == 0.0 && Cross(e, b, a) == Cross(a, e, b)
    ensures Cross(b, a, a) == 0.0 && Cross(b, a, b) == 0.0 && Cross(b, a, e) == Cross(a, e, b)
  {
  }

  // ---------------------------------------------------------------- a triangle's winding

  lemma {:induction false} WeightedSpan(f: real, g: real, h: real, x: real, y: real, z: real)
    requires f > 0.0 && g > 0.0 && h > 0.0 && f * x + g * y + h * z == 0.0
    ensures !(x > 0.0 && y > 0.0 && z > 0.0) && (x <= 0.0 && y <= 0.0 && z <= 0.0 ==> x == 0.0 && y == 0.0 && z == 0.0)
  {
    Signs(f, x);
    Signs(g, y);
    Signs(h, z);
    Signs(f, -x);
    Signs(g, -y);
    Signs(h, -z);
  }

  /** A counter-clockwise triangle winds once round the points inside it. */
  lemma {:induction false} WithinWinds(a: Pt, e: Pt, b: Pt, v: Pt)
    requires Within(a, e, b, v)
    ensures TriWinds(a, e, b, v) == 1
  {
    Weights(a, e, b, v);
    UprightFlat(a, e, b);
    hide Cross;
    WeightedSpan(Cross(e, b, v), Cross(b, a, v), Cross(a, e, v), a.x - v.x, e.x - v.x, b.x - v.x);
  }

  lemma {:induction false} UprightFlat(a: Pt, e: Pt, b: Pt)
    ensures a.x == e.x == b.x ==> Cross(a, e, b) == 0.0
  {
  }

  lemma {:induction false} TriChain(a: Pt, e: Pt, b: Pt, q: Pt)
    ensures Winding([a, e, b], q) == TriWinds(a, e, b, q)
  {
    var s := [a, e, b];
    assert s[..2][..1] == s[..1];
    assert PathWinds(s[..1], q) == 0;
    assert PathWinds(s[..2], q) == Winds(a, e, q);
  }

  lemma {:induction false} AsideWinds(a: Pt, e: Pt, b: Pt, v: Pt)
    requires (v.x < a.x && v.x < e.x && v.x < b.x) || (v.x >= a.x && v.x >= e.x && v.x >= b.x)
    ensures TriWinds(a, e, b, v) == 0
  {
    hide Cross;
  }

  function Least(x: real, y: real): real { if x <= y then x else y }

  /** From a point on the right of `ae`, a point left of the triangle that is on the right of
      `ae` too. */
  lemma {:induction false} GoLeft(a: Pt, e: Pt, b: Pt, v: Pt) returns (r: Pt)
    requires Cross(a, e, b) > 0.0 && Cross(a, e, v) < 0.0 && !(v.x >= a.x && v.x >= e.x && v.x >= b.x)
    ensures Cross(a, e, r) < 0.0 && r.x < a.x && r.x < e.x && r.x < b.x
  {
    var x := Least(Least(a.x, e.x), Least(b.x, v.x)) - 1.0;
    if a.x != e.x {
      r := Slide(a, e, v, x - v.x);
    } else {
      r := Pt(x, v.y);
      UprightCross(a, e, b);
      UprightCross(a, e, v);
      UprightCross(a, e, r);
      hide Cross;
      UprightSigns(e.y - a.y, b.x - a.x, v.x - a.x, x - a.x);
    }
  }

  lemma {:induction false} UprightCross(a: Pt, e: Pt, v: Pt)
    requires a.x == e.x
    ensures Cross(a, e, v) == -((e.y - a.y) * (v.x - a.x))
  {
  }

  lemma {:induction false} UprightSigns(u: real, p: real, q: real, s: real)
    requires u * p < 0.0 && u * q > 0.0 && s < 0.0 && s < q && !(q >= 0.0 && q >= p)
    ensures u * s > 0.0
  {
    Signs(u, p);
    Signs(-u, p);
    Signs(-u, -p);
    Signs(u, q);
    Signs(-u, q);
    Signs(-u, -s);
  }

  lemma {:induction false} Slide(a: Pt, e: Pt, v: Pt, d: real) returns (r: Pt)
    requires a.x != e.x
    ensures r.x == v.x + d && Cross(a, e, r) == Cross(a, e, v)
  {
    var u, f := e.x - a.x, e.y - a.y;
    var m := f / u;
    r := Pt(v.x + d, v.y + m * d);
    assert m * u == f;
    SlideParts(u, f, m, d);
    assert Cross(a, e, r) == Cross(a, e, v) + (u * (m * d) - f * d);
  }

  lemma {:induction false} SlideParts(u: real, f: real, m: real, d: real)
    requires m * u == f
    ensures u * (m * d) == f * d
  {
    assert u * (m * d) == (m * u) * d;
  }

  /** ... and not round the points outside it. */
  lemma {:induction false} OutsideWinds(a: Pt, e: Pt, b: Pt, v: Pt)
    requires Cross(a, e, b) > 0.0 && !InCorner(a, e, b, v)
    ensures TriWinds(a, e, b, v) == 0
  {
    CornerCrosses(a, e, b);
    assert Cross(b, a, e) == Cross(e, b, a);
    if Cross(a, e, v) < 0.0 {
      RightOfSide(a, e, b, v);
    } else if Cross(e, b, v) < 0.0 {
      RightOfSide(e, b, a, v);
      assert TriWinds(e, b, a, v) == TriWinds(a, e, b, v);
    } else {
      RightOfSide(b, a, e, v);
      assert TriWinds(b, a, e, v) == TriWinds(a, e, b, v);
    }
  }

  lemma {:induction false} RightOfSide(a: Pt, e: Pt, b: Pt, v: Pt)
    requires Cross(a, e, b) > 0.0 && Cross(a, e, v) < 0.0
    ensures TriWinds(a, e, b, v) == 0
  {
    if v.x >= a.x && v.x >= e.x && v.x >= b.x {
      AsideWinds(a, e, b, v);
    } else {
      var r := GoLeft(a, e, b, v);
      var s := [a, e, b];
      CornerCrosses(a, e, b);
      hide Cross, On, Winding, TriWinds;
      forall c, d, w | IsEdge(s, c, d) && On(c, d, w) ensures !On(v, r, w) {
        SideOfMix(a, e, c, d, w);
        if On(v, r, w) { SideOfMix(a, e, v, r, w); }
      }
      MissesSteady(s, v, r);
      TriChain(a, e, b, v);
      TriChain(a, e, b, r);
      AsideWinds(a, e, b, r);
    }
  }

  // ---------------------------------------------------------------- what no edge enters

  lemma {:induction false} OnSide(a: Pt, e: Pt, b: Pt, x: Pt)
    requires Cross(a, e, b) > 0.0 && InCorner(a, e, b, x)
    ensures Cross(a, e, x) == 0.0 ==> On(e, a, x)
    ensures Cross(e, b, x) == 0.0 ==> On(e, b, x)
    ensures Cross(b, a, x) == 0.0 ==> On(a, b, x)
  {
    Weights(a, e, b, x);
    hide Cross;
    if Cross(a, e, x) == 0.0 { WeightedOn(Cross(e, b, x), Cross(b, a, x), a, e, x); OnBack(a, e, x); }
    if Cross(e, b, x) == 0.0 { WeightedOn(Cross(b, a, x), Cross(a, e, x), e, b, x); }
    if Cross(b, a, x) == 0.0 { WeightedOn(Cross(e, b, x), Cross(a, e, x), a, b, x); }
  }

  lemma {:induction false} WeightedOn(f: real, g: real, a: Pt, b: Pt, x: Pt)
    requires f >= 0.0 && g >= 0.0 && f + g > 0.0
    requires f * (a.x - x.x) + g * (b.x - x.x) == 0.0 && f * (a.y - x.y) + g * (b.y - x.y) == 0.0
    ensures On(a, b, x)
  {
    var n := f + g;
    var t := Quotient(g, n);
    assert n * (x.x - a.x) == g * (b.x - a.x);
    assert n * (x.y - a.y) == g * (b.y - a.y);
    Divided(n, x.x - a.x, g, b.x - a.x, t);
    Divided(n, x.y - a.y, g, b.y - a.y, t);
    assert x == Mix(a, b, t);
    OnMix(a, b, t);
  }

  /** When a value first comes down to zero on its way from `p` to `q`. */
  lemma {:induction false} FirstZero(p: real, q: real) returns (t: real)
    requires p >= 0.0
    ensures 0.0 <= t <= 1.0 && (forall u: real :: 0.0 <= u <= t ==> Moved(p, q, u) >= 0.0)
    ensures q < 0.0 ==> Moved(p, q, t) == 0.0
    ensures q >= 0.0 ==> t == 1.0
    ensures p > 0.0 ==> t > 0.0
  {
    if q >= 0.0 {
      t := 1.0;
      forall u: real | 0.0 <= u <= t ensures Moved(p, q, u) >= 0.0 { Shared(u, p, q); }
    } else {
      t := Quotient(p, p - q);
      MovedBy(p, q, t);
      assert t * (q - p) == -(t * (p - q));
      forall u: real | 0.0 <= u <= t ensures Moved(p, q, u) >= 0.0 {
        MovedBy(p, q, u);
        Signs(t - u, p - q);
        Unfolded(t, u, p - q);
        assert u * (q - p) == -(u * (p - q));
      }
    }
  }

  lemma {:induction false} Unfolded(t: real, u: real, d: real)
    ensures (t - u) * d == t * d - u * d
  {
  }

  /** Leaving the triangle on the tip's side of the chord means passing a side at the tip. */
  lemma {:induction false} Exit(a: Pt, e: Pt, b: Pt, w: Pt, c: Pt) returns (x: Pt)
    requires Cross(a, e, b) > 0.0 && InCorner(a, e, b, w)
    requires Cross(b, a, c) > 0.0 && !InCorner(a, e, b, c)
    requires Cross(b, a, w) > 0.0 || (Cross(a, e, w) > 0.0 && Cross(e, b, w) > 0.0)
    ensures On(w, c, x) && Cross(b, a, x) > 0.0 && (On(e, a, x) || On(e, b, x))
  {
    var t1 := FirstZero(Cross(a, e, w), Cross(a, e, c));
    var t2 := FirstZero(Cross(e, b, w), Cross(e, b, c));
    var t := Least(t1, t2);
    x := Mix(w, c, t);
    OnMix(w, c, t);
    CrossMoved(a, e, w, c, t);
    CrossMoved(e, b, w, c, t);
    CrossMoved(b, a, w, c, t);
    hide Cross, Mix, On;
    SharedMoved(t, Cross(b, a, w), Cross(b, a, c));
    hide Moved;
    OnSide(a, e, b, x);
  }

  lemma {:induction false} CrossMoved(a: Pt, b: Pt, c: Pt, d: Pt, t: real)
    ensures Cross(a, b, Mix(c, d, t)) == Moved(Cross(a, b, c), Cross(a, b, d), t)
  {
    CrossMix(a, b, c, d, t);
  }

  lemma {:induction false} SharedMoved(t: real, p: real, q: real)
    requires 0.0 <= t <= 1.0
    ensures p > 0.0 && q > 0.0 ==> Moved(p, q, t) > 0.0
    ensures p >= 0.0 && q > 0.0 && t > 0.0 ==> Moved(p, q, t) > 0.0
  {
    Shared(t, p, q);
  }

  ghost predicate IsCorner(s: seq<Pt>, p: Pt, e: Pt, n: Pt) { IsEdge(s, p, e) && IsEdge(s, e, n) }

  /** Off its chord, the triangle at `e` holds no other vertex. */
  ghost predicate Empty(s: seq<Pt>, a: Pt, e: Pt, b: Pt) {
    forall v <- s :: v != e && InCorner(a, e, b, v) ==> Cross(b, a, v) == 0.0
  }

  /** A triangle at the corner `e`, its sides on the corner's edges, with no vertex in it off
      its chord. */
  ghost predicate Zone(s: seq<Pt>, p: Pt, e: Pt, n: Pt, a: Pt, b: Pt) {
    Simple(s) && IsCorner(s, p, e, n) && On(e, p, a) && On(e, n, b) && Cross(a, e, b) > 0.0 && Empty(s, a, e, b)
  }

  lemma {:induction false} VertexOnEdge(s: seq<Pt>, v: Pt, c: Pt, d: Pt)
    requires Simple(s) && v in s && IsEdge(s, c, d) && On(c, d, v)
    ensures v == c || v == d
  {
    var u, w := EdgesOf(s, v);
    OnEnds(v, w);
    if c != v { SimpleMeet(s, v, w, c, d, v); }
  }

  /** An edge's end inside a corner's side is the side's own. */
  lemma {:induction false} EndReached(e: Pt, p: Pt, a: Pt)
    requires On(e, p, a) && On(e, a, p) && e != p
    ensures a == p
  {
    var u :| 0.0 <= u <= 1.0 && p == Mix(e, a, u);
    AlongEnds(e, p);
    AlongOn(e, p, a);
    AlongMix(e, p, e, a, u);
    var n, l := Along(e, p, p), Along(e, p, a);
    assert n == (1.0 - u) * 0.0 + u * l;
    WholePortion(u, l, n);
    assert Mix(e, a, 1.0) == a;
  }

  lemma {:induction false} WholePortion(u: real, l: real, n: real)
    requires 0.0 <= u <= 1.0 && l <= n && n > 0.0 && n == u * l
    ensures u == 1.0
  {
    Signs(u, n - l);
    Signs(1.0 - u, n);
    assert u * (n - l) == u * n - n;
    assert (1.0 - u) * n == n - u * n;
  }

  /** An edge that comes into the triangle comes from beyond its chord. */
  lemma {:induction false} FarEnd(s: seq<Pt>, p: Pt, e: Pt, n: Pt, a: Pt, b: Pt, c: Pt, d: Pt, w: Pt, end: Pt)
    requires Zone(s, p, e, n, a, b) && IsEdge(s, c, d) && c != p && c != e && On(c, d, w) && InCorner(a, e, b, w)
    requires Cross(b, a, w) > 0.0 || (Cross(a, e, w) > 0.0 && Cross(e, b, w) > 0.0)
    requires end == c || end == d
    ensures Cross(b, a, end) <= 0.0
  {
    EdgeEnds(s, c, d);
    EdgeEnds(s, p, e);
    EdgeEnds(s, e, n);
    OnEnds(c, d);
    CornerCrosses(a, e, b);
    hide On, Cross, InCorner, Simple;
    if Cross(b, a, end) > 0.0 && !InCorner(a, e, b, end) {
      var x := Exit(a, e, b, w, end);
      OnPart(c, d, w, end, x);
      OnEnds(e, p);
      OnEnds(e, n);
      if On(e, a, x) {
        OnPart(e, p, e, a, x);
        OnBack(e, p, x);
        SimpleMeet(s, p, e, c, d, x);
        if x == p { EndReached(e, p, a); }
      } else {
        OnPart(e, n, e, b, x);
        SimpleMeet(s, e, n, c, d, x);
        if x == n { EndReached(e, n, b); }
      }
    }
  }

  /** No other edge enters the triangle off its chord. */
  lemma {:induction false} ZoneFree(s: seq<Pt>, p: Pt, e: Pt, n: Pt, a: Pt, b: Pt, c: Pt, d: Pt, w: Pt)
    requires Zone(s, p, e, n, a, b) && IsEdge(s, c, d) && c != p && c != e && On(c, d, w) && InCorner(a, e, b, w)
    ensures Cross(b, a, w) == 0.0
  {
    if Cross(b, a, w) > 0.0 {
      FarEnd(s, p, e, n, a, b, c, d, w, c);
      FarEnd(s, p, e, n, a, b, c, d, w, d);
      SideOfMix(b, a, c, d, w);
    }
    hide Simple;
  }

  lemma {:induction false} InCornerMix(a: Pt, e: Pt, b: Pt, q: Pt, r: Pt, w: Pt)
    requires InCorner(a, e, b, q) && InCorner(a, e, b, r) && On(q, r, w)
    ensures InCorner(a, e, b, w)
  {
    SideOfMix(a, e, q, r, w);
    SideOfMix(e, b, q, r, w);
    SideOfMix(b, a, q, r, w);
  }

  lemma {:induction false} OnSameLine(e: Pt, p: Pt, a: Pt, w: Pt)
    requires On(e, p, a) && On(e, p, w)
    ensures Cross(a, e, w) == 0.0 && Cross(e, a, w) == 0.0
  {
    OnLine(e, p, a);
    CornerCrosses(a, e, p);
    SideOfMix(a, e, e, p, w);
    BackCross(a, e, w);
  }

  lemma {:induction false} WithinCorner(a: Pt, e: Pt, b: Pt, v: Pt)
    requires Within(a, e, b, v)
    ensures InCorner(a, e, b, v) && Cross(a, e, v) > 0.0 && Cross(e, b, v) > 0.0 && Cross(b, a, v) > 0.0
  {
  }

  /** Inside the triangle, off its chord but for one end, a segment misses the polygon. */
  lemma {:induction false} ZoneMisses(s: seq<Pt>, p: Pt, e: Pt, n: Pt, a: Pt, b: Pt, q: Pt, r: Pt)
    requires Zone(s, p, e, n, a, b) && InCorner(a, e, b, q) && Cross(a, e, q) > 0.0 && Cross(e, b, q) > 0.0 && Within(a, e, b, r)
    requires Off(s, q) || Cross(b, a, q) > 0.0
    ensures Misses(s, q, r)
  {
    assert Cross(b, a, q) >= 0.0;
    hide Cross, On, InCorner, Simple;
    WithinCorner(a, e, b, r);
    forall c, d, w | IsEdge(s, c, d) && On(c, d, w) && On(q, r, w) ensures false {
      InCornerMix(a, e, b, q, r, w);
      SideOfMix(a, e, q, r, w);
      SideOfMix(e, b, q, r, w);
      OnBack(q, r, w);
      SideOfMix(b, a, r, q, w);
      if c == p {
        EdgeEnds(s, p, e);
        EdgeEnds(s, c, d);
        OnBack(p, e, w);
        OnSameLine(e, p, a, w);
      } else if c == e {
        EdgeEnds(s, e, n);
        EdgeEnds(s, c, d);
        OnSameLine(e, n, b, w);
      } else {
        ZoneFree(s, p, e, n, a, b, c, d, w);
      }
    }
  }
}
