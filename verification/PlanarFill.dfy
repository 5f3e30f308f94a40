// The even-odd fill is winding: a point is filled exactly when the rings go round it an odd
// number of times in all. And what the sweep asks of its rings, by points and edges alone.
module PlanarFill {
  import opened GeoTriangulate
  import opened PolyWinding
  import opened PlanarSweep
  import Sweep = PlanarSweep
  import Poly = PolySimple

  /** How often the rings go round a point, all together. */
  function Wound(rings: seq<Ring>, p: Pt): int {
    if rings == [] then 0 else Wound(rings[..|rings| - 1], p) + Winding(rings[|rings| - 1], p)
  }

  lemma {:induction false} HeightParts(u: real, v: real, w: real, q: real)
    requires u > 0.0 && q == v * w / u
    ensures u * q == v * w
  {
  }

  /** An edge from left to right is under a point exactly when the point is on its left. */
  lemma {:induction false} UnderIsLeft(a: Pt, b: Pt, p: Pt)
    requires a.x < b.x && a.x < p.x < b.x
    ensures var e := SweepEdge(a.x, a.y, b.x, b.y);
      && (YAt(e, p.x) < p.y <==> Cross(a, b, p) > 0.0) && (YAt(e, p.x) == p.y <==> Cross(a, b, p) == 0.0)
  {
    var u, v, w := b.x - a.x, b.y - a.y, p.x - a.x;
    var q := v * w / u;
    HeightParts(u, v, w, q);
    var g := p.y - a.y - q;
    assert Cross(a, b, p) == u * g by { CrossRest(a, b, p, q); }
    assert YAt(SweepEdge(a.x, a.y, b.x, b.y), p.x) == a.y + q;
    hide Cross, YAt;
    Poly.Signs(u, g);
    Poly.Signs(u, -g);
  }

  lemma {:induction false} CrossRest(a: Pt, b: Pt, p: Pt, q: real)
    requires (b.x - a.x) * q == (b.y - a.y) * (p.x - a.x)
    ensures Cross(a, b, p) == (b.x - a.x) * (p.y - a.y - q)
  {
    assert Cross(a, b, p) == (b.x - a.x) * (p.y - a.y) - (b.y - a.y) * (p.x - a.x);
  }

  /** An edge counts below a point when it winds past it, whichever way it runs. */
  lemma {:induction false} EdgeWinds(a: Pt, b: Pt, p: Pt)
    requires a.x != p.x && b.x != p.x
    ensures CrossingsBelow(EdgeOf(a, b), p) == (if Winds(a, b, p) == 0 then 0 else 1) && -1 <= Winds(a, b, p) <= 1
  {
    var es := EdgeOf(a, b);
    if es != [] { assert es[..0] == []; }
    BackCross(a, b, p);
    if a.x < p.x < b.x { UnderIsLeft(a, b, p); }
    if b.x < p.x < a.x { UnderIsLeft(b, a, p); }
    hide Cross, YAt;
  }

  lemma {:induction false} CrossingsSum(a: seq<SweepEdge>, b: seq<SweepEdge>, p: Pt)
    requires (forall e <- a :: Wide(e)) && forall e <- b :: Wide(e)
    ensures forall e <- a + b :: Wide(e)
    ensures CrossingsBelow(a + b, p) == CrossingsBelow(a, p) + CrossingsBelow(b, p)
  {
    hide Under;
    if b == [] {
      assert a + b == a;
    } else {
      var front := b[..|b| - 1];
      assert (a + b)[..|a + b| - 1] == a + front && (a + b)[|a + b| - 1] == b[|b| - 1];
      assert forall e <- front :: e in b;
      CrossingsSum(a, front, p);
    }
  }

  lemma {:induction false} SameParity(m: int, n: int, c: nat, w: int)
    requires (m - n) % 2 == 0 && -1 <= w <= 1 && c == (if w == 0 then 0 else 1)
    ensures (m + c - (n + w)) % 2 == 0
  {
  }

  ghost predicate OverNone(r: Ring, x: real) { forall i :: 0 <= i < |r| ==> r[i].x != x }

  lemma {:induction false} RingMore(r: Ring, k: nat, a: Pt, b: Pt, p: Pt)
    requires 0 < k <= |r| && a == r[k - 1] && b == Next(r, k - 1)
    ensures CrossingsBelow(RingEdges(r, k), p) == CrossingsBelow(RingEdges(r, k - 1), p) + CrossingsBelow(EdgeOf(a, b), p)
  {
    hide EdgeOf, CrossingsBelow;
    CrossingsSum(RingEdges(r, k - 1), EdgeOf(a, b), p);
  }

  lemma {:induction false} NextIs(r: Ring, k: nat)
    requires k < |r|
    ensures Next(r, k) == if k + 1 == |r| then r[0] else r[k + 1]
  {
  }

  lemma {:induction false} PathMore(s: seq<Pt>, k: nat, p: Pt)
    requires 0 < k < |s|
    ensures PathWinds(s[..k + 1], p) == PathWinds(s[..k], p) + Winds(s[k - 1], s[k], p)
  {
    assert s[..k + 1][..k] == s[..k];
    hide Winds;
  }

  lemma {:induction false} PathStarts(r: Ring, p: Pt)
    requires r != []
    ensures CrossingsBelow(RingEdges(r, 0), p) == 0 && PathWinds(r[..1], p) == 0
  {
  }

  lemma {:induction false} PathParity(r: Ring, p: Pt, k: nat)
    requires k < |r| && OverNone(r, p.x)
    ensures (CrossingsBelow(RingEdges(r, k), p) - PathWinds(r[..k + 1], p)) % 2 == 0
  {
    hide EdgeOf, Winds, RingEdges, CrossingsBelow, PathWinds;
    if k > 0 {
      PathParity(r, p, k - 1);
      EdgeWinds(r[k - 1], r[k], p);
      NextIs(r, k - 1);
      RingMore(r, k, r[k - 1], r[k], p);
      PathMore(r, k, p);
      SameParity(CrossingsBelow(RingEdges(r, k - 1), p), PathWinds(r[..k], p), CrossingsBelow(EdgeOf(r[k - 1], r[k]), p), Winds(r[k - 1], r[k], p));
    } else {
      PathStarts(r, p);
    }
  }

  /** A ring's edges below a point are as many as it winds, up to an even number. */
  lemma {:induction false} RingWound(r: Ring, p: Pt)
    requires OverNone(r, p.x)
    ensures (CrossingsBelow(RingEdges(r, |r|), p) - Winding(r, p)) % 2 == 0
  {
    hide EdgeOf, Winds, RingEdges, CrossingsBelow, PathWinds;
    if r != [] {
      var n := |r| - 1;
      assert r[..n + 1] == r;
      PathParity(r, p, n);
      EdgeWinds(r[n], r[0], p);
      NextIs(r, n);
      RingMore(r, n + 1, r[n], r[0], p);
      SameParity(CrossingsBelow(RingEdges(r, n), p), PathWinds(r, p), CrossingsBelow(EdgeOf(r[n], r[0]), p), Winds(r[n], r[0], p));
    } else {
      NoRing(r, p);
    }
  }

  lemma {:induction false} NoRing(r: Ring, p: Pt)
    requires r == []
    ensures CrossingsBelow(RingEdges(r, 0), p) == 0
  {
  }

  lemma {:induction false} RingsWound(rings: seq<Ring>, p: Pt)
    requires forall k :: 0 <= k < |rings| ==> OverNone(rings[k], p.x)
    ensures (CrossingsBelow(EdgesOf(rings), p) - Wound(rings, p)) % 2 == 0
  {
    hide CrossingsBelow, RingEdges, Winding, OverNone;
    if rings == [] {
      NoCrossings(p);
    } else {
      var n := |rings| - 1;
      RingsWound(rings[..n], p);
      RingWound(rings[n], p);
      CrossingsSum(EdgesOf(rings[..n]), RingEdges(rings[n], |rings[n]|), p);
    }
  }

  lemma {:induction false} NoCrossings(p: Pt)
    ensures CrossingsBelow([], p) == 0
  {
  }

  /** Filled is wound round an odd number of times. */
  lemma {:induction false} FilledIsWound(rings: seq<Ring>, p: Pt)
    requires !VertexX(rings, p.x)
    ensures Filled(rings, p) <==> Wound(rings, p) % 2 == 1
  {
    hide CrossingsBelow, EdgesOf, Winding;
    forall k | 0 <= k < |rings| ensures OverNone(rings[k], p.x) { }
    RingsWound(rings, p);
  }

  /** An edge passes through a point between its ends exactly when the point is on it. */
  lemma {:induction false} PassesIsOn(a: Pt, b: Pt, p: Pt, e: SweepEdge)
    requires a.x != p.x && b.x != p.x && e in EdgeOf(a, b) && e.x0 < p.x < e.x1
    ensures YAt(e, p.x) == p.y <==> Poly.On(a, b, p)
  {
    if a.x < b.x { UnderIsLeft(a, b, p); } else { UnderIsLeft(b, a, p); }
    BackCross(a, b, p);
    if Poly.On(a, b, p) { Poly.OnLine(a, b, p); }
    if Cross(a, b, p) == 0.0 { OnLeftToRight(a, b, p); }
    hide YAt;
  }

  lemma {:induction false} OnLeftToRight(a: Pt, b: Pt, p: Pt)
    requires Cross(a, b, p) == 0.0 && (a.x < p.x < b.x || b.x < p.x < a.x)
    ensures Poly.On(a, b, p)
  {
    var u, w := b.x - a.x, p.x - a.x;
    var t := w / u;
    assert t * u == w;
    Portion(t, u, w);
    assert u * (t * (b.y - a.y) - (p.y - a.y)) == w * (b.y - a.y) - u * (p.y - a.y) == 0.0 by { Scale(t, u, w, b.y - a.y, p.y - a.y); }
    Poly.Signs(u, t * (b.y - a.y) - (p.y - a.y));
    assert p == Poly.Mix(a, b, t);
    Poly.OnMix(a, b, t);
  }

  lemma {:induction false} Portion(t: real, u: real, w: real)
    requires t * u == w && (0.0 < w < u || u < w < 0.0)
    ensures 0.0 < t < 1.0
  {
    Poly.Signs(u, t);
    Poly.Signs(-u, t);
    Poly.Signs(u, t - 1.0);
    Poly.Signs(-u, t - 1.0);
    Poly.Signs(u, -t);
    Poly.Signs(-u, -t);
    Poly.Signs(u, 1.0 - t);
    Poly.Signs(-u, 1.0 - t);
    assert u * (t - 1.0) == w - u && -u * (t - 1.0) == u - w && u * (1.0 - t) == u - w && -u * (1.0 - t) == w - u;
  }

  lemma {:induction false} Scale(t: real, u: real, w: real, v: real, z: real)
    requires t * u == w && u * z - v * w == 0.0
    ensures u * (t * v - z) == w * v - u * z == 0.0
  {
    assert u * (t * v) == (t * u) * v;
  }

  // ---------------------------------------------------------------- edges that do not cross

  /** The edge leaving the ring's point `i`, from left to right. */
  predicate Leaves(r: Ring, i: nat, e: SweepEdge) { i < |r| && e in EdgeOf(r[i], Next(r, i)) }

  lemma {:induction false} RingEdgesExact(r: Ring, k: nat, e: SweepEdge)
    requires k <= |r|
    ensures e in RingEdges(r, k) <==> exists i: nat :: i < k && Leaves(r, i, e)
  {
    if k > 0 {
      RingEdgesExact(r, k - 1, e);
      RingEdgesLast(r, k, e);
    }
    hide RingEdges, Leaves;
  }

  lemma {:induction false} RingEdgesLast(r: Ring, k: nat, e: SweepEdge)
    requires 0 < k <= |r|
    ensures e in RingEdges(r, k) <==> e in RingEdges(r, k - 1) || Leaves(r, k - 1, e)
  {
    hide EdgeOf, Next;
  }

  /** The edges taken are the rings' edges that are not vertical. */
  lemma {:induction false} EdgesOfExact(rings: seq<Ring>, e: SweepEdge)
    ensures e in EdgesOf(rings) <==> exists r <- rings, i: nat :: Leaves(r, i, e)
  {
    hide Leaves, RingEdges;
    if rings != [] {
      var n := |rings| - 1;
      EdgesOfExact(rings[..n], e);
      RingEdgesExact(rings[n], |rings[n]|, e);
      forall i: nat | Leaves(rings[n], i, e) ensures i < |rings[n]| { LeavesIn(rings[n], i, e); }
      assert forall r :: r in rings <==> r in rings[..n] || r == rings[n];
    }
  }

  lemma {:induction false} LeavesIn(r: Ring, i: nat, e: SweepEdge)
    requires Leaves(r, i, e)
    ensures i < |r|
  {
  }

  /** A point is clear of the rings exactly when it is above or below no vertex and on no edge. */
  lemma {:induction false} ClearExact(rings: seq<Ring>, p: Pt)
    ensures Clear(rings, p) <==> !VertexX(rings, p.x) && forall r <- rings, i: nat :: i < |r| ==> !Poly.On(r[i], Next(r, i), p)
  {
    hide EdgesOf, Leaves, Next, Poly.On, YAt;
    if !VertexX(rings, p.x) {
      forall r, i: nat | r in rings && i < |r| && Poly.On(r[i], Next(r, i), p) ensures !Clear(rings, p) {
        EndsOff(rings, p.x, r, i);
        var e := OnSpans(r, i, p);
        EdgesOfExact(rings, e);
      }
      forall e | e in EdgesOf(rings) && e.x0 < p.x < e.x1 && YAt(e, p.x) == p.y
        ensures exists r <- rings, i: nat :: i < |r| && Poly.On(r[i], Next(r, i), p)
      {
        EdgesOfExact(rings, e);
        var r, i: nat :| r in rings && Leaves(r, i, e);
        LeavesIn(r, i, e);
        EndsOff(rings, p.x, r, i);
        LeavesOn(r, i, e, p);
      }
    }
  }

  lemma {:induction false} EndsOff(rings: seq<Ring>, x: real, r: Ring, i: nat)
    requires !VertexX(rings, x) && r in rings
    ensures i < |r| ==> r[i].x != x && Next(r, i).x != x
  {
    var k :| 0 <= k < |rings| && rings[k] == r;
    if i < |r| { NextIs(r, i); }
  }

  lemma {:induction false} LeavesOn(r: Ring, i: nat, e: SweepEdge, p: Pt)
    requires Leaves(r, i, e) && r[i].x != p.x && Next(r, i).x != p.x && e.x0 < p.x < e.x1
    ensures YAt(e, p.x) == p.y <==> Poly.On(r[i], Next(r, i), p)
  {
    PassesIsOn(r[i], Next(r, i), p, e);
    hide YAt;
  }

  lemma {:induction false} OnSpans(r: Ring, i: nat, p: Pt) returns (e: SweepEdge)
    requires i < |r| && Poly.On(r[i], Next(r, i), p) && r[i].x != p.x && Next(r, i).x != p.x
    ensures Leaves(r, i, e) && e.x0 < p.x < e.x1 && YAt(e, p.x) == p.y
  {
    var a, b := r[i], Next(r, i);
    var t :| 0.0 <= t <= 1.0 && p == Poly.Mix(a, b, t);
    Weighed(a.x, b.x, t, p.x);
    e := if a.x > b.x then SweepEdge(b.x, b.y, a.x, a.y) else SweepEdge(a.x, a.y, b.x, b.y);
    hide Poly.On, YAt;
    LeavesOn(r, i, e, p);
  }

  lemma {:induction false} Weighed(a: real, b: real, t: real, x: real)
    requires 0.0 <= t <= 1.0 && x == a + t * (b - a) && x != a && x != b
    ensures a < x < b || b < x < a
  {
    Poly.Signs(b - a, t);
    Poly.Signs(b - a, 1.0 - t);
    Poly.Signs(a - b, t);
    Poly.Signs(a - b, 1.0 - t);
    assert (b - a) * t == x - a && (b - a) * (1.0 - t) == b - x && (a - b) * t == a - x && (a - b) * (1.0 - t) == x - b;
  }

  /** At `x`, which is no vertex's, two edges meet at an angle. */
  predicate MeetAskew(rings: seq<Ring>, e: SweepEdge, f: SweepEdge, x: real)
    requires Wide(e) && Wide(f)
  {
    && !VertexX(rings, x) && e.x0 < x < e.x1 && f.x0 < x < f.x1 && YAt(e, x) == YAt(f, x) && !Aligned(e, f)
  }

  /** One direction. */
  predicate Aligned(e: SweepEdge, f: SweepEdge) { (e.y1 - e.y0) * (f.x1 - f.x0) == (f.y1 - f.y0) * (e.x1 - e.x0) }

  /** What the sweep needs of its rings: edges that meet at an angle do so only above or below a
      vertex, or at one. */
  lemma {:induction false} UncrossedExact(rings: seq<Ring>)
    ensures Sweep.Uncrossed(rings) <==> forall e <- EdgesOf(rings), f <- EdgesOf(rings), x: real :: !MeetAskew(rings, e, f, x)
  {
    hide EdgesOf, SlabOf, Swaps, MeetAskew;
    forall e, f, x: real | e in EdgesOf(rings) && f in EdgesOf(rings) && MeetAskew(rings, e, f, x) ensures !Sweep.Uncrossed(rings) {
      var l, h := AskewSwaps(rings, e, f, x);
      assert Swaps(e, f, l, h) || Swaps(f, e, l, h);
    }
    forall e, f, x: real, x': real | e in EdgesOf(rings) && f in EdgesOf(rings) && SlabOf(rings, x, x') && Swaps(e, f, x, x')
      ensures exists t: real :: MeetAskew(rings, e, f, t)
    {
      var t := SwapsAskew(rings, e, f, x, x');
    }
  }

  function Slope(e: SweepEdge): real
    requires Wide(e)
  {
    (e.y1 - e.y0) / (e.x1 - e.x0)
  }

  lemma {:induction false} AtSlope(e: SweepEdge, t: real, x: real)
    requires Wide(e)
    ensures YAt(e, x) == YAt(e, t) + Slope(e) * (x - t)
  {
    AtRatio(e, x);
    AtRatio(e, t);
    var m := Slope(e);
    assert m * (x - e.x0) == m * (t - e.x0) + m * (x - t);
    hide YAt;
  }

  lemma {:induction false} SameSlope(e: SweepEdge, f: SweepEdge)
    requires Wide(e) && Wide(f)
    ensures Slope(e) == Slope(f) <==> Aligned(e, f)
  {
    Ratios(e.y1 - e.y0, e.x1 - e.x0, f.y1 - f.y0, f.x1 - f.x0, Slope(e), Slope(f));
  }

  lemma {:induction false} Ratios(a: real, b: real, c: real, d: real, m: real, n: real)
    requires b > 0.0 && d > 0.0 && m == a / b && n == c / d
    ensures m == n <==> a * d == c * b
  {
    assert m * b == a && n * d == c;
    assert a * d - c * b == (m - n) * (b * d) by { Spread(a, b, c, d, m, n); }
    assert b * d > 0.0;
  }

  lemma {:induction false} Spread(a: real, b: real, c: real, d: real, m: real, n: real)
    requires m * b == a && n * d == c
    ensures a * d - c * b == (m - n) * (b * d)
  {
    assert m * b * d == m * (b * d) && n * d * b == n * (b * d);
  }

  /** Round such a place there is a slab, and the edges change places in it. */
  lemma {:induction false} AskewSwaps(rings: seq<Ring>, e: SweepEdge, f: SweepEdge, x: real) returns (l: real, h: real)
    requires e in EdgesOf(rings) && f in EdgesOf(rings) && MeetAskew(rings, e, f, x)
    ensures SlabOf(rings, l, h) && (Swaps(e, f, l, h) || Swaps(f, e, l, h))
  {
    hide YAt, Slope, EdgesOf, VertexX, SlabOf, Aligned;
    l, h := SlabRound(rings, x);
    SameSlope(e, f);
    AtSlope(e, x, l);
    AtSlope(f, x, l);
    AtSlope(e, x, h);
    AtSlope(f, x, h);
    SpansRound(rings, e, l, x, h);
    SpansRound(rings, f, l, x, h);
    OppositeSides(Slope(e), Slope(f), l - x, h - x, YAt(e, x), YAt(e, l), YAt(f, l), YAt(e, h), YAt(f, h));
  }

  lemma {:induction false} SpansRound(rings: seq<Ring>, e: SweepEdge, l: real, x: real, h: real)
    requires SlabOf(rings, l, h) && e in EdgesOf(rings) && e.x0 < x < e.x1 && l < x < h
    ensures Spans(e, l, h)
  {
    EdgesAtVertices(rings, l, h);
    hide EdgesOf;
  }

  lemma {:induction false} OppositeSides(m: real, n: real, u: real, v: real, y: real, el: real, fl: real, eh: real, fh: real)
    requires u < 0.0 < v && m != n && el == y + m * u && fl == y + n * u && eh == y + m * v && fh == y + n * v
    ensures (el < fl && eh > fh) || (el > fl && eh < fh)
  {
    var d := m - n;
    assert el - fl == d * u && eh - fh == d * v;
    Poly.Signs(-u, d);
    Poly.Signs(-u, -d);
    Poly.Signs(v, d);
    Poly.Signs(v, -d);
  }

  /** Edges that change places across a slab meet inside it. */
  lemma {:induction false} SwapsAskew(rings: seq<Ring>, e: SweepEdge, f: SweepEdge, x: real, x': real) returns (t: real)
    requires e in EdgesOf(rings) && f in EdgesOf(rings) && SlabOf(rings, x, x') && Swaps(e, f, x, x')
    ensures MeetAskew(rings, e, f, t)
  {
    hide YAt, Slope, EdgesOf, VertexX, SlabOf, Sweep.Mix, Aligned;
    SlabWide(rings, x, x');
    var s := Crossover(YAt(f, x) - YAt(e, x), YAt(e, x') - YAt(f, x'));
    t := x + s * (x' - x);
    Between(s, x, x');
    AtMix(e, x, x', s);
    AtMix(f, x, x', s);
    SameMix(YAt(e, x), YAt(e, x'), YAt(f, x), YAt(f, x'), s);
    SameSlope(e, f);
    AtSlope(e, x, x');
    AtSlope(f, x, x');
    NoVertexIn(rings, x, t, x');
    SameRise(Slope(e), Slope(f), x' - x, YAt(e, x), YAt(f, x), YAt(e, x'), YAt(f, x'));
  }

  lemma {:induction false} SameRise(m: real, n: real, w: real, a: real, b: real, c: real, d: real)
    requires c == a + m * w && d == b + n * w
    ensures m == n ==> c - a == d - b
  {
  }

  lemma {:induction false} SlabWide(rings: seq<Ring>, x: real, x': real)
    requires SlabOf(rings, x, x')
    ensures x < x'
  {
  }

  lemma {:induction false} NoVertexIn(rings: seq<Ring>, x: real, t: real, x': real)
    requires SlabOf(rings, x, x') && x < t < x'
    ensures !VertexX(rings, t)
  {
  }

  lemma {:induction false} Crossover(u: real, v: real) returns (s: real)
    requires u > 0.0 && v > 0.0
    ensures 0.0 < s < 1.0 && s * (u + v) == u
  {
    s := u / (u + v);
    assert s * (u + v) == u;
    Portion(s, u + v, u);
  }

  lemma {:induction false} Between(s: real, x: real, x': real)
    requires 0.0 < s < 1.0 && x < x'
    ensures x < x + s * (x' - x) < x'
  {
    var w := x' - x;
    Poly.Signs(w, s);
    Poly.Signs(w, 1.0 - s);
    assert w * (1.0 - s) == w - s * w;
  }

  lemma {:induction false} SameMix(a: real, b: real, c: real, d: real, s: real)
    requires s * ((c - a) + (b - d)) == c - a
    ensures Sweep.Mix(a, b, s) == Sweep.Mix(c, d, s)
  {
  }

  lemma {:induction false} SlabRound(rings: seq<Ring>, x: real) returns (l: real, h: real)
    requires !VertexX(rings, x)
    ensures l < x < h && SlabOf(rings, l, h)
  {
    if rings == [] {
      l, h := x - 1.0, x + 1.0;
    } else {
      var n := |rings| - 1;
      l, h := SlabRound(rings[..n], x);
      var l', h' := RingRound(rings[n], |rings[n]|, x, l, h);
      forall k | 0 <= k < |rings| ensures Empty(rings[k], l', h') { assert k < n ==> rings[..n][k] == rings[k]; }
      l, h := l', h';
    }
  }

  lemma {:induction false} RingRound(r: Ring, k: nat, x: real, l: real, h: real) returns (l': real, h': real)
    requires k <= |r| && l < x < h && forall i :: 0 <= i < k ==> r[i].x != x
    ensures l <= l' < x < h' <= h && forall i :: 0 <= i < k ==> r[i].x <= l' || r[i].x >= h'
  {
    if k == 0 { return l, h; }
    l', h' := RingRound(r, k - 1, x, l, h);
    var v := r[k - 1].x;
    if l' < v < x { l' := v; }
    if x < v < h' { h' := v; }
  }
}
