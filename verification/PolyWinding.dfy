// How often a closed chain of points winds round a point: what a segment that crosses no
// edge leaves alone, and by how much crossing one edge changes it.
module PolyWinding {
  import opened GeoTriangulate

  /** What the directed edge from `a` to `b` adds at `q`: whether it passes below `q`, and
      which way. */
  function Winds(a: Pt, b: Pt, q: Pt): int {
    if a.x <= q.x < b.x && Cross(a, b, q) > 0.0 then 1
    else if b.x <= q.x < a.x && Cross(a, b, q) < 0.0 then -1
    else 0
  }

  /** Along an open chain. */
  function PathWinds(s: seq<Pt>, q: Pt): int {
    if |s| <= 1 then 0 else PathWinds(s[..|s| - 1], q) + Winds(s[|s| - 2], s[|s| - 1], q)
  }

  /** Round a closed chain. */
  function Winding(s: seq<Pt>, q: Pt): int {
    if s == [] then 0 else PathWinds(s, q) + Winds(s[|s| - 1], s[0], q)
  }

  function TriWinds(a: Pt, b: Pt, c: Pt, q: Pt): int { Winds(a, b, q) + Winds(b, c, q) + Winds(c, a, q) }

  lemma {:induction false} BackCross(a: Pt, b: Pt, q: Pt)
    ensures Cross(b, a, q) == -Cross(a, b, q)
  {
  }

  lemma {:induction false} WindsBack(a: Pt, b: Pt, q: Pt)
    ensures Winds(b, a, q) == -Winds(a, b, q)
  {
    BackCross(a, b, q);
    hide Cross;
  }

  lemma {:induction false} PathWindsJoin(a: seq<Pt>, b: seq<Pt>, q: Pt)
    requires a != [] && b != []
    ensures PathWinds(a + b, q) == PathWinds(a, q) + Winds(a[|a| - 1], b[0], q) + PathWinds(b, q)
  {
    var ab := a + b;
    if |b| == 1 {
      assert ab[..|ab| - 1] == a;
    } else {
      assert ab[..|ab| - 1] == a + b[..|b| - 1];
      PathWindsJoin(a, b[..|b| - 1], q);
    }
  }

  /** Where the chain starts does not matter. */
  lemma {:induction false} WindingTurned(s: seq<Pt>, k: nat, q: Pt)
    requires k <= |s|
    ensures Winding(s[k..] + s[..k], q) == Winding(s, q)
  {
    if 0 < k < |s| {
      assert s == s[..k] + s[k..];
      PathWindsJoin(s[..k], s[k..], q);
      PathWindsJoin(s[k..], s[..k], q);
    } else {
      assert s[k..] + s[..k] == s;
    }
  }

  /** A chain's first vertex cut off: the corner's triangle and the rest. */
  lemma {:induction false} WindingCut(s: seq<Pt>, q: Pt)
    requires |s| >= 2
    ensures Winding(s, q) == Winding(s[1..], q) + TriWinds(s[|s| - 1], s[0], s[1], q)
  {
    assert s == [s[0]] + s[1..];
    assert PathWinds([s[0]], q) == 0;
    PathWindsJoin([s[0]], s[1..], q);
    WindsBack(s[|s| - 1], s[1], q);
  }

  /** A chain split by a diagonal from its first vertex. */
  lemma {:induction false} WindingSplit(s: seq<Pt>, k: nat, q: Pt)
    requires 0 < k < |s|
    ensures Winding(s, q) == Winding(s[..k + 1], q) + Winding([s[0]] + s[k..], q)
  {
    assert s == s[..k] + s[k..];
    assert s[..k + 1] == s[..k] + [s[k]];
    assert PathWinds([s[0]], q) == 0 && PathWinds([s[k]], q) == 0;
    PathWindsJoin(s[..k], s[k..], q);
    PathWindsJoin(s[..k], [s[k]], q);
    PathWindsJoin([s[0]], s[k..], q);
    WindsBack(s[0], s[k], q);
  }

  function Backward(s: seq<Pt>): (r: seq<Pt>)
    ensures |r| == |s| && forall k :: 0 <= k < |s| ==> r[k] == s[|s| - 1 - k]
  {
    seq(|s|, k requires 0 <= k < |s| => s[|s| - 1 - k])
  }

  lemma {:induction false} PathBackward(s: seq<Pt>, q: Pt)
    ensures PathWinds(Backward(s), q) == -PathWinds(s, q)
  {
    if |s| > 1 {
      var front, last := s[..|s| - 1], s[|s| - 1];
      PathBackward(front, q);
      assert Backward(s) == [last] + Backward(front);
      PathWindsJoin([last], Backward(front), q);
      WindsBack(s[|s| - 2], last, q);
    }
  }

  /** Walked the other way, a chain winds the other way. */
  lemma {:induction false} WindingBackward(s: seq<Pt>, q: Pt)
    ensures Winding(Backward(s), q) == -Winding(s, q)
  {
    PathBackward(s, q);
    if s != [] { WindsBack(s[|s| - 1], s[0], q); }
  }

  // ---------------------------------------------------------------- crossing no edge

  /** The segments `ab` and `qr` do not cross: one lies strictly on one side of the other's
      line, or all four points are on one line. */
  predicate Uncrossed(a: Pt, b: Pt, q: Pt, r: Pt) {
    || (Cross(a, b, q) > 0.0 && Cross(a, b, r) > 0.0)
    || (Cross(a, b, q) < 0.0 && Cross(a, b, r) < 0.0)
    || (Cross(q, r, a) > 0.0 && Cross(q, r, b) > 0.0)
    || (Cross(q, r, a) < 0.0 && Cross(q, r, b) < 0.0)
    || (Cross(a, b, q) == 0.0 && Cross(a, b, r) == 0.0 && Cross(q, r, a) == 0.0 && Cross(q, r, b) == 0.0)
  }

  /** Whether going from `q` to `r` passes over the vertex `v`. */
  function Passed(q: Pt, r: Pt, v: Pt): int { if q.x < v.x <= r.x && Cross(q, r, v) < 0.0 then 1 else 0 }

  /** Where the line of `ab` passes `q`, in terms of how `a` and `b` lie to the line of `qr`. */
  lemma {:induction false} SideAt(a: Pt, b: Pt, q: Pt, r: Pt)
    ensures (r.x - q.x) * -Cross(a, b, q) == (b.x - q.x) * Cross(q, r, a) + (q.x - a.x) * Cross(q, r, b)
    ensures (r.x - q.x) * -Cross(a, b, r) == (b.x - r.x) * Cross(q, r, a) + (r.x - a.x) * Cross(q, r, b)
  {
  }

  lemma {:induction false} Weighed(u: real, v: real, p: real, s: real)
    requires u >= 0.0 && v >= 0.0 && u + v > 0.0
    ensures p > 0.0 && s > 0.0 ==> u * p + v * s > 0.0
    ensures p < 0.0 && s < 0.0 ==> u * p + v * s < 0.0
  {
    if p > 0.0 && s > 0.0 {
      assert u * p >= 0.0 && v * s >= 0.0;
      if u > 0.0 { assert u * p > 0.0; } else { assert v * s > 0.0; }
    }
    if p < 0.0 && s < 0.0 {
      assert u * p <= 0.0 && v * s <= 0.0;
      if u > 0.0 { assert u * p < 0.0; } else { assert v * s < 0.0; }
    }
  }

  lemma {:induction false} SignOf(k: real, c: real, d: real)
    requires k * c == d
    ensures k > 0.0 && d > 0.0 ==> c > 0.0
    ensures k > 0.0 && d < 0.0 ==> c < 0.0
    ensures k == 0.0 ==> d == 0.0
  {
    if k > 0.0 && c <= 0.0 { assert k * c <= 0.0; }
    if k > 0.0 && c >= 0.0 { assert k * c >= 0.0; }
  }

  /** Edges whose ends lie on one side of the line of `qr`. */
  lemma {:induction false} EndsOneSide(a: Pt, b: Pt, q: Pt, r: Pt)
    requires q.x <= r.x && a.x < b.x
    requires (Cross(q, r, a) > 0.0 && Cross(q, r, b) > 0.0) || (Cross(q, r, a) < 0.0 && Cross(q, r, b) < 0.0)
    ensures Winds(a, b, r) - Winds(a, b, q) == Passed(q, r, a) - Passed(q, r, b)
  {
    SideAt(a, b, q, r);
    var ca, cb, cq, cr := Cross(q, r, a), Cross(q, r, b), Cross(a, b, q), Cross(a, b, r);
    if a.x <= q.x <= b.x {
      Weighed(b.x - q.x, q.x - a.x, ca, cb);
      SignOf(r.x - q.x, -cq, (b.x - q.x) * ca + (q.x - a.x) * cb);
    }
    if a.x <= r.x <= b.x {
      Weighed(b.x - r.x, r.x - a.x, ca, cb);
      SignOf(r.x - q.x, -cr, (b.x - r.x) * ca + (r.x - a.x) * cb);
    }
    hide Cross;
  }

  /** Segments whose ends lie on one side of the line of `ab`. */
  lemma {:induction false} SegmentOneSide(a: Pt, b: Pt, q: Pt, r: Pt)
    requires q.x <= r.x && a.x < b.x
    requires (Cross(a, b, q) > 0.0 && Cross(a, b, r) > 0.0) || (Cross(a, b, q) < 0.0 && Cross(a, b, r) < 0.0)
    ensures Winds(a, b, r) - Winds(a, b, q) == Passed(q, r, a) - Passed(q, r, b)
  {
    SideAt(q, r, a, b);
    var ca, cb, cq, cr := Cross(q, r, a), Cross(q, r, b), Cross(a, b, q), Cross(a, b, r);
    if q.x < a.x <= r.x {
      Weighed(r.x - a.x, a.x - q.x, cq, cr);
      SignOf(b.x - a.x, -ca, (r.x - a.x) * cq + (a.x - q.x) * cr);
    }
    if q.x < b.x <= r.x {
      Weighed(r.x - b.x, b.x - q.x, cq, cr);
      SignOf(b.x - a.x, -cb, (r.x - b.x) * cq + (b.x - q.x) * cr);
    }
    hide Cross;
  }

  lemma {:induction false} UprightEdge(a: Pt, b: Pt, q: Pt, r: Pt)
    requires q.x <= r.x && a.x == b.x && Uncrossed(a, b, q, r)
    ensures Winds(a, b, r) - Winds(a, b, q) == Passed(q, r, a) - Passed(q, r, b)
  {
    SideAt(q, r, a, b);
    var ca, cb, cq, cr := Cross(q, r, a), Cross(q, r, b), Cross(a, b, q), Cross(a, b, r);
    if q.x < a.x <= r.x {
      Weighed(r.x - a.x, a.x - q.x, cq, cr);
      SignOf(b.x - a.x, -ca, (r.x - a.x) * cq + (a.x - q.x) * cr);
    }
    hide Cross;
  }

  /** An edge the segment does not cross changes what it adds only by the vertices passed. */
  lemma {:induction false} UncrossedStep(a: Pt, b: Pt, q: Pt, r: Pt)
    requires q.x <= r.x && Uncrossed(a, b, q, r)
    ensures Winds(a, b, r) - Winds(a, b, q) == Passed(q, r, a) - Passed(q, r, b)
  {
    BackCross(a, b, q);
    BackCross(a, b, r);
    WindsBack(a, b, q);
    WindsBack(a, b, r);
    if Cross(a, b, q) == 0.0 && Cross(a, b, r) == 0.0 && Cross(q, r, a) == 0.0 && Cross(q, r, b) == 0.0 {
    } else if a.x == b.x {
      UprightEdge(a, b, q, r);
    } else if (Cross(q, r, a) > 0.0 && Cross(q, r, b) > 0.0) || (Cross(q, r, a) < 0.0 && Cross(q, r, b) < 0.0) {
      if a.x < b.x { EndsOneSide(a, b, q, r); } else { EndsOneSide(b, a, q, r); }
    } else {
      if a.x < b.x { SegmentOneSide(a, b, q, r); } else { SegmentOneSide(b, a, q, r); }
    }
    hide Winds, Passed, Cross;
  }

  function After(s: seq<Pt>, k: nat): Pt
    requires k < |s|
  {
    if k + 1 == |s| then s[0] else s[k + 1]
  }

  /** Every edge of the chain but one leaves the segment uncrossed. */
  predicate UncrossedBut(s: seq<Pt>, skip: nat, q: Pt, r: Pt) {
    forall k: nat :: k < |s| && k != skip ==> Uncrossed(s[k], After(s, k), q, r)
  }

  /** The edges up to vertex `n`, all uncrossed but one: together they change by the end
      vertices passed, and by that one edge's excess. */
  lemma {:induction false} PathCrossed(s: seq<Pt>, n: nat, skip: nat, q: Pt, r: Pt)
    requires q.x <= r.x && UncrossedBut(s, skip, q, r) && n < |s|
    ensures PathWinds(s[..n + 1], r) - PathWinds(s[..n + 1], q) == Passed(q, r, s[0]) - Passed(q, r, s[n])
      + if skip < n then Excess(s[skip], After(s, skip), q, r) else 0
  {
    hide Winds, Passed, Uncrossed, Cross;
    var t := s[..n + 1];
    if n > 0 {
      assert t[..n] == s[..n];
      PathCrossed(s, n - 1, skip, q, r);
      assert PathWinds(t, r) == PathWinds(s[..n], r) + Winds(s[n - 1], s[n], r);
      assert PathWinds(t, q) == PathWinds(s[..n], q) + Winds(s[n - 1], s[n], q);
      if n - 1 != skip { UncrossedStep(s[n - 1], After(s, n - 1), q, r); }
    }
  }

  function Excess(a: Pt, b: Pt, q: Pt, r: Pt): int {
    Winds(a, b, r) - Winds(a, b, q) - Passed(q, r, a) + Passed(q, r, b)
  }

  /** Along a segment that crosses no edge but one, the winding changes by that edge's excess. */
  lemma {:induction false} WindingCrossed(s: seq<Pt>, skip: nat, q: Pt, r: Pt)
    requires q.x <= r.x && UncrossedBut(s, skip, q, r) && skip <= |s|
    ensures Winding(s, r) - Winding(s, q) == if skip < |s| then Excess(s[skip], After(s, skip), q, r) else 0
  {
    hide Winds, Passed, Uncrossed, PathWinds, Cross;
    if s != [] {
      var n := |s| - 1;
      assert s[..n + 1] == s;
      PathCrossed(s, n, skip, q, r);
      if n != skip { UncrossedStep(s[n], After(s, n), q, r); }
    }
  }

  lemma {:induction false} UncrossedTurned(a: Pt, b: Pt, q: Pt, r: Pt)
    requires Uncrossed(a, b, q, r)
    ensures Uncrossed(a, b, r, q) && Uncrossed(b, a, q, r)
  {
    hide Cross;
    BackCross(q, r, a);
    BackCross(q, r, b);
    BackCross(a, b, q);
    BackCross(a, b, r);
  }

  /** Winding does not change along a segment that crosses no edge. */
  lemma {:induction false} WindingSteady(s: seq<Pt>, q: Pt, r: Pt)
    requires UncrossedBut(s, |s|, q, r)
    ensures Winding(s, q) == Winding(s, r)
  {
    if q.x <= r.x {
      WindingCrossed(s, |s|, q, r);
    } else {
      forall k: nat | k < |s| ensures Uncrossed(s[k], After(s, k), r, q) { UncrossedTurned(s[k], After(s, k), q, r); }
      WindingCrossed(s, |s|, r, q);
    }
  }

  // ---------------------------------------------------------------- crossing one edge

  /** The segment from `q` to `r` crosses the edge `ab` from its left to its right, inside
      both. */
  predicate Crosses(a: Pt, b: Pt, q: Pt, r: Pt) {
    Cross(a, b, q) > 0.0 && Cross(a, b, r) < 0.0 && Cross(q, r, a) < 0.0 && Cross(q, r, b) > 0.0
  }

  /** Where they cross, in both segments' terms. */
  lemma {:induction false} CrossingPoint(a: Pt, b: Pt, q: Pt, r: Pt)
    ensures Cross(q, r, b) * a.x - Cross(q, r, a) * b.x == Cross(a, b, q) * r.x - Cross(a, b, r) * q.x
    ensures Cross(q, r, b) * a.y - Cross(q, r, a) * b.y == Cross(a, b, q) * r.y - Cross(a, b, r) * q.y
    ensures Cross(q, r, b) - Cross(q, r, a) == Cross(a, b, q) - Cross(a, b, r)
  {
  }

  lemma {:induction false} BetweenWeights(u: real, v: real, s: real, t: real, lo: real, hi: real)
    requires u > 0.0 && v > 0.0 && u * s + v * t == (u + v) * lo
    ensures !(s < lo && t < lo) && !(s > lo && t > lo)
    ensures s <= lo && t <= lo ==> s == lo && t == lo
  {
    assert u * (s - lo) + v * (t - lo) == 0.0;
    if s < lo { assert u * (s - lo) < 0.0; }
    if s > lo { assert u * (s - lo) > 0.0; }
    if t < lo { assert v * (t - lo) < 0.0; }
    if t > lo { assert v * (t - lo) > 0.0; }
  }

  lemma {:induction false} CrossingSpan(a: Pt, b: Pt, q: Pt, r: Pt)
    requires Crosses(a, b, q, r) && q.x <= r.x
    ensures !(a.x <= q.x && b.x <= q.x) && !(a.x > r.x && b.x > r.x)
  {
    CrossingPoint(a, b, q, r);
    var ca, cb, cq, cr := Cross(q, r, a), Cross(q, r, b), Cross(a, b, q), Cross(a, b, r);
    var d := cb - ca;
    var m := (cb * a.x - ca * b.x) / d;
    assert d * m == cb * a.x + (-ca) * b.x == cq * r.x + (-cr) * q.x;
    BetweenWeights(cb, -ca, a.x, b.x, m, m);
    BetweenWeights(cq, -cr, r.x, q.x, m, m);
  }

  /** Crossing an edge from left to right lowers the winding by one, whichever way it runs. */
  lemma {:induction false} CrossedExcess(a: Pt, b: Pt, q: Pt, r: Pt)
    requires Crosses(a, b, q, r)
    ensures q.x <= r.x ==> Excess(a, b, q, r) == -1
    ensures r.x <= q.x ==> Excess(a, b, r, q) == 1
  {
    if q.x <= r.x {
      CrossingSpan(a, b, q, r);
      hide Cross;
    }
    if r.x <= q.x {
      CrossedBack(a, b, q, r);
    }
  }

  lemma {:induction false} CrossedBack(a: Pt, b: Pt, q: Pt, r: Pt)
    requires Crosses(a, b, q, r) && r.x <= q.x
    ensures Excess(a, b, r, q) == 1
  {
    hide Cross;
    BackCross(a, b, r);
    BackCross(a, b, q);
    BackCross(q, r, a);
    BackCross(q, r, b);
    CrossingSpan(b, a, r, q);
  }

  /** Crossing exactly one edge of a chain, from its left to its right, lowers the winding by
      one. */
  lemma {:induction false} WindingJump(s: seq<Pt>, k: nat, q: Pt, r: Pt)
    requires k < |s| && UncrossedBut(s, k, q, r) && Crosses(s[k], After(s, k), q, r)
    ensures Winding(s, q) == Winding(s, r) + 1
  {
    CrossedExcess(s[k], After(s, k), q, r);
    if q.x <= r.x {
      WindingCrossed(s, k, q, r);
    } else {
      forall j: nat | j < |s| && j != k ensures Uncrossed(s[j], After(s, j), r, q) { UncrossedTurned(s[j], After(s, j), q, r); }
      WindingCrossed(s, k, r, q);
    }
  }
}
