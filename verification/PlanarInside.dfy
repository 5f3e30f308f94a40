// Whether a point lies in a polygon, and a ring in a ring: the crossing count is the winding
// number's parity, and rings that do not meet always give a verdict.
module PlanarInside {
  import opened Common
  import opened GeoTriangulate
  import opened PolyWinding
  import opened PolySimple
  import opened PolyTwoEars
  import opened PlanarTouch

  // ---------------------------------------------------------------- a quarter turn

  /** A quarter turn: what lies to the right comes to lie below. */
  function Quarter(p: Pt): Pt { Pt(p.y, -p.x) }

  function QuarterAll(s: seq<Pt>): (r: seq<Pt>)
    ensures |r| == |s| && forall k :: 0 <= k < |s| ==> r[k] == Quarter(s[k])
  {
    seq(|s|, k requires 0 <= k < |s| => Quarter(s[k]))
  }

  lemma {:induction false} QuarterCross(a: Pt, b: Pt, p: Pt)
    ensures Cross(Quarter(a), Quarter(b), Quarter(p)) == Cross(a, b, p)
  {
  }

  lemma {:induction false} QuarterMix(a: Pt, b: Pt, t: real)
    ensures Quarter(Mix(a, b, t)) == Mix(Quarter(a), Quarter(b), t)
  {
    SameBetween(a.y, b.y, Quarter(a).x, Quarter(b).x, t);
    MinusBetween(a.x, b.x, Quarter(a).y, Quarter(b).y, t);
  }

  lemma {:induction false} SameBetween(u: real, v: real, u': real, v': real, t: real)
    requires u' == u && v' == v
    ensures u' + t * (v' - u') == u + t * (v - u)
  {
  }

  lemma {:induction false} MinusBetween(u: real, v: real, u': real, v': real, t: real)
    requires u' == -u && v' == -v
    ensures u' + t * (v' - u') == -(u + t * (v - u))
  {
  }

  lemma {:induction false} QuarterOn(a: Pt, b: Pt, w: Pt)
    ensures On(Quarter(a), Quarter(b), Quarter(w)) <==> On(a, b, w)
  {
    if On(a, b, w) {
      var t :| 0.0 <= t <= 1.0 && w == Mix(a, b, t);
      QuarterMix(a, b, t);
      OnMix(Quarter(a), Quarter(b), t);
    }
    if On(Quarter(a), Quarter(b), Quarter(w)) {
      var t :| 0.0 <= t <= 1.0 && Quarter(w) == Mix(Quarter(a), Quarter(b), t);
      QuarterMix(a, b, t);
      hide Mix;
      assert w == Mix(a, b, t);
      OnMix(a, b, t);
    }
  }

  lemma {:induction false} QuarterBack(p: Pt)
    ensures Quarter(Quarter(Quarter(Quarter(p)))) == p && Quarter(Pt(-p.y, p.x)) == p
  {
  }

  /** A quarter turn takes edges to edges. */
  lemma {:induction false} QuarterEdge(s: seq<Pt>, c: Pt, d: Pt) returns (a: Pt, b: Pt)
    requires IsEdge(QuarterAll(s), c, d)
    ensures IsEdge(s, a, b) && c == Quarter(a) && d == Quarter(b)
  {
    var k: nat :| k < |s| && QuarterAll(s)[k] == c && After(QuarterAll(s), k) == d;
    a, b := s[k], After(s, k);
  }

  /** ... and simple polygons to simple polygons. */
  lemma {:induction false} QuarterSimple(s: seq<Pt>)
    requires Simple(s)
    ensures Simple(QuarterAll(s))
  {
    var r := QuarterAll(s);
    forall i, j | 0 <= i < j < |r| ensures r[i] != r[j] { assert s[i] != s[j]; }
    forall a, b, c, d, w | IsEdge(r, a, b) && IsEdge(r, c, d) && a != c && On(a, b, w) && On(c, d, w) ensures w == a || w == b {
      var a', b' := QuarterEdge(s, a, b);
      var c', d' := QuarterEdge(s, c, d);
      var w' := Pt(-w.y, w.x);
      QuarterBack(w);
      QuarterOn(a', b', w');
      QuarterOn(c', d', w');
      hide On;
      SimpleMeet(s, a', b', c', d', w');
    }
  }

  /** Along a segment that misses the polygon the winding is the same, turned too. */
  lemma {:induction false} QuarterSteady(s: seq<Pt>, q: Pt, r: Pt)
    requires Misses(s, q, r)
    ensures Winding(QuarterAll(s), Quarter(q)) == Winding(QuarterAll(s), Quarter(r))
  {
    forall c, d, w | IsEdge(QuarterAll(s), c, d) && On(c, d, w) ensures !On(Quarter(q), Quarter(r), w) {
      var a, b := QuarterEdge(s, c, d);
      var w' := Pt(-w.y, w.x);
      QuarterBack(w);
      QuarterOn(a, b, w');
      QuarterOn(q, r, w');
    }
    MissesSteady(QuarterAll(s), Quarter(q), Quarter(r));
  }

  // ---------------------------------------------------------------- a point in a polygon

  /** Whether the ray from `p` to the right strikes the edge from `b` to `a`. */
  predicate Strikes(a: Pt, b: Pt, p: Pt) {
    (a.y > p.y) != (b.y > p.y) && p.x < a.x + (p.y - a.y) / (b.y - a.y) * (b.x - a.x)
  }

  lemma {:induction false} StrikesIsWinds(a: Pt, b: Pt, p: Pt)
    ensures Strikes(a, b, p) <==> Winds(Quarter(b), Quarter(a), Quarter(p)) != 0
  {
    QuarterCross(b, a, p);
    if (a.y > p.y) != (b.y > p.y) {
      var u, v, f := b.y - a.y, b.x - a.x, p.y - a.y;
      var m := f / u;
      assert m * u == f;
      var g := m * v - (p.x - a.x);
      assert Strikes(a, b, p) <==> g > 0.0;
      assert Cross(b, a, p) == -(u * g) by { CrossGap(a, b, p, m); }
      Signs(u, g);
      Signs(-u, g);
      Signs(u, -g);
      Signs(-u, -g);
    }
  }

  lemma {:induction false} CrossGap(a: Pt, b: Pt, p: Pt, m: real)
    requires m * (b.y - a.y) == p.y - a.y
    ensures Cross(b, a, p) == -((b.y - a.y) * (m * (b.x - a.x) - (p.x - a.x)))
  {
    var u, v, x, y := b.y - a.y, b.x - a.x, p.x - a.x, p.y - a.y;
    assert Cross(b, a, p) == u * x - v * y;
    GapParts(u, v, x, y, m);
  }

  lemma {:induction false} GapParts(u: real, v: real, x: real, y: real, m: real)
    requires m * u == y
    ensures u * x - v * y == -(u * (m * v - x))
  {
    assert u * (m * v) == (m * u) * v;
  }

  /** The ray's crossing count is odd. */
  predicate InPolygon(p: Pt, poly: seq<Pt>) { Winding(QuarterAll(poly), Quarter(p)) % 2 == 1 }

  method PointInPolygon(p: Pt, poly: seq<Pt>) returns (inside: bool)
    ensures inside <==> InPolygon(p, poly)
  {
    hide Winds, Strikes;
    inside := false;
    var n := |poly|;
    ghost var turned, q := QuarterAll(poly), Quarter(p);
    var i, j := 0, n - 1;
    while i < n
      invariant 0 <= i <= n && (i < n ==> j == if i == 0 then n - 1 else i - 1)
      invariant inside <==> (PathWinds(turned[..i], q) + if i > 0 then Winds(turned[n - 1], turned[0], q) else 0) % 2 == 1
    {
      StrikesIsWinds(poly[i], poly[j], p);
      OneWay(turned[j], turned[i], q);
      assert i > 0 ==> turned[..i + 1][..i] == turned[..i];
      if Strikes(poly[i], poly[j], p) {
        inside := !inside;
      }
      j, i := i, i + 1;
    }
    assert turned[..n] == turned;
  }

  lemma {:induction false} OneWay(a: Pt, b: Pt, q: Pt)
    ensures -1 <= Winds(a, b, q) <= 1
  {
  }

  /** Off a simple polygon, the count is odd exactly when the polygon winds round the point:
      once, never more. */
  lemma {:induction false} SimpleInside(p: Pt, poly: seq<Pt>)
    requires Simple(poly) && Off(poly, p)
    ensures var w := Winding(QuarterAll(poly), Quarter(p)); -1 <= w <= 1 && (InPolygon(p, poly) <==> w != 0)
  {
    var r, q := QuarterAll(poly), Quarter(p);
    QuarterSimple(poly);
    forall c, d | IsEdge(r, c, d) ensures !On(c, d, q) {
      var a, b := QuarterEdge(poly, c, d);
      QuarterOn(a, b, p);
    }
    OneWayRound(r);
    BackwardSimple(r);
    WindingBackward(r, q);
    hide EarBeside, Winding;
  }

  // ---------------------------------------------------------------- a ring in a ring

  /** The points a ring is tested by: its vertices and its edges' midpoints. */
  function Candidates(a: seq<Pt>): seq<Pt> {
    a + seq(|a|, i requires 0 <= i < |a| => Mix(a[i], After(a, i), 0.5))
  }

  /** ... its vertices, and the points halfway along its edges. */
  lemma {:induction false} CandidatesExact(a: seq<Pt>, c: Pt)
    ensures c in Candidates(a) <==> c in a || exists k: nat :: k < |a| && IsMiddle(a, k, c)
  {
    var n, cs := |a|, Candidates(a);
    forall k: nat | k < n ensures cs[k] == a[k] && (IsMiddle(a, k, c) <==> cs[n + k] == c) { CandidateAt(a, k, c); }
    assert |cs| == 2 * n;
    hide Candidates, IsMiddle;
    if c in cs {
      var m: nat :| m < |cs| && cs[m] == c;
      if m < n {
        assert c == a[m];
      } else {
        var k := m - n;
        assert cs[n + k] == c && IsMiddle(a, k, c);
      }
    }
    if k: nat :| k < n && IsMiddle(a, k, c) { assert cs[n + k] == c; }
    if k: nat :| k < n && a[k] == c { assert cs[k] == c; }
  }

  /** The point is halfway along the edge leaving the ring's point `k`. */
  predicate IsMiddle(a: seq<Pt>, k: nat, c: Pt)
    requires k < |a|
  {
    Halfway(a[k], if k + 1 < |a| then a[k + 1] else a[0], c)
  }

  lemma {:induction false} CandidateAt(a: seq<Pt>, k: nat, c: Pt)
    requires k < |a|
    ensures Candidates(a)[k] == a[k] && (IsMiddle(a, k, c) <==> Candidates(a)[|a| + k] == c)
  {
    HalfMix(a[k], After(a, k), c);
    hide Mix, Halfway;
  }

  predicate Halfway(a: Pt, b: Pt, c: Pt) { c.x - a.x == b.x - c.x && c.y - a.y == b.y - c.y }

  lemma {:induction false} HalfMix(a: Pt, b: Pt, c: Pt)
    ensures Halfway(a, b, c) <==> Mix(a, b, 0.5) == c
  {
  }

  /** Every candidate clear of the ring gives the same verdict, and there is one. */
  ghost predicate Agreed(cs: seq<Pt>, b: seq<Pt>, inside: bool) {
    && (exists c <- cs :: !Near(c, b))
    && forall c <- cs :: !Near(c, b) ==> InPolygon(c, b) == inside
  }

  /** The verdict, or none: no candidate is clear, or they disagree. */
  ghost function Verdict(cs: seq<Pt>, b: seq<Pt>): (r: Option<bool>)
    ensures r.Some? ==> Agreed(cs, b, r.value)
    ensures r.None? ==> !Agreed(cs, b, true) && !Agreed(cs, b, false)
  {
    if Agreed(cs, b, true) then Some(true) else if Agreed(cs, b, false) then Some(false) else None
  }

  method RingInsideRing(a: seq<Pt>, b: seq<Pt>) returns (r: Option<bool>)
    ensures r == Verdict(Candidates(a), b)
  {
    hide InPolygon, Mix, Near;
    var cs := a;
    for i := 0 to |a|
      invariant cs == a + seq(i, k requires 0 <= k < i => Mix(a[k], After(a, k), 0.5))
    {
      cs := cs + [Mix(a[i], After(a, i), 0.5)];
    }
    r := None;
    for k := 0 to |cs|
      invariant r.None? ==> forall c <- cs[..k] :: Near(c, b)
      invariant r.Some? ==> Agreed(cs[..k], b, r.value)
    {
      assert cs[..k + 1] == cs[..k] + [cs[k]];
      var touches := TouchesRing(cs[k], b);
      if touches {
        StillAgreed(cs[..k], b, cs[k], r);
        continue;
      }
      var inside := PointInPolygon(cs[k], b);
      if r.Some? && r.value != inside {
        Disagreed(cs, b, k, r.value);
        return None;
      }
      NowAgreed(cs[..k], b, cs[k], r, inside);
      r := Some(inside);
    }
    assert cs[..|cs|] == cs;
    if r.Some? { OneVerdict(cs, b, r.value); }
  }

  lemma {:induction false} StillAgreed(cs: seq<Pt>, b: seq<Pt>, c: Pt, r: Option<bool>)
    requires Near(c, b) && (r.Some? ==> Agreed(cs, b, r.value))
    ensures r.Some? ==> Agreed(cs + [c], b, r.value)
  {
    hide InPolygon, Near;
    assert forall x :: x in cs + [c] <==> x in cs || x == c;
  }

  lemma {:induction false} NowAgreed(cs: seq<Pt>, b: seq<Pt>, c: Pt, r: Option<bool>, inside: bool)
    requires !Near(c, b) && InPolygon(c, b) == inside
    requires r.None? ==> forall x <- cs :: Near(x, b)
    requires r.Some? ==> r.value == inside && Agreed(cs, b, inside)
    ensures Agreed(cs + [c], b, inside)
  {
    hide InPolygon, Near;
    assert forall x :: x in cs + [c] <==> x in cs || x == c;
  }

  lemma {:induction false} Disagreed(cs: seq<Pt>, b: seq<Pt>, k: nat, v: bool)
    requires k < |cs| && Agreed(cs[..k], b, v) && !Near(cs[k], b) && InPolygon(cs[k], b) != v
    ensures Verdict(cs, b) == None
  {
    hide InPolygon, Near;
    var c :| c in cs[..k] && !Near(c, b);
    assert c in cs && cs[k] in cs;
  }

  lemma {:induction false} OneVerdict(cs: seq<Pt>, b: seq<Pt>, v: bool)
    requires Agreed(cs, b, v)
    ensures Verdict(cs, b) == Some(v)
  {
    hide InPolygon, Near;
    var c :| c in cs && !Near(c, b);
  }

  /** What of `a`'s edges is off `b` is all inside it, or all outside. */
  ghost predicate OneSide(a: seq<Pt>, b: seq<Pt>, inside: bool) {
    forall w :: !Off(a, w) && Off(b, w) ==> InPolygon(w, b) == inside
  }

  lemma {:induction false} CandidateOn(a: seq<Pt>, c: Pt)
    requires c in Candidates(a)
    ensures !Off(a, c)
  {
    var cs := Candidates(a);
    var k: nat :| k < |cs| && cs[k] == c;
    var i := if k < |a| then k else k - |a|;
    EdgeAt(a, i);
    OnEnds(a[i], After(a, i));
    OnMix(a[i], After(a, i), 0.5);
    hide On, Mix;
  }

  /** A ring that does not pass through another: the test is decided as soon as one of its points
      is clear, and says on which side it lies. */
  lemma {:induction false} OneSideDecided(a: seq<Pt>, b: seq<Pt>, inside: bool)
    requires OneSide(a, b, inside) && exists c <- Candidates(a) :: !Near(c, b)
    ensures Verdict(Candidates(a), b) == Some(inside)
  {
    hide Off, InPolygon, Near, Candidates;
    var cs := Candidates(a);
    forall c | c in cs && !Near(c, b) ensures InPolygon(c, b) == inside {
      CandidateOn(a, c);
      ClearOff(c, b);
    }
    OneVerdict(cs, b, inside);
  }

  /** A ring always touches itself. */
  lemma {:induction false} NoneInItself(a: seq<Pt>)
    ensures Verdict(Candidates(a), a) == None
  {
    hide Off, InPolygon, Near, Candidates;
    forall c | c in Candidates(a) ensures Near(c, a) {
      CandidateOn(a, c);
      if !Near(c, a) { ClearOff(c, a); }
    }
  }

  // ---------------------------------------------------------------- rings that do not meet

  /** No edge of one ring meets the other. */
  ghost predicate Asunder(a: seq<Pt>, b: seq<Pt>) {
    forall i: nat :: i < |a| ==> Misses(b, a[i], After(a, i))
  }

  lemma {:induction false} VerticesAgree(a: seq<Pt>, b: seq<Pt>, i: nat)
    requires Asunder(a, b) && i < |a|
    ensures InPolygon(a[i], b) == InPolygon(a[0], b)
  {
    if i > 0 {
      VerticesAgree(a, b, i - 1);
      assert Misses(b, a[i - 1], After(a, i - 1));
      QuarterSteady(b, a[i - 1], a[i]);
    }
    hide Winding, Misses;
  }

  lemma {:induction false} EdgesAgree(a: seq<Pt>, b: seq<Pt>, i: nat, m: Pt)
    requires Asunder(a, b) && i < |a| && On(a[i], After(a, i), m)
    ensures InPolygon(m, b) == InPolygon(a[0], b)
  {
    var u, v := a[i], After(a, i);
    VerticesAgree(a, b, i);
    assert Misses(b, u, v);
    OnEnds(u, v);
    hide On, Mix, Winding;
    forall c, d, w | IsEdge(b, c, d) && On(c, d, w) ensures !On(u, m, w) {
      if On(u, m, w) { OnPart(u, v, u, m, w); }
    }
    QuarterSteady(b, u, m);
  }

  /** A ring that does not meet another is inside it or outside it as a whole: the test is
      decided as soon as one of its points is clear, and says what holds of every vertex. */
  lemma {:induction false} AsunderDecided(a: seq<Pt>, b: seq<Pt>)
    requires Asunder(a, b) && exists c <- Candidates(a) :: !Near(c, b)
    ensures OneSide(a, b, InPolygon(a[0], b)) && Verdict(Candidates(a), b) == Some(InPolygon(a[0], b))
    ensures forall v <- a :: InPolygon(v, b) == InPolygon(a[0], b)
  {
    hide InPolygon, On, Asunder, Near;
    forall w | !Off(a, w) && Off(b, w) ensures InPolygon(w, b) == InPolygon(a[0], b) {
      var c, d :| IsEdge(a, c, d) && On(c, d, w);
      var k: nat :| k < |a| && a[k] == c && After(a, k) == d;
      EdgesAgree(a, b, k, w);
    }
    forall v | v in a ensures InPolygon(v, b) == InPolygon(a[0], b) {
      var k: nat :| k < |a| && a[k] == v;
      VerticesAgree(a, b, k);
    }
    OneSideDecided(a, b, InPolygon(a[0], b));
  }
}
