// Simple polygons: edges that meet only at shared ends. Segments that miss a polygon, the
// two sides of an edge, and the corner triangles no edge enters.
module PolySimple {
  import opened GeoTriangulate
  import opened PolyWinding

  function Mix(a: Pt, b: Pt, t: real): Pt { Pt(a.x + t * (b.x - a.x), a.y + t * (b.y - a.y)) }

  /** The closed segment's points. */
  ghost predicate On(a: Pt, b: Pt, w: Pt) { exists t: real :: 0.0 <= t <= 1.0 && w == Mix(a, b, t) }

  ghost predicate IsEdge(s: seq<Pt>, a: Pt, b: Pt) { exists k: nat :: k < |s| && s[k] == a && After(s, k) == b }

  /** At least three vertices, all different, and edges that meet only at shared ends. */
  ghost predicate Simple(s: seq<Pt>) {
    && |s| >= 3 && (forall i, j :: 0 <= i < j < |s| ==> s[i] != s[j])
    && forall a, b, c, d, w :: IsEdge(s, a, b) && IsEdge(s, c, d) && a != c && On(a, b, w) && On(c, d, w) ==> w == a || w == b
  }

  ghost predicate Off(s: seq<Pt>, v: Pt) {
    forall a, b :: IsEdge(s, a, b) ==> !On(a, b, v)
  }

  /** Off its edges, the polygon winds round a point once counter-clockwise or not at all. */
  ghost predicate OnceRound(s: seq<Pt>) {
    forall v :: Off(s, v) ==> Winding(s, v) == 0 || Winding(s, v) == 1
  }

  lemma {:induction false} EdgeAt(s: seq<Pt>, k: nat)
    requires k < |s|
    ensures IsEdge(s, s[k], After(s, k))
  {
  }

  lemma {:induction false} SimpleMeet(s: seq<Pt>, a: Pt, b: Pt, c: Pt, d: Pt, w: Pt)
    requires Simple(s) && IsEdge(s, a, b) && IsEdge(s, c, d) && a != c && On(a, b, w) && On(c, d, w)
    ensures (w == a || w == b) && (w == c || w == d)
  {
  }

  /** A vertex has one edge out and one edge in, and both are members of the polygon. */
  lemma {:induction false} EdgeEnds(s: seq<Pt>, a: Pt, b: Pt)
    requires Simple(s) && IsEdge(s, a, b)
    ensures a in s && b in s && a != b
    ensures forall c :: IsEdge(s, a, c) ==> c == b
    ensures forall c :: IsEdge(s, c, b) ==> c == a
  {
    var k: nat :| k < |s| && s[k] == a && After(s, k) == b;
    forall c | IsEdge(s, a, c) ensures c == b { var j: nat :| j < |s| && s[j] == a && After(s, j) == c; }
    forall c | IsEdge(s, c, b) ensures c == a { var j: nat :| j < |s| && s[j] == c && After(s, j) == b; }
  }

  lemma {:induction false} EdgesOf(s: seq<Pt>, v: Pt) returns (u: Pt, w: Pt)
    requires v in s
    ensures IsEdge(s, u, v) && IsEdge(s, v, w)
  {
    var k: nat :| k < |s| && s[k] == v;
    u, w := if k == 0 then s[|s| - 1] else s[k - 1], After(s, k);
    var j := if k == 0 then |s| - 1 else k - 1;
    assert After(s, j) == v;
  }

  // ---------------------------------------------------------------- segments

  lemma {:induction false} Signs(u: real, v: real)
    ensures u >= 0.0 && v >= 0.0 ==> u * v >= 0.0
    ensures u >= 0.0 && v <= 0.0 ==> u * v <= 0.0
    ensures u > 0.0 && v > 0.0 ==> u * v > 0.0
    ensures u > 0.0 && v < 0.0 ==> u * v < 0.0
    ensures u * v == 0.0 ==> u == 0.0 || v == 0.0
  {
  }

  /** A quotient is a portion when its numerator is. */
  lemma {:induction false} Quotient(u: real, n: real) returns (t: real)
    requires n > 0.0 && 0.0 <= u <= n
    ensures 0.0 <= t <= 1.0 && t * n == u && t == u / n
    ensures 0.0 < u ==> 0.0 < t
    ensures u < n ==> t < 1.0
  {
    t := u / n;
    assert t * n == u;
    Signs(n, t);
    Signs(n, 1.0 - t);
  }

  lemma {:induction false} CrossMix(a: Pt, b: Pt, c: Pt, d: Pt, t: real)
    ensures Cross(a, b, Mix(c, d, t)) == (1.0 - t) * Cross(a, b, c) + t * Cross(a, b, d)
  {
  }

  lemma {:induction false} OnEnds(a: Pt, b: Pt)
    ensures On(a, b, a) && On(a, b, b)
  {
    assert a == Mix(a, b, 0.0) && b == Mix(a, b, 1.0);
  }

  lemma {:induction false} OnMix(a: Pt, b: Pt, t: real)
    requires 0.0 <= t <= 1.0
    ensures On(a, b, Mix(a, b, t))
  {
  }

  function Moved(f: real, g: real, s: real): real { (1.0 - s) * f + s * g }

  /** A segment's part is on the segment. */
  lemma {:induction false} OnPart(a: Pt, b: Pt, u: Pt, v: Pt, w: Pt)
    requires On(a, b, u) && On(a, b, v) && On(u, v, w)
    ensures On(a, b, w)
  {
    var p :| 0.0 <= p <= 1.0 && u == Mix(a, b, p);
    var q :| 0.0 <= q <= 1.0 && v == Mix(a, b, q);
    var t :| 0.0 <= t <= 1.0 && w == Mix(u, v, t);
    MixOfMixes(a, b, p, q, t);
    Shared(t, p, q);
    Shared(t, 1.0 - p, 1.0 - q);
    MovedRest(p, q, t);
    OnMix(a, b, Moved(p, q, t));
  }

  lemma {:induction false} MovedRest(p: real, q: real, t: real)
    ensures 1.0 - Moved(p, q, t) == (1.0 - t) * (1.0 - p) + t * (1.0 - q)
  {
  }

  lemma {:induction false} MixOfMixes(a: Pt, b: Pt, p: real, q: real, t: real)
    ensures Mix(Mix(a, b, p), Mix(a, b, q), t) == Mix(a, b, Moved(p, q, t))
  {
    var u, v, m := Mix(a, b, p), Mix(a, b, q), Moved(p, q, t);
    PartOfParts(a.x, b.x, u.x, v.x, p, q, t, m);
    PartOfParts(a.y, b.y, u.y, v.y, p, q, t, m);
  }

  lemma {:induction false} PartOfParts(a: real, b: real, u: real, v: real, p: real, q: real, t: real, m: real)
    requires u == a + p * (b - a) && v == a + q * (b - a) && m == (1.0 - t) * p + t * q
    ensures u + t * (v - u) == a + m * (b - a)
  {
  }

  /** A side of a line that holds both ends of a segment holds all of it. */
  lemma {:induction false} SideOfMix(a: Pt, b: Pt, u: Pt, v: Pt, w: Pt)
    requires On(u, v, w)
    ensures Cross(a, b, u) >= 0.0 && Cross(a, b, v) >= 0.0 ==> Cross(a, b, w) >= 0.0
    ensures Cross(a, b, u) <= 0.0 && Cross(a, b, v) <= 0.0 ==> Cross(a, b, w) <= 0.0
    ensures Cross(a, b, u) > 0.0 && Cross(a, b, v) > 0.0 ==> Cross(a, b, w) > 0.0
    ensures Cross(a, b, u) < 0.0 && Cross(a, b, v) < 0.0 ==> Cross(a, b, w) < 0.0
    ensures Cross(a, b, u) > 0.0 && Cross(a, b, v) >= 0.0 && w != v ==> Cross(a, b, w) > 0.0
  {
    var t :| 0.0 <= t <= 1.0 && w == Mix(u, v, t);
    CrossMix(a, b, u, v, t);
    assert t == 1.0 ==> w == v;
    hide Cross, Mix;
    Shared(t, Cross(a, b, u), Cross(a, b, v));
  }

  lemma {:induction false} Shared(t: real, p: real, q: real)
    requires 0.0 <= t <= 1.0
    ensures p >= 0.0 && q >= 0.0 ==> (1.0 - t) * p + t * q >= 0.0
    ensures p <= 0.0 && q <= 0.0 ==> (1.0 - t) * p + t * q <= 0.0
    ensures p > 0.0 && q > 0.0 ==> (1.0 - t) * p + t * q > 0.0
    ensures p < 0.0 && q < 0.0 ==> (1.0 - t) * p + t * q < 0.0
    ensures p > 0.0 && q >= 0.0 && t < 1.0 ==> (1.0 - t) * p + t * q > 0.0
    ensures p >= 0.0 && q > 0.0 && t > 0.0 ==> (1.0 - t) * p + t * q > 0.0
  {
    Signs(1.0 - t, p);
    Signs(t, q);
  }

  lemma {:induction false} OnLine(a: Pt, b: Pt, w: Pt)
    requires On(a, b, w)
    ensures Cross(a, b, w) == 0.0
  {
    var t :| 0.0 <= t <= 1.0 && w == Mix(a, b, t);
  }

  /** Segments that cross have a point in common. */
  lemma {:induction false} Meet(a: Pt, b: Pt, q: Pt, r: Pt) returns (w: Pt)
    requires !Uncrossed(a, b, q, r)
    ensures On(a, b, w) && On(q, r, w)
  {
    var ca, cb, cq, cr := Cross(q, r, a), Cross(q, r, b), Cross(a, b, q), Cross(a, b, r);
    CrossingPoint(a, b, q, r);
    MeetingMix(a, b, q, r);
    hide Cross;
    var d := ca - cb;
    var l := Portion(ca, cb);
    var m := Portion(cq, cr);
    assert m * (cq - cr) == cq && l * d == ca;
    w := Mix(a, b, l);
    SameMix(d, a.x, b.x, q.x, r.x, ca, cq, l, m);
    SameMix(d, a.y, b.y, q.y, r.y, ca, cq, l, m);
    assert w == Mix(q, r, m);
    OnMix(a, b, l);
    OnMix(q, r, m);
  }

  lemma {:induction false} MeetingMix(a: Pt, b: Pt, q: Pt, r: Pt)
    ensures var ca, cb, cq := Cross(q, r, a), Cross(q, r, b), Cross(a, b, q);
      && (ca - cb) * (a.x - q.x) + ca * (b.x - a.x) + cq * (r.x - q.x) == 0.0
      && (ca - cb) * (a.y - q.y) + ca * (b.y - a.y) + cq * (r.y - q.y) == 0.0
  {
  }

  lemma {:induction false} Portion(u: real, v: real) returns (t: real)
    requires u != v && !(u > 0.0 && v > 0.0) && !(u < 0.0 && v < 0.0)
    ensures 0.0 <= t <= 1.0 && t * (u - v) == u
  {
    if u > v {
      t := Quotient(u, u - v);
    } else {
      t := Quotient(-u, v - u);
      assert t * (u - v) == -(t * (v - u));
    }
  }

  lemma {:induction false} SameMix(d: real, a: real, b: real, q: real, r: real, ca: real, cq: real, l: real, m: real)
    requires d != 0.0 && d * (a - q) + ca * (b - a) + cq * (r - q) == 0.0
    requires l * d == ca && m * -d == cq
    ensures a + l * (b - a) == q + m * (r - q)
  {
    assert d * (a - q) + (d * l) * (b - a) - (d * m) * (r - q) == 0.0;
    Spread(d, a - q, l, b - a, m, r - q);
    Signs(d, (a - q) + l * (b - a) - m * (r - q));
  }

  lemma {:induction false} Spread(d: real, u: real, l: real, v: real, m: real, w: real)
    ensures d * (u + l * v - m * w) == d * u + (d * l) * v - (d * m) * w
  {
  }

  /** No point of the segment is on an edge. */
  ghost predicate Misses(s: seq<Pt>, q: Pt, r: Pt) {
    forall c, d, w :: IsEdge(s, c, d) && On(c, d, w) ==> !On(q, r, w)
  }

  /** Along a segment that misses the polygon, the winding is the same. */
  lemma {:induction false} MissesSteady(s: seq<Pt>, q: Pt, r: Pt)
    requires Misses(s, q, r)
    ensures Winding(s, q) == Winding(s, r)
  {
    forall k: nat | k < |s| ensures Uncrossed(s[k], After(s, k), q, r) {
      if !Uncrossed(s[k], After(s, k), q, r) {
        var w := Meet(s[k], After(s, k), q, r);
        EdgeAt(s, k);
        assert false;
      }
    }
    WindingSteady(s, q, r);
  }

  // ---------------------------------------------------------------- both sides of an edge

  /** How far along a segment's direction a point projects. */
  function Along(c: Pt, d: Pt, w: Pt): real { (w.x - c.x) * (d.x - c.x) + (w.y - c.y) * (d.y - c.y) }

  lemma {:induction false} AlongMix(c: Pt, d: Pt, u: Pt, v: Pt, t: real)
    ensures Along(c, d, Mix(u, v, t)) == (1.0 - t) * Along(c, d, u) + t * Along(c, d, v)
  {
  }

  lemma {:induction false} AlongOn(c: Pt, d: Pt, w: Pt)
    requires On(c, d, w)
    ensures 0.0 <= Along(c, d, w) <= Along(c, d, d)
  {
    var t :| 0.0 <= t <= 1.0 && w == Mix(c, d, t);
    AlongEnds(c, d);
    AlongPortion(c, d, t);
    PortionBound(t, Along(c, d, d));
  }

  lemma {:induction false} PortionBound(t: real, n: real)
    requires 0.0 <= t <= 1.0 && n >= 0.0
    ensures 0.0 <= t * n <= n
  {
    Signs(1.0 - t, n);
    assert (1.0 - t) * n == n - t * n;
  }

  lemma {:induction false} AlongPortion(c: Pt, d: Pt, t: real)
    ensures Along(c, d, Mix(c, d, t)) == t * Along(c, d, d)
  {
  }

  lemma {:induction false} AlongEnds(c: Pt, d: Pt)
    ensures Along(c, d, c) == 0.0 && Along(c, d, d) >= 0.0 && (c != d ==> Along(c, d, d) > 0.0)
  {
    var u, v := d.x - c.x, d.y - c.y;
    var n := u * u + v * v;
    Squares(u, v);
    assert Along(c, d, d) == n;
    if n == 0.0 {
      assert c.x == d.x && c.y == d.y;
      assert c == d;
    }
  }

  lemma {:induction false} Squares(u: real, v: real)
    ensures u * u + v * v >= 0.0
    ensures u * u + v * v == 0.0 ==> u == 0.0 && v == 0.0
  {
    Signs(AbsReal(u), AbsReal(u));
    Signs(AbsReal(v), AbsReal(v));
    assert AbsReal(u) * AbsReal(u) == u * u && AbsReal(v) * AbsReal(v) == v * v;
  }

  lemma {:induction false} OnIfAlong(c: Pt, d: Pt, w: Pt)
    requires c != d && Cross(c, d, w) == 0.0 && 0.0 <= Along(c, d, w) <= Along(c, d, d)
    ensures On(c, d, w)
  {
    var n, m := Along(c, d, d), Along(c, d, w);
    AlongEnds(c, d);
    AlongParts(c, d, w);
    hide Cross, Along;
    var t := Quotient(m, n);
    Divided(n, w.x - c.x, m, d.x - c.x, t);
    Divided(n, w.y - c.y, m, d.y - c.y, t);
    assert w == Mix(c, d, t);
    OnMix(c, d, t);
  }

  lemma {:induction false} Divided(n: real, u: real, m: real, v: real, t: real)
    requires n != 0.0 && n * u == m * v && t * n == m
    ensures u == t * v
  {
    assert n * (u - t * v) == n * u - (t * n) * v;
    Signs(n, u - t * v);
  }

  lemma {:induction false} AlongParts(c: Pt, d: Pt, w: Pt)
    ensures Along(c, d, d) * (w.x - c.x) == Along(c, d, w) * (d.x - c.x) - Cross(c, d, w) * (d.y - c.y)
    ensures Along(c, d, d) * (w.y - c.y) == Along(c, d, w) * (d.y - c.y) + Cross(c, d, w) * (d.x - c.x)
  {
  }

  /** How far a value can move before it changes sign. */
  lemma {:induction false} Room(f: real, g: real) returns (t: real)
    requires f > 0.0
    ensures 0.0 < t < 1.0 && Roomy(f, g, t)
  {
    var k := AbsReal(g - f);
    var n := f + k + f;
    t := Quotient(f, n);
    forall s: real | -t <= s <= t ensures Moved(f, g, s) > 0.0 {
      var u := AbsReal(s);
      ProductBound(s, g - f);
      Signs(t - u, k);
      Signs(t, f);
      Parts(t, u, f, k);
      MovedBy(f, g, s);
    }
  }

  lemma {:induction false} Parts(t: real, u: real, f: real, k: real)
    ensures t * (f + k + f) == t * f + t * k + t * f && (t - u) * k == t * k - u * k
  {
  }

  lemma {:induction false} MovedBy(f: real, g: real, s: real)
    ensures Moved(f, g, s) == f + s * (g - f)
  {
  }

  lemma {:induction false} ProductBound(s: real, v: real)
    ensures s * v >= -(AbsReal(s) * AbsReal(v))
  {
    Signs(AbsReal(s), AbsReal(v));
    assert s >= 0.0 && v < 0.0 ==> s * v == -(s * -v);
    assert s < 0.0 && v >= 0.0 ==> s * v == -((-s) * v);
  }

  ghost predicate Roomy(f: real, g: real, t: real) {
    forall s: real :: -t <= s <= t ==> Moved(f, g, s) > 0.0
  }

  ghost predicate RoomAbout(c: Pt, d: Pt, h: Pt, g: Pt, t: real) {
    forall s: real :: -t <= s <= t ==> !On(c, d, Mix(h, g, s))
  }

  /** About a point off an edge there is room. */
  lemma {:induction false} RoomAt(c: Pt, d: Pt, h: Pt, g: Pt) returns (t: real)
    requires c != d && !On(c, d, h)
    ensures 0.0 < t < 1.0 && RoomAbout(c, d, h, g, t)
  {
    hide On, Cross, Along, Moved, Mix;
    var f, f', l, l', n := Cross(c, d, h), Cross(c, d, g), Along(c, d, h), Along(c, d, g), Along(c, d, d);
    if f == 0.0 && 0.0 <= l <= n { OnIfAlong(c, d, h); }
    var u, v := if f > 0.0 then f else if f < 0.0 then -f else if l < 0.0 then -l else l - n,
                if f > 0.0 then f' else if f < 0.0 then -f' else if l < 0.0 then -l' else l' - n;
    t := Room(u, v);
    forall s: real | -t <= s <= t ensures !On(c, d, Mix(h, g, s)) {
      assert Moved(u, v, s) > 0.0;
      MovedParts(f, f', s, n);
      MovedParts(l, l', s, n);
      if On(c, d, Mix(h, g, s)) { MovedOn(c, d, h, g, s); }
    }
  }

  /** Where a point stands to an edge it has come to lie on. */
  lemma {:induction false} MovedOn(c: Pt, d: Pt, h: Pt, g: Pt, s: real)
    requires On(c, d, Mix(h, g, s))
    ensures Moved(Cross(c, d, h), Cross(c, d, g), s) == 0.0
    ensures 0.0 <= Moved(Along(c, d, h), Along(c, d, g), s) <= Along(c, d, d)
  {
    CrossMix(c, d, h, g, s);
    AlongMix(c, d, h, g, s);
    OnLine(c, d, Mix(h, g, s));
    AlongOn(c, d, Mix(h, g, s));
    hide On, Cross, Along, Mix;
  }

  lemma {:induction false} MovedParts(f: real, g: real, s: real, n: real)
    ensures Moved(-f, -g, s) == -Moved(f, g, s) && Moved(f - n, g - n, s) == Moved(f, g, s) - n
  {
  }

  /** About a point off all the first `n` edges but one there is room. */
  lemma {:induction false} RoomBut(s: seq<Pt>, skip: nat, n: nat, h: Pt, g: Pt) returns (t: real)
    requires n <= |s| && forall k: nat :: k < n && k != skip ==> s[k] != After(s, k) && !On(s[k], After(s, k), h)
    ensures 0.0 < t < 1.0 && forall k: nat :: k < n && k != skip ==> RoomAbout(s[k], After(s, k), h, g, t)
  {
    t := 0.5;
    if n > 0 {
      var u := RoomBut(s, skip, n - 1, h, g);
      t := u;
      if n - 1 != skip {
        var v := RoomAt(s[n - 1], After(s, n - 1), h, g);
        t := if u < v then u else v;
      }
    }
  }

  /** Both sides of an edge, a little way from its middle towards `g`, which lies on its left,
      and as far the other way: off the polygon, and the winding is one less on the right. */
  lemma {:induction false} Sides(s: seq<Pt>, k: nat, g: Pt) returns (h: Pt, t: real)
    requires Simple(s) && k < |s| && Cross(s[k], After(s, k), g) > 0.0
    ensures h == Mix(s[k], After(s, k), 0.5) && 0.0 < t < 1.0
    ensures Off(s, Mix(h, g, t)) && Off(s, Mix(h, g, -t))
    ensures Winding(s, Mix(h, g, t)) == Winding(s, Mix(h, g, -t)) + 1
  {
    hide Simple, Winding, On, Mix, Cross, Uncrossed, Crosses;
    var a, b := s[k], After(s, k);
    h := Mix(a, b, 0.5);
    MiddleAlone(s, k);
    t := RoomBut(s, k, |s|, h, g);
    CrossingMiddle(a, b, g, t);
    RoomOff(s, k, h, g, t);
    forall j: nat | j < |s| && j != k ensures Uncrossed(s[j], After(s, j), Mix(h, g, t), Mix(h, g, -t)) {
      RoomUncrossed(s[j], After(s, j), h, g, t);
    }
    WindingJump(s, k, Mix(h, g, t), Mix(h, g, -t));
  }

  /** The middle of an edge is on no other. */
  lemma {:induction false} MiddleAlone(s: seq<Pt>, k: nat)
    requires Simple(s) && k < |s|
    ensures forall j: nat :: j < |s| && j != k ==> s[j] != After(s, j) && !On(s[j], After(s, j), Mix(s[k], After(s, k), 0.5))
  {
    var a, b := s[k], After(s, k);
    var h := Mix(a, b, 0.5);
    OnMix(a, b, 0.5);
    EdgeAt(s, k);
    EdgeEnds(s, a, b);
    MiddleInside(a, b);
    assert forall j: nat :: j < |s| && j != k ==> s[j] != a;
    hide Mix, On;
    forall j: nat | j < |s| && j != k ensures s[j] != After(s, j) && !On(s[j], After(s, j), h) {
      EdgeAt(s, j);
      EdgeEnds(s, s[j], After(s, j));
      if On(s[j], After(s, j), h) { SimpleMeet(s, a, b, s[j], After(s, j), h); }
    }
  }

  lemma {:induction false} RoomOff(s: seq<Pt>, k: nat, h: Pt, g: Pt, t: real)
    requires k < |s| && 0.0 < t && (forall j: nat :: j < |s| && j != k ==> RoomAbout(s[j], After(s, j), h, g, t))
    requires Crosses(s[k], After(s, k), Mix(h, g, t), Mix(h, g, -t))
    ensures Off(s, Mix(h, g, t)) && Off(s, Mix(h, g, -t))
  {
    hide On, Mix, Cross;
    var q, r := Mix(h, g, t), Mix(h, g, -t);
    forall c, d | IsEdge(s, c, d) ensures !On(c, d, q) && !On(c, d, r) {
      var j: nat :| j < |s| && s[j] == c && After(s, j) == d;
      if j == k {
        if On(c, d, q) { OnLine(c, d, q); }
        if On(c, d, r) { OnLine(c, d, r); }
      } else {
        assert RoomAbout(c, d, h, g, t);
      }
    }
  }

  lemma {:induction false} MiddleInside(a: Pt, b: Pt)
    requires a != b
    ensures Mix(a, b, 0.5) != a && Mix(a, b, 0.5) != b
  {
  }

  lemma {:induction false} CrossingMiddle(a: Pt, b: Pt, g: Pt, t: real)
    requires Cross(a, b, g) > 0.0 && t > 0.0
    ensures var h := Mix(a, b, 0.5); Crosses(a, b, Mix(h, g, t), Mix(h, g, -t))
  {
    var h := Mix(a, b, 0.5);
    var q, r, k := Mix(h, g, t), Mix(h, g, -t), Cross(a, b, g);
    Signs(t, k);
    assert Cross(a, b, q) == t * k;
    assert Cross(a, b, r) == -(t * k);
    assert Cross(q, r, a) == -(t * k);
    assert Cross(q, r, b) == t * k;
  }

  lemma {:induction false} RoomUncrossed(c: Pt, d: Pt, h: Pt, g: Pt, t: real)
    requires 0.0 < t && RoomAbout(c, d, h, g, t)
    ensures Uncrossed(c, d, Mix(h, g, t), Mix(h, g, -t))
  {
    if !Uncrossed(c, d, Mix(h, g, t), Mix(h, g, -t)) {
      var w := Meet(c, d, Mix(h, g, t), Mix(h, g, -t));
      RoomAlong(c, d, h, g, t, w);
    }
  }

  lemma {:induction false} RoomAlong(c: Pt, d: Pt, h: Pt, g: Pt, t: real, w: Pt)
    requires 0.0 < t && RoomAbout(c, d, h, g, t) && On(Mix(h, g, t), Mix(h, g, -t), w)
    ensures !On(c, d, w)
  {
    var l :| 0.0 <= l <= 1.0 && w == Mix(Mix(h, g, t), Mix(h, g, -t), l);
    MixOfMixes(h, g, t, -t, l);
    var s := Moved(t, -t, l);
    Signs(t, l);
    Signs(t, 1.0 - l);
    assert s == t - 2.0 * (t * l);
    assert t * (1.0 - l) == t - t * l;
    assert !On(c, d, Mix(h, g, s));
  }

  // ---------------------------------------------------------------- where a polygon starts

  function Turned(s: seq<Pt>, k: nat): (r: seq<Pt>)
    requires k <= |s|
    ensures |r| == |s|
  {
    s[k..] + s[..k]
  }

  lemma {:induction false} TurnedEdges(s: seq<Pt>, k: nat, a: Pt, b: Pt)
    requires k < |s|
    ensures IsEdge(Turned(s, k), a, b) <==> IsEdge(s, a, b)
  {
    var r, n := Turned(s, k), |s|;
    if j: nat :| j < n && s[j] == a && After(s, j) == b {
      var i := if j >= k then j - k else n + j - k;
      assert r[i] == a && After(r, i) == b;
    }
    if i: nat :| i < n && r[i] == a && After(r, i) == b {
      var j := if i + k < n then i + k else i + k - n;
      assert s[j] == a && After(s, j) == b;
    }
  }

  lemma {:induction false} TurnedMembers(s: seq<Pt>, k: nat, v: Pt)
    requires k <= |s|
    ensures v in Turned(s, k) <==> v in s
  {
    assert s == s[..k] + s[k..];
  }

  /** Where a polygon's list starts changes neither whether it is simple nor how it winds. */
  lemma {:induction false} TurnedSimple(s: seq<Pt>, k: nat)
    requires k < |s| && Simple(s)
    ensures Simple(Turned(s, k)) && (OnceRound(Turned(s, k)) <==> OnceRound(s))
  {
    var r := Turned(s, k);
    forall a, b ensures IsEdge(r, a, b) <==> IsEdge(s, a, b) { TurnedEdges(s, k, a, b); }
    forall v ensures Winding(r, v) == Winding(s, v) && (Off(r, v) <==> Off(s, v)) { WindingTurned(s, k, v); }
    assert Simple(r) by {
      assert forall i, j :: 0 <= i < j < |r| ==> r[i] != r[j];
      forall a, b, c, d, w | IsEdge(r, a, b) && IsEdge(r, c, d) && a != c && On(a, b, w) && On(c, d, w) ensures w == a || w == b {
        SimpleMeet(s, a, b, c, d, w);
      }
    }
  }

  lemma {:induction false} BackwardEdges(s: seq<Pt>, a: Pt, b: Pt)
    ensures IsEdge(Backward(s), a, b) <==> IsEdge(s, b, a)
  {
    var r, n := Backward(s), |s|;
    if j: nat :| j < n && s[j] == b && After(s, j) == a {
      var i := if j + 1 == n then n - 1 else n - 2 - j;
      assert r[i] == a && After(r, i) == b;
    }
    if i: nat :| i < n && r[i] == a && After(r, i) == b {
      var j := if i + 1 == n then n - 1 else n - 2 - i;
      assert s[j] == b && After(s, j) == a;
    }
  }

  lemma {:induction false} OnBack(a: Pt, b: Pt, w: Pt)
    requires On(a, b, w)
    ensures On(b, a, w)
  {
    var t :| 0.0 <= t <= 1.0 && w == Mix(a, b, t);
    assert w == Mix(b, a, 1.0 - t);
  }

  /** Walked the other way, a simple polygon is simple, and has the same edges and points off
      them. */
  lemma {:induction false} BackwardSimple(s: seq<Pt>)
    requires Simple(s)
    ensures Simple(Backward(s)) && forall v :: Off(s, v) ==> Off(Backward(s), v)
  {
    var r := Backward(s);
    forall a, b ensures IsEdge(r, a, b) <==> IsEdge(s, b, a) { BackwardEdges(s, a, b); }
    forall v | Off(s, v) ensures Off(r, v) {
      forall a, b | IsEdge(r, a, b) ensures !On(a, b, v) { if On(a, b, v) { OnBack(a, b, v); } }
    }
    forall a, b, c, d, w | IsEdge(r, a, b) && IsEdge(r, c, d) && a != c && On(a, b, w) && On(c, d, w) ensures w == a || w == b {
      OnBack(a, b, w);
      OnBack(c, d, w);
      if b == d { EdgeEnds(s, b, a); }
      SimpleMeet(s, b, a, d, c, w);
    }
  }
}
