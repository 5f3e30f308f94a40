// Ears of a simple polygon: they lie inside it, and cutting one off leaves a simple polygon
// that winds the same way.
module PolyEars {
  import opened GeoTriangulate
  import opened PolyWinding
  import opened PolySimple
  import opened PolyCorner

  /** A convex corner whose closed triangle holds no other vertex. */
  ghost predicate IsEar(s: seq<Pt>, a: Pt, e: Pt, b: Pt) {
    && IsCorner(s, a, e, b) && Cross(a, e, b) > 0.0
    && forall v <- s :: v == a || v == e || v == b || !InCorner(a, e, b, v)
  }

  lemma {:induction false} EarZone(s: seq<Pt>, a: Pt, e: Pt, b: Pt)
    requires Simple(s) && IsEar(s, a, e, b)
    ensures Zone(s, a, e, b, a, b) && a != b && a != e && b != e
  {
    CornerCrosses(a, e, b);
    OnEnds(e, a);
    OnEnds(e, b);
    hide On, InCorner, Simple;
    assert a != b && a != e && b != e by { Flat(a, e, b); }
  }

  lemma {:induction false} Flat(a: Pt, e: Pt, b: Pt)
    requires Cross(a, e, b) != 0.0
    ensures a != b && a != e && b != e
  {
  }

  /** In an ear's triangle, off the polygon: off both sides at the tip. */
  lemma {:induction false} OffSides(s: seq<Pt>, a: Pt, e: Pt, b: Pt, v: Pt)
    requires IsCorner(s, a, e, b) && Cross(a, e, b) > 0.0 && InCorner(a, e, b, v) && Off(s, v)
    ensures Cross(a, e, v) > 0.0 && Cross(e, b, v) > 0.0
  {
    OnSide(a, e, b, v);
    hide On, Cross;
    if On(e, a, v) { OnBack(e, a, v); }
  }

  /** A point inside the triangle, towards its chord. */
  lemma {:induction false} SomeWithin(a: Pt, e: Pt, b: Pt, t: real) returns (h: Pt, x: Pt)
    requires Cross(a, e, b) > 0.0 && 0.0 < t < 1.0
    ensures h == Mix(a, e, 0.5) && x == Mix(h, b, t) && Within(a, e, b, x)
  {
    h := Mix(a, e, 0.5);
    x := Mix(h, b, t);
    var k := Cross(a, e, b);
    Signs(t, k);
    Signs(1.0 - t, k);
    assert Cross(a, e, x) == t * k;
    assert 2.0 * Cross(e, b, x) == (1.0 - t) * k;
    assert 2.0 * Cross(b, a, x) == (1.0 - t) * k;
  }

  /** An ear's triangle lies inside the polygon. */
  lemma {:induction false} EarInside(s: seq<Pt>, a: Pt, e: Pt, b: Pt, v: Pt)
    requires Simple(s) && OnceRound(s) && IsEar(s, a, e, b) && InCorner(a, e, b, v) && Off(s, v)
    ensures Winding(s, v) == 1
  {
    EarZone(s, a, e, b);
    OffSides(s, a, e, b, v);
    hide Simple, InCorner, On, Mix, Cross, Winding;
    var k: nat :| k < |s| && s[k] == a && After(s, k) == e;
    var h, t := Sides(s, k, b);
    var h', x := SomeWithin(a, e, b, t);
    ZoneMisses(s, a, e, b, a, b, v, x);
    MissesSteady(s, v, x);
  }

  /** A point inside an ear's triangle is off the polygon. */
  lemma {:induction false} WithinOff(s: seq<Pt>, a: Pt, e: Pt, b: Pt, v: Pt)
    requires Simple(s) && IsEar(s, a, e, b) && Within(a, e, b, v)
    ensures Off(s, v)
  {
    EarZone(s, a, e, b);
    WithinCorner(a, e, b, v);
    hide Simple, Cross, On, InCorner, Within;
    ZoneMisses(s, a, e, b, a, b, v, v);
    OnEnds(v, v);
  }

  // ---------------------------------------------------------------- cutting an ear off

  /** A polygon that starts at the tip of one of its ears, with more to it than the ear. */
  ghost predicate AtEar(s: seq<Pt>) { |s| >= 4 && Simple(s) && IsEar(s, s[|s| - 1], s[0], s[1]) }

  lemma {:induction false} CutEdges(s: seq<Pt>, c: Pt, d: Pt)
    requires |s| >= 4 && Simple(s)
    ensures var r, a, e, b := s[1..], s[|s| - 1], s[0], s[1];
      IsEdge(r, c, d) <==> (c == a && d == b) || (IsEdge(s, c, d) && c != a && c != e)
  {
    var r, n := s[1..], |s|;
    if i: nat :| i < |r| && r[i] == c && After(r, i) == d {
      if i + 1 < |r| { assert s[i + 1] == c && After(s, i + 1) == d; }
    }
    if j: nat :| j < n && s[j] == c && After(s, j) == d && c != s[n - 1] && c != s[0] {
      assert r[j - 1] == c && After(r, j - 1) == d;
    }
    if c == s[n - 1] && d == s[1] { assert r[n - 2] == c && After(r, n - 2) == d; }
  }

  /** The chord of an ear meets the other edges at its ends only. */
  lemma {:induction false} ChordAlone(s: seq<Pt>, c: Pt, d: Pt, w: Pt)
    requires AtEar(s)
    requires var a, e, b := s[|s| - 1], s[0], s[1]; IsEdge(s, c, d) && c != a && c != e && On(c, d, w) && On(a, b, w)
    ensures w == s[|s| - 1] || w == s[1]
  {
    var a, e, b := s[|s| - 1], s[0], s[1];
    EarZone(s, a, e, b);
    EdgeEnds(s, c, d);
    CornerCrosses(a, e, b);
    if w != a && w != b {
      OnLine(a, b, w);
      ChordInside(a, e, b, w);
      FarEnd(s, a, e, b, a, b, c, d, w, c);
      FarEnd(s, a, e, b, a, b, c, d, w, d);
      hide Simple, On, InCorner;
      BackCross(a, b, c);
      BackCross(a, b, d);
      BackCross(a, b, w);
      hide Cross;
      EdgeOnChord(a, b, c, d, w);
      assert Cross(a, b, c) == 0.0 && Cross(a, b, d) == 0.0;
      OffChord(s, c);
      OffChord(s, d);
      Straddles(a, b, c, d, w);
      VertexOnEdge(s, a, c, d);
      VertexOnEdge(s, b, c, d);
      NoTriangle(s);
    }
  }

  lemma {:induction false} ChordInside(a: Pt, e: Pt, b: Pt, w: Pt)
    requires Cross(a, e, b) > 0.0 && On(a, b, w) && w != a && w != b
    ensures InCorner(a, e, b, w) && Cross(a, e, w) > 0.0 && Cross(e, b, w) > 0.0
  {
    CornerCrosses(a, e, b);
    OnBack(a, b, w);
    hide Cross;
    SideOfMix(a, e, b, a, w);
    SideOfMix(e, b, a, b, w);
    assert Cross(b, a, w) == 0.0 by { OnLine(b, a, w); }
  }

  /** An edge that lies on one side of a line and has an inner point on it lies along it. */
  lemma {:induction false} EdgeOnChord(a: Pt, b: Pt, c: Pt, d: Pt, w: Pt)
    requires On(c, d, w) && Cross(a, b, c) >= 0.0 && Cross(a, b, d) >= 0.0 && Cross(a, b, w) == 0.0
    ensures w == c || w == d || (Cross(a, b, c) == 0.0 && Cross(a, b, d) == 0.0)
  {
    SideOfMix(a, b, c, d, w);
    OnBack(c, d, w);
    SideOfMix(a, b, d, c, w);
  }

  /** A vertex on the chord's line is an end of the chord or beyond one. */
  lemma {:induction false} OffChord(s: seq<Pt>, v: Pt)
    requires AtEar(s) && v in s
    ensures var a, e, b := s[|s| - 1], s[0], s[1];
      Cross(a, b, v) == 0.0 && v != a && v != b ==> Along(a, b, v) < 0.0 || Along(a, b, v) > Along(a, b, b)
  {
    var a, e, b := s[|s| - 1], s[0], s[1];
    EarZone(s, a, e, b);
    CornerCrosses(a, e, b);
    if Cross(a, b, v) == 0.0 && v != a && v != b && 0.0 <= Along(a, b, v) <= Along(a, b, b) {
      OnIfAlong(a, b, v);
      ChordInside(a, e, b, v);
      hide Simple, On;
      BackCross(a, b, e);
    }
  }

  /** An edge along the chord's line, with an inner point of the chord on it and its ends off
      the chord's inside, holds both the chord's ends. */
  lemma {:induction false} Straddles(a: Pt, b: Pt, c: Pt, d: Pt, w: Pt)
    requires a != b && c != d && On(c, d, w) && On(a, b, w) && w != a && w != b
    requires Cross(a, b, c) == 0.0 && Cross(a, b, d) == 0.0
    requires c == a || c == b || Along(a, b, c) < 0.0 || Along(a, b, c) > Along(a, b, b)
    requires d == a || d == b || Along(a, b, d) < 0.0 || Along(a, b, d) > Along(a, b, b)
    ensures On(c, d, a) && On(c, d, b)
  {
    var n, l, m := Along(a, b, b), Along(a, b, c), Along(a, b, d);
    AlongEnds(a, b);
    StrictlyAlong(a, b, w);
    BetweenAlong(a, b, c, d, w);
    if l <= 0.0 {
      assert m >= n;
      OnByAlong(a, b, c, d, a);
      OnByAlong(a, b, c, d, b);
    } else {
      assert l >= n && m <= 0.0;
      OnByAlong(a, b, d, c, a);
      OnByAlong(a, b, d, c, b);
      OnBack(d, c, a);
      OnBack(d, c, b);
    }
  }

  lemma {:induction false} StrictlyAlong(a: Pt, b: Pt, w: Pt)
    requires On(a, b, w) && w != a && w != b
    ensures 0.0 < Along(a, b, w) < Along(a, b, b)
  {
    var t :| 0.0 <= t <= 1.0 && w == Mix(a, b, t);
    assert a == Mix(a, b, 0.0) && b == Mix(a, b, 1.0);
    AlongPortion(a, b, t);
    AlongEnds(a, b);
    hide Along, Mix;
    Signs(t, Along(a, b, b));
    Signs(1.0 - t, Along(a, b, b));
    Unfolded(1.0, t, Along(a, b, b));
  }

  lemma {:induction false} BetweenAlong(a: Pt, b: Pt, c: Pt, d: Pt, w: Pt)
    requires On(c, d, w)
    ensures Along(a, b, c) <= Along(a, b, w) || Along(a, b, d) <= Along(a, b, w)
    ensures Along(a, b, c) >= Along(a, b, w) || Along(a, b, d) >= Along(a, b, w)
  {
    var t :| 0.0 <= t <= 1.0 && w == Mix(c, d, t);
    AlongMix(a, b, c, d, t);
    hide Along, Mix;
    var l, m, x := Along(a, b, c), Along(a, b, d), Along(a, b, w);
    Shared(t, l - x, m - x);
    assert (1.0 - t) * (l - x) + t * (m - x) == (1.0 - t) * l + t * m - x;
  }

  /** On the line of `ab`, a point whose place along it is between two others' is between them. */
  lemma {:induction false} OnByAlong(a: Pt, b: Pt, c: Pt, d: Pt, w: Pt)
    requires a != b && Cross(a, b, c) == 0.0 && Cross(a, b, d) == 0.0 && Cross(a, b, w) == 0.0
    requires Along(a, b, c) <= Along(a, b, w) <= Along(a, b, d) && Along(a, b, c) < Along(a, b, d)
    ensures On(c, d, w)
  {
    AlongEnds(a, b);
    hide Cross, Along, Mix, On, Moved;
    var n := Along(a, b, b);
    var p := Place(a, b, c);
    var q := Place(a, b, d);
    var x := Place(a, b, w);
    Ordered(n, p, x, Along(a, b, c), Along(a, b, w));
    Ordered(n, x, q, Along(a, b, w), Along(a, b, d));
    Ordered(n, p, q, Along(a, b, c), Along(a, b, d));
    var t := Fraction(p, q, x);
    MixOfMixes(a, b, p, q, t);
    OnMix(c, d, t);
  }

  lemma {:induction false} Fraction(p: real, q: real, x: real) returns (t: real)
    requires p <= x <= q && p < q
    ensures 0.0 <= t <= 1.0 && Moved(p, q, t) == x
  {
    t := Quotient(x - p, q - p);
    MovedBy(p, q, t);
    hide Moved;
  }

  lemma {:induction false} Ordered(n: real, p: real, q: real, u: real, v: real)
    requires n > 0.0 && n * p == u && n * q == v
    ensures (u <= v ==> p <= q) && (u < v ==> p < q)
  {
    Signs(n, p - q);
    Signs(n, q - p);
    assert n * (p - q) == u - v;
  }

  lemma {:induction false} Place(a: Pt, b: Pt, v: Pt) returns (t: real)
    requires a != b && Cross(a, b, v) == 0.0
    ensures Along(a, b, b) * t == Along(a, b, v) && v == Mix(a, b, t)
  {
    var n := Along(a, b, b);
    AlongEnds(a, b);
    AlongParts(a, b, v);
    t := Along(a, b, v) / n;
    assert t * n == Along(a, b, v);
    hide Cross, Along;
    Divided(n, v.x - a.x, Along(a, b, v), b.x - a.x, t);
    Divided(n, v.y - a.y, Along(a, b, v), b.y - a.y, t);
  }

  lemma {:induction false} NoTriangle(s: seq<Pt>)
    requires |s| >= 4 && Simple(s)
    ensures !IsEdge(s, s[1], s[|s| - 1])
  {
    forall k: nat | k < |s| && s[k] == s[1] ensures After(s, k) != s[|s| - 1] { }
  }

  /** Cutting an ear off a simple polygon leaves a simple polygon. */
  lemma {:induction false} CutSimple(s: seq<Pt>)
    requires AtEar(s)
    ensures Simple(s[1..])
  {
    var r, a, e, b := s[1..], s[|s| - 1], s[0], s[1];
    EarZone(s, a, e, b);
    assert forall i, j :: 0 <= i < j < |r| ==> r[i] != r[j];
    forall c, d, f, g, w | IsEdge(r, c, d) && IsEdge(r, f, g) && c != f && On(c, d, w) && On(f, g, w) ensures w == c || w == d {
      CutEdges(s, c, d);
      CutEdges(s, f, g);
      hide On, InCorner, Cross;
      if c == a && d == b {
        ChordAlone(s, f, g, w);
      } else if f == a && g == b {
        ChordAlone(s, c, d, w);
        VertexOnEdge(s, w, c, d);
      } else {
        SimpleMeet(s, c, d, f, g, w);
      }
    }
  }

  lemma {:induction false} SidesInCorner(a: Pt, e: Pt, b: Pt, w: Pt)
    requires Cross(a, e, b) > 0.0 && (On(a, e, w) || On(e, b, w) || On(a, b, w))
    ensures InCorner(a, e, b, w)
  {
    CornerCrosses(a, e, b);
    if On(a, e, w) { InCornerMix(a, e, b, a, e, w); } else if On(e, b, w) { InCornerMix(a, e, b, e, b, w); } else { InCornerMix(a, e, b, a, b, w); }
  }

  /** Outside the ear's triangle, the cut changes neither the points off the polygon nor the
      winding. */
  lemma {:induction false} CutOutside(s: seq<Pt>, v: Pt)
    requires AtEar(s) && !InCorner(s[|s| - 1], s[0], s[1], v)
    ensures Off(s[1..], v) <==> Off(s, v)
    ensures Winding(s, v) == Winding(s[1..], v)
  {
    var r, a, e, b := s[1..], s[|s| - 1], s[0], s[1];
    WindingCut(s, v);
    OutsideWinds(a, e, b, v);
    hide On, InCorner, Cross, Winding, TriWinds;
    EarZone(s, a, e, b);
    if On(a, e, v) || On(e, b, v) || On(a, b, v) { SidesInCorner(a, e, b, v); }
    forall c, d | IsEdge(s, c, d) && On(c, d, v) ensures IsEdge(r, c, d) {
      CutEdges(s, c, d);
      EdgeEnds(s, a, e);
      EdgeEnds(s, e, b);
    }
    forall c, d | IsEdge(r, c, d) && On(c, d, v) ensures IsEdge(s, c, d) { CutEdges(s, c, d); }
  }

  /** Inside the triangle, off the chord, nothing of the cut polygon is in the way. */
  lemma {:induction false} CutMisses(s: seq<Pt>, q: Pt, r: Pt)
    requires AtEar(s)
    requires var a, e, b := s[|s| - 1], s[0], s[1];
      InCorner(a, e, b, q) && Cross(b, a, q) > 0.0 && InCorner(a, e, b, r) && Cross(b, a, r) > 0.0
    ensures Misses(s[1..], q, r)
  {
    var a, e, b := s[|s| - 1], s[0], s[1];
    EarZone(s, a, e, b);
    hide Simple, On, InCorner, Cross;
    forall c, d, w | IsEdge(s[1..], c, d) && On(c, d, w) && On(q, r, w) ensures false {
      CutEdges(s, c, d);
      InCornerMix(a, e, b, q, r, w);
      SideOfMix(b, a, q, r, w);
      if c == a && d == b {
        OnBack(a, b, w);
        OnLine(b, a, w);
      } else {
        ZoneFree(s, a, e, b, a, b, c, d, w);
      }
    }
  }

  /** The cut polygon does not wind round the ear's triangle, so it winds at most once round
      any point if the whole did. */
  lemma {:induction false} CutOnceRound(s: seq<Pt>)
    requires AtEar(s) && OnceRound(s)
    ensures OnceRound(s[1..])
  {
    var r, a, e, b := s[1..], s[|s| - 1], s[0], s[1];
    EarZone(s, a, e, b);
    forall v | Off(r, v) ensures Winding(r, v) == 0 || Winding(r, v) == 1 {
      hide On, Simple, Cross, Winding;
      if !InCorner(a, e, b, v) {
        CutOutside(s, v);
      } else {
        OffChordOf(s, v);
        var h, x := SomeWithin(a, e, b, 0.5);
        WithinCorner(a, e, b, x);
        CutMisses(s, v, x);
        MissesSteady(r, v, x);
        WithinOff(s, a, e, b, x);
        EarInside(s, a, e, b, x);
        WindingCut(s, x);
        WithinWinds(a, e, b, x);
      }
    }
  }

  lemma {:induction false} OffChordOf(s: seq<Pt>, v: Pt)
    requires AtEar(s) && Off(s[1..], v) && InCorner(s[|s| - 1], s[0], s[1], v)
    ensures Cross(s[1], s[|s| - 1], v) > 0.0
  {
    var a, e, b := s[|s| - 1], s[0], s[1];
    CutEdges(s, a, b);
    OnSide(a, e, b, v);
  }

  /** The other way round, when the cut polygon does not wind round the tip. */
  lemma {:induction false} UncutOnceRound(s: seq<Pt>)
    requires AtEar(s) && OnceRound(s[1..]) && Winding(s[1..], s[0]) == 0
    ensures OnceRound(s)
  {
    var r, a, e, b := s[1..], s[|s| - 1], s[0], s[1];
    EarZone(s, a, e, b);
    var h, x := SomeWithin(a, e, b, 0.5);
    WithinCorner(a, e, b, x);
    CornerCrosses(a, e, b);
    CutMisses(s, x, e);
    MissesSteady(r, x, e);
    WindingCut(s, x);
    WithinWinds(a, e, b, x);
    hide On, Simple, Cross, Winding;
    forall v | Off(s, v) ensures Winding(s, v) == 0 || Winding(s, v) == 1 {
      if !InCorner(a, e, b, v) {
        CutOutside(s, v);
      } else {
        OffSides(s, a, e, b, v);
        ZoneMisses(s, a, e, b, a, b, v, x);
        MissesSteady(s, v, x);
      }
    }
  }
}
