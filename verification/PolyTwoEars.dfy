// Every simple polygon winds once round its inside, one way or the other, and has ears away
// from any of its edges: the fact ear clipping stands on.
module PolyTwoEars {
  import opened GeoTriangulate
  import opened PolyWinding
  import opened PolySimple
  import opened PolyCorner
  import opened PolyEars
  import opened PolySplit

  /** Whatever the edge, some ear has its tip off it. */
  ghost predicate EarBeside(s: seq<Pt>) {
    forall u, v :: IsEdge(s, u, v) ==> exists a, e, b :: IsEar(s, a, e, b) && e != u && e != v
  }

  /** Counter-clockwise: it winds once round its inside, and has ears enough. */
  ghost predicate Good(s: seq<Pt>) { OnceRound(s) && EarBeside(s) }

  lemma {:induction false} EarOff(s: seq<Pt>, u: Pt, v: Pt) returns (a: Pt, e: Pt, b: Pt)
    requires EarBeside(s) && IsEdge(s, u, v)
    ensures IsEar(s, a, e, b) && e != u && e != v
  {
    hide IsEar, IsEdge;
    a, e, b :| IsEar(s, a, e, b) && e != u && e != v;
  }

  predicate Before(m: Pt, v: Pt) { m.x < v.x || (m.x == v.x && m.y < v.y) }

  /** It starts at its leftmost, lowest vertex. */
  ghost predicate FirstLeast(s: seq<Pt>) { |s| >= 3 && forall v <- s[1..] :: Before(s[0], v) }

  /** ... and turns left there. */
  ghost predicate LeftAtLeast(s: seq<Pt>) { Simple(s) && FirstLeast(s) && Cross(s[|s| - 1], s[0], s[1]) > 0.0 }

  // ---------------------------------------------------------------- before all vertices

  lemma {:induction false} PassedBefore(a: Pt, b: Pt, m: Pt)
    requires Before(m, a) && Before(m, b)
    ensures Winds(a, b, m) == 0
  {
    var u, p, q := b.x - a.x, m.y - a.y, m.y - b.y;
    if a.x == m.x { assert Cross(a, b, m) == u * p; Signs(u, p); }
    if b.x == m.x { assert Cross(a, b, m) == u * q; Signs(-u, q); }
  }

  lemma {:induction false} PathBefore(s: seq<Pt>, m: Pt)
    requires forall v <- s :: Before(m, v)
    ensures PathWinds(s, m) == 0
  {
    if |s| > 1 {
      assert s[|s| - 2] in s && s[|s| - 1] in s && forall v <- s[..|s| - 1] :: v in s;
      PathBefore(s[..|s| - 1], m);
      PassedBefore(s[|s| - 2], s[|s| - 1], m);
    }
  }

  lemma {:induction false} WindingBefore(s: seq<Pt>, m: Pt)
    requires forall v <- s :: Before(m, v)
    ensures Winding(s, m) == 0
  {
    PathBefore(s, m);
    if s != [] {
      assert s[0] in s && s[|s| - 1] in s;
      PassedBefore(s[|s| - 1], s[0], m);
    }
  }

  // ---------------------------------------------------------------- ears of a part

  /** An ear of a part of the polygon is an ear of the whole, when the part does not wind
      round the vertices left out. */
  lemma {:induction false} EarOfPart(s: seq<Pt>, r: seq<Pt>, a: Pt, e: Pt, b: Pt)
    requires Simple(r) && OnceRound(r) && IsEar(r, a, e, b) && IsCorner(s, a, e, b)
    requires forall v <- s :: v in r || (Off(r, v) && Winding(r, v) == 0)
    ensures IsEar(s, a, e, b)
  {
    hide Simple, InCorner, Cross, Winding;
    forall v | v in s && v != a && v != e && v != b ensures !InCorner(a, e, b, v) {
      if v !in r && InCorner(a, e, b, v) { EarInside(r, a, e, b, v); }
    }
  }

  lemma {:induction false} TriangleOnceRound(a: Pt, e: Pt, b: Pt, v: Pt)
    requires Simple([e, b, a]) && Cross(a, e, b) > 0.0 && Off([e, b, a], v)
    ensures Winding([e, b, a], v) == 0 || Winding([e, b, a], v) == 1
  {
    var s := [e, b, a];
    EdgeAt(s, 0);
    EdgeAt(s, 1);
    EdgeAt(s, 2);
    TriChain(e, b, a, v);
    hide Cross, Simple, Winding, On;
    if InCorner(a, e, b, v) {
      OffSides(s, a, e, b, v);
      OnSide(a, e, b, v);
      if On(a, b, v) { OnBack(a, b, v); }
      WithinWinds(a, e, b, v);
    } else {
      OutsideWinds(a, e, b, v);
    }
  }

  lemma {:induction false} TriangleEars(a: Pt, e: Pt, b: Pt)
    requires Cross(a, e, b) > 0.0
    ensures var s := [e, b, a]; IsEar(s, a, e, b) && IsEar(s, e, b, a) && IsEar(s, b, a, e)
  {
    var s := [e, b, a];
    EdgeAt(s, 0);
    EdgeAt(s, 1);
    EdgeAt(s, 2);
    CornerCrosses(a, e, b);
    assert Cross(b, a, e) == Cross(a, e, b);
    hide Cross, InCorner;
  }

  lemma {:induction false} TriangleEarBeside(s: seq<Pt>, a: Pt, e: Pt, b: Pt, u: Pt, v: Pt) returns (x: Pt, y: Pt, z: Pt)
    requires Simple(s) && s == [e, b, a] && IsEdge(s, u, v)
    requires IsEar(s, a, e, b) && IsEar(s, e, b, a) && IsEar(s, b, a, e)
    ensures IsEar(s, x, y, z) && y != u && y != v
  {
    EdgeEnds(s, u, v);
    EarZone(s, a, e, b);
    hide Simple, IsEar, IsEdge, Zone;
    if u != e && v != e {
      x, y, z := a, e, b;
    } else if u != b && v != b {
      x, y, z := e, b, a;
    } else {
      x, y, z := b, a, e;
    }
  }

  lemma {:induction false} TriangleWinds(s: seq<Pt>)
    requires |s| == 3 && Simple(s) && Cross(s[2], s[0], s[1]) > 0.0
    ensures OnceRound(s)
  {
    assert s == [s[0], s[1], s[2]];
    forall v | Off(s, v) ensures Winding(s, v) == 0 || Winding(s, v) == 1 { TriangleOnceRound(s[2], s[0], s[1], v); }
  }

  lemma {:induction false} TriangleHasEars(s: seq<Pt>)
    requires |s| == 3 && Simple(s) && Cross(s[2], s[0], s[1]) > 0.0
    ensures EarBeside(s)
  {
    var a, e, b := s[2], s[0], s[1];
    assert s == [e, b, a];
    TriangleEars(a, e, b);
    hide IsEar, Simple, IsEdge, Cross;
    forall u, v | IsEdge(s, u, v) ensures exists a', e', b' :: IsEar(s, a', e', b') && e' != u && e' != v {
      var x, y, z := TriangleEarBeside(s, a, e, b, u, v);
    }
  }

  // ---------------------------------------------------------------- putting an ear back

  /** When the cut polygon does not wind round the tip, it is not the clockwise one. */
  lemma {:induction false} CutNotBackward(s: seq<Pt>)
    requires AtEar(s) && Winding(s[1..], s[0]) == 0
    ensures !OnceRound(Backward(s[1..]))
  {
    var r, a, e, b := s[1..], s[|s| - 1], s[0], s[1];
    CutSimple(s);
    var k := |r| - 1;
    assert r[k] == a && After(r, k) == b;
    var h := Mix(a, b, 0.5);
    var g := Mix(h, e, -1.0);
    Reflected(a, e, b);
    var h', t := Sides(r, k, g);
    MixBack(h, e, t);
    ChordMiddle(a, e, b, t);
    CornerCrosses(a, e, b);
    hide Cross, Mix, Winding, Simple, On, InCorner;
    assert InCorner(a, e, b, e) by { TipIn(a, e, b); }
    CutMisses(s, Mix(h, e, t), e);
    MissesSteady(r, Mix(h, e, t), e);
    BackwardSimple(r);
    WindingBackward(r, Mix(h, g, t));
  }

  lemma {:induction false} Reflected(a: Pt, e: Pt, b: Pt)
    requires Cross(a, e, b) > 0.0
    ensures Cross(a, b, Mix(Mix(a, b, 0.5), e, -1.0)) > 0.0
  {
    var h := Mix(a, b, 0.5);
    CrossMix(a, b, h, e, -1.0);
    OnMix(a, b, 0.5);
    OnLine(a, b, h);
    BackCross(a, b, e);
    CornerCrosses(a, e, b);
  }

  lemma {:induction false} ChordMiddle(a: Pt, e: Pt, b: Pt, t: real)
    requires Cross(a, e, b) > 0.0 && 0.0 < t < 1.0
    ensures var y := Mix(Mix(a, b, 0.5), e, t); InCorner(a, e, b, y) && Cross(b, a, y) > 0.0
  {
    var k, y := Cross(a, e, b), Mix(Mix(a, b, 0.5), e, t);
    Signs(t, k);
    Signs(1.0 - t, k);
    assert 2.0 * Cross(a, e, y) == (1.0 - t) * k;
    assert 2.0 * Cross(e, b, y) == (1.0 - t) * k;
    assert Cross(b, a, y) == t * k;
  }

  /** A polygon with an ear it winds round once is counter-clockwise if cutting that ear off
      leaves one that is so one way or the other. */
  lemma {:induction false} PutBack(s: seq<Pt>, x: Pt)
    requires AtEar(s) && (Good(s[1..]) || Good(Backward(s[1..])))
    requires Within(s[|s| - 1], s[0], s[1], x) && Winding(s, x) == 1
    ensures Good(s[1..]) && OnceRound(s) && Winding(s[1..], s[0]) == 0
  {
    hide EarBeside;
    var a, e, b := s[|s| - 1], s[0], s[1];
    WithinCorner(a, e, b, x);
    TipIn(a, e, b);
    CornerCrosses(a, e, b);
    hide Cross, InCorner, Winding, TriWinds;
    WindingCut(s, x);
    WithinWinds(a, e, b, x);
    CutMisses(s, x, e);
    MissesSteady(s[1..], x, e);
    CutNotBackward(s);
    UncutOnceRound(s);
  }

  lemma {:induction false} TipUnwound(s: seq<Pt>) returns (x: Pt)
    requires AtEar(s) && Winding(s[1..], s[0]) == 0
    ensures Within(s[|s| - 1], s[0], s[1], x) && Winding(s, x) == 1
  {
    var a, e, b := s[|s| - 1], s[0], s[1];
    var h;
    h, x := SomeWithin(a, e, b, 0.5);
    WithinCorner(a, e, b, x);
    TipIn(a, e, b);
    CornerCrosses(a, e, b);
    hide Cross, InCorner, Winding, TriWinds, Mix;
    CutMisses(s, x, e);
    MissesSteady(s[1..], x, e);
    WindingCut(s, x);
    WithinWinds(a, e, b, x);
  }

  /** The cut polygon's ears away from the chord are the polygon's. */
  lemma {:induction false} EarsBeyondChord(s: seq<Pt>, u: Pt, v: Pt) returns (a: Pt, e: Pt, b: Pt)
    requires AtEar(s) && Good(s[1..]) && Winding(s[1..], s[0]) == 0 && IsEdge(s, u, v)
    ensures IsEar(s, a, e, b) && e != u && e != v
  {
    hide EarBeside;
    if s[0] != u && s[0] != v {
      a, e, b := s[|s| - 1], s[0], s[1];
    } else {
      var r, p, m, n := s[1..], s[|s| - 1], s[0], s[1];
      EarZone(s, p, m, n);
      CutSimple(s);
      CutEdges(s, p, n);
      a, e, b := EarOff(r, p, n);
      CutEdges(s, a, e);
      CutEdges(s, e, b);
      EdgeEnds(r, e, b);
      EdgeEnds(s, p, m);
      EdgeEnds(s, m, n);
      TipOff(s);
      EarOfPart(s, r, a, e, b);
      hide IsEar, Simple;
      EdgeEnds(s, u, v);
      assert m !in r by { FirstNotInRest(s); }
    }
  }

  lemma {:induction false} FirstNotInRest(s: seq<Pt>)
    requires Simple(s)
    ensures s[0] !in s[1..] && forall v <- s :: v == s[0] || v in s[1..]
  {
  }

  lemma {:induction false} TipOff(s: seq<Pt>)
    requires AtEar(s)
    ensures Off(s[1..], s[0])
  {
    var a, e, b := s[|s| - 1], s[0], s[1];
    CornerCrosses(a, e, b);
    EdgeEnds(s, a, e);
    forall c, d | IsEdge(s[1..], c, d) ensures !On(c, d, e) {
      CutEdges(s, c, d);
      hide On, Cross, InCorner;
      if On(c, d, e) {
        if c == a && d == b {
          OnLine(a, b, e);
          BackCross(a, b, e);
        } else {
          VertexOnEdge(s, e, c, d);
        }
      }
    }
  }

  // ---------------------------------------------------------------- either part's ears

  /** The two parts of a split, both good. */
  ghost predicate Halves(s: seq<Pt>, k: nat, a: Pt, b: Pt) {
    && Reach(s, k, a, b)
    && Simple(Front(s, k)) && Good(Front(s, k)) && Simple(Back(s, k)) && Good(Back(s, k))
  }

  /** An ear of a part away from the diagonal has the polygon's own edges at its tip. */
  lemma {:induction false} PartCorner(s: seq<Pt>, z: Pt, r: seq<Pt>, j: nat, a: Pt, e: Pt, b: Pt)
    requires Part(s, z, r, j) && IsCorner(r, a, e, b) && e != s[0] && e != z
    ensures IsCorner(s, a, e, b)
  {
    assert IsEdge(r, a, e) && IsEdge(r, e, b);
  }

  lemma {:induction false} FrontEar(s: seq<Pt>, k: nat, a: Pt, b: Pt) returns (p: Pt, e: Pt, n: Pt)
    requires Halves(s, k, a, b)
    ensures IsEar(s, p, e, n) && IsEar(Front(s, k), p, e, n) && e != s[0] && e != s[k]
  {
    hide EarBeside;
    var r := Front(s, k);
    FrontPart(s, k);
    EdgeAt(r, k);
    p, e, n := EarOff(r, s[k], s[0]);
    PartCorner(s, s[k], r, k, p, e, n);
    FrontRest(s, k, a, b);
    EarOfPart(s, r, p, e, n);
  }

  /** What the front part leaves out it does not wind round. */
  lemma {:induction false} FrontRest(s: seq<Pt>, k: nat, a: Pt, b: Pt)
    requires Halves(s, k, a, b)
    ensures var r := Front(s, k); forall v <- s :: v in r || (Off(r, v) && Winding(r, v) == 0)
  {
    hide EarBeside, Winding, Simple, Off;
    var r := Front(s, k);
    forall v | v in s ensures v in r || (Off(r, v) && Winding(r, v) == 0) {
      var i :| 0 <= i < |s| && s[i] == v;
      if i > k { FrontOutside(s, k, a, b, i); } else { assert r[i] == v; }
    }
  }

  lemma {:induction false} BackEar(s: seq<Pt>, k: nat, a: Pt, b: Pt) returns (p: Pt, e: Pt, n: Pt)
    requires Halves(s, k, a, b)
    ensures IsEar(s, p, e, n) && IsEar(Back(s, k), p, e, n) && e != s[0] && e != s[k]
  {
    hide EarBeside;
    var r := Back(s, k);
    BackPart(s, k);
    EdgeAt(r, 0);
    p, e, n := EarOff(r, s[0], s[k]);
    PartCorner(s, s[k], r, 0, p, e, n);
    BackRest(s, k, a, b);
    EarOfPart(s, r, p, e, n);
  }

  /** Nor does the back part wind round what it leaves out. */
  lemma {:induction false} BackRest(s: seq<Pt>, k: nat, a: Pt, b: Pt)
    requires Halves(s, k, a, b)
    ensures var r := Back(s, k); forall v <- s :: v in r || (Off(r, v) && Winding(r, v) == 0)
  {
    hide EarBeside, Winding, Simple, Off;
    var r := Back(s, k);
    forall v | v in s ensures v in r || (Off(r, v) && Winding(r, v) == 0) {
      var i :| 0 <= i < |s| && s[i] == v;
      if 0 < i < k { BackOutside(s, k, a, b, i); } else { assert r[if i == 0 then 0 else i - k + 1] == v; }
    }
  }

  /** An edge in one part is away from the other part's ears. */
  lemma {:induction false} HalvesEar(s: seq<Pt>, k: nat, a: Pt, b: Pt, u: Pt, v: Pt) returns (p: Pt, e: Pt, n: Pt)
    requires Halves(s, k, a, b) && IsEdge(s, u, v)
    ensures IsEar(s, p, e, n) && e != u && e != v
  {
    hide EarBeside;
    var i: nat :| i < |s| && s[i] == u && After(s, i) == v;
    if i < k {
      p, e, n := BackEar(s, k, a, b);
      EdgeEnds(Back(s, k), p, e);
      var j :| 0 <= j < |Back(s, k)| && Back(s, k)[j] == e;
    } else {
      p, e, n := FrontEar(s, k, a, b);
      EdgeEnds(Front(s, k), p, e);
      var j :| 0 <= j < |Front(s, k)| && Front(s, k)[j] == e;
    }
  }

  /** Nothing of the back part is in the way inside an ear of the front part. */
  lemma {:induction false} EarMissesBack(s: seq<Pt>, k: nat, a: Pt, b: Pt, p: Pt, e: Pt, n: Pt, x: Pt)
    requires Halves(s, k, a, b) && IsEar(s, p, e, n) && IsEar(Front(s, k), p, e, n) && e != s[0] && e != s[k]
    requires Within(p, e, n, x)
    ensures Misses(Back(s, k), x, e)
  {
    hide EarBeside;
    var f, r, z, m := Front(s, k), Back(s, k), s[k], s[0];
    EarZone(s, p, e, n);
    EarZone(f, p, e, n);
    WithinCorner(p, e, n, x);
    TipIn(p, e, n);
    CornerCrosses(p, e, n);
    BackPart(s, k);
    EdgeAt(f, k);
    EdgeEnds(f, p, e);
    EdgeEnds(s, p, e);
    assert e !in r by {
      var i :| 0 <= i < |f| && f[i] == e;
      assert s[i] == e && 0 < i < k;
    }
    hide Simple, On, Cross, InCorner, Winding, IsEar, Good, Reach;
    forall c, d, w | IsEdge(r, c, d) && On(c, d, w) && On(x, e, w) ensures false {
      InCornerMix(p, e, n, x, e, w);
      SideOfMix(n, p, x, e, w);
      if c == m && d == z {
        OnBack(m, z, w);
        ZoneFree(f, p, e, n, p, n, z, m, w);
      } else {
        ZoneFree(s, p, e, n, p, n, c, d, w);
      }
    }
  }

  /** The whole winds once round an ear of the front part. */
  lemma {:induction false} FrontEarWinds(s: seq<Pt>, k: nat, a: Pt, b: Pt, p: Pt, e: Pt, n: Pt) returns (x: Pt)
    requires Halves(s, k, a, b) && IsEar(s, p, e, n) && IsEar(Front(s, k), p, e, n) && e != s[0] && e != s[k]
    ensures Within(p, e, n, x) && Winding(s, x) == 1
  {
    hide EarBeside;
    var h;
    h, x := SomeWithin(p, e, n, 0.5);
    hide Mix, Cross, Winding;
    WithinCorner(p, e, n, x);
    WithinOff(Front(s, k), p, e, n, x);
    EarInside(Front(s, k), p, e, n, x);
    EarMissesBack(s, k, a, b, p, e, n, x);
    MissesSteady(Back(s, k), x, e);
    EdgeEnds(Front(s, k), p, e);
    var i: nat :| i < |Front(s, k)| && Front(s, k)[i] == e;
    BackOutside(s, k, a, b, i);
    WindingSplit(s, k, x);
  }

  // ---------------------------------------------------------------- where the list starts

  lemma {:induction false} TurnedEar(s: seq<Pt>, k: nat, a: Pt, e: Pt, b: Pt)
    requires k < |s|
    ensures IsEar(Turned(s, k), a, e, b) <==> IsEar(s, a, e, b)
  {
    TurnedEdges(s, k, a, e);
    TurnedEdges(s, k, e, b);
    forall v ensures v in Turned(s, k) <==> v in s { TurnedMembers(s, k, v); }
    hide Turned, IsEdge, InCorner, Cross;
  }

  lemma {:induction false} TurnedBack(s: seq<Pt>, k: nat)
    requires k < |s|
    ensures Turned(Turned(s, k), if k == 0 then 0 else |s| - k) == s
  {
  }

  lemma {:induction false} TurnedBeside(s: seq<Pt>, k: nat)
    requires k < |s| && EarBeside(s)
    ensures EarBeside(Turned(s, k))
  {
    var r := Turned(s, k);
    hide EarBeside, IsEar, IsEdge, Turned;
    forall u, v | IsEdge(r, u, v) ensures exists a, e, b :: IsEar(r, a, e, b) && e != u && e != v {
      TurnedEdges(s, k, u, v);
      var a, e, b := EarOff(s, u, v);
      TurnedEar(s, k, a, e, b);
    }
    EarBesideIf(r);
  }

  lemma {:induction false} EarBesideIf(r: seq<Pt>)
    requires forall u, v :: IsEdge(r, u, v) ==> exists a, e, b :: IsEar(r, a, e, b) && e != u && e != v
    ensures EarBeside(r)
  {
    hide IsEar, IsEdge;
  }

  lemma {:induction false} TurnedGood(s: seq<Pt>, k: nat)
    requires k < |s| && Simple(s)
    ensures Good(Turned(s, k)) <==> Good(s)
  {
    TurnedSimple(s, k);
    TurnedBack(s, k);
    hide EarBeside, Simple, OnceRound, Turned;
    if EarBeside(s) { TurnedBeside(s, k); }
    if EarBeside(Turned(s, k)) { TurnedBeside(Turned(s, k), if k == 0 then 0 else |s| - k); }
  }

  /** Some start is the leftmost, lowest vertex. */
  lemma {:induction false} LeastIndex(s: seq<Pt>, n: nat) returns (k: nat)
    requires 0 < n <= |s| && forall i, j :: 0 <= i < j < |s| ==> s[i] != s[j]
    ensures k < n && forall i :: 0 <= i < n && i != k ==> Before(s[k], s[i])
  {
    k := 0;
    if n > 1 {
      k := LeastIndex(s, n - 1);
      if Before(s[n - 1], s[k]) { k := n - 1; }
    }
  }

  lemma {:induction false} TurnedLeast(s: seq<Pt>) returns (k: nat)
    requires Simple(s)
    ensures k < |s| && FirstLeast(Turned(s, k)) && Simple(Turned(s, k))
  {
    k := LeastIndex(s, |s|);
    TurnedSimple(s, k);
    var r := Turned(s, k);
    assert r[0] == s[k];
    forall v | v in r[1..] ensures Before(r[0], v) {
      var i :| 0 <= i < |r| - 1 && r[1..][i] == v;
      assert v == s[if i + 1 + k < |s| then i + 1 + k else i + 1 + k - |s|];
    }
  }

  /** At the leftmost, lowest vertex of a simple polygon the edges are not in line. */
  lemma {:induction false} LeastTurns(s: seq<Pt>)
    requires Simple(s) && FirstLeast(s)
    ensures Cross(s[|s| - 1], s[0], s[1]) != 0.0
  {
    var p, m, n := s[|s| - 1], s[0], s[1];
    assert p in s[1..] && n in s[1..];
    EdgeAt(s, |s| - 1);
    EdgeAt(s, 0);
    if Cross(p, m, n) == 0.0 {
      InLine(m, p, n);
      if On(m, p, n) {
        OnBack(m, p, n);
        VertexOnEdge(s, n, p, m);
      } else {
        VertexOnEdge(s, p, m, n);
      }
    }
  }

  lemma {:induction false} InLine(m: Pt, p: Pt, n: Pt)
    requires Cross(p, m, n) == 0.0 && Before(m, p) && Before(m, n)
    ensures On(m, p, n) || On(m, n, p)
  {
    var u, v, x, y := p.x - m.x, p.y - m.y, n.x - m.x, n.y - m.y;
    assert v * x == u * y;
    if u == 0.0 || x == 0.0 {
      if u == 0.0 { Signs(v, x); } else { Signs(u, y); }
      assert u == 0.0 && x == 0.0;
      if y <= v { Between(m, p, n, y, v); } else { Between(m, n, p, v, y); }
    } else {
      if x <= u { Between(m, p, n, x, u); } else { Between(m, n, p, u, x); }
    }
  }

  lemma {:induction false} Between(m: Pt, p: Pt, n: Pt, f: real, g: real)
    requires 0.0 < f <= g
    requires g * (n.x - m.x) == f * (p.x - m.x) && g * (n.y - m.y) == f * (p.y - m.y)
    ensures On(m, p, n)
  {
    var t := Quotient(f, g);
    Divided(g, n.x - m.x, f, p.x - m.x, t);
    Divided(g, n.y - m.y, f, p.y - m.y, t);
    assert n == Mix(m, p, t);
    OnMix(m, p, t);
  }

  // ---------------------------------------------------------------- the theorem

  lemma {:induction false} BlockedCorner(s: seq<Pt>) returns (i: nat)
    requires LeftAtLeast(s) && |s| >= 4 && !IsEar(s, s[|s| - 1], s[0], s[1])
    ensures i < |s| && Blocks(s, i)
  {
    EdgeAt(s, |s| - 1);
    EdgeAt(s, 0);
    var v :| v in s && v != s[|s| - 1] && v != s[0] && v != s[1] && InCorner(s[|s| - 1], s[0], s[1], v);
    i :| 0 <= i < |s| && s[i] == v;
  }

  lemma {:induction false} HalvesLeft(s: seq<Pt>, k: nat)
    requires LeftAtLeast(s) && Blocks(s, k) && Simple(Front(s, k)) && Simple(Back(s, k))
    ensures LeftAtLeast(Front(s, k)) && LeftAtLeast(Back(s, k))
  {
    BlocksInside(s, k);
    assert forall v <- Front(s, k)[1..] :: v in s[1..];
    assert forall v <- Back(s, k)[1..] :: v in s[1..];
    var z, m, n := s[k], s[0], s[1];
    assert Cross(z, m, n) == Cross(m, n, z);
  }

  /** A simple polygon that turns left at its leftmost, lowest vertex is counter-clockwise, and
      has an ear away from any edge. */
  lemma {:induction false} LeftIsGood(s: seq<Pt>)
    requires LeftAtLeast(s)
    ensures Good(s)
    decreases |s|, 0
  {
    hide EarBeside, OnceRound, Cross;
    if |s| == 3 {
      TriangleWinds(s);
      TriangleHasEars(s);
    } else if IsEar(s, s[|s| - 1], s[0], s[1]) {
      CutSimple(s);
      OneWayRound(s[1..]);
      WindingBefore(s[1..], s[0]);
      EarCornerGood(s);
    } else {
      var i := BlockedCorner(s);
      var k := Farthest(s, |s|, i);
      var a, b := FarthestReach(s, k);
      FrontPart(s, k);
      BackPart(s, k);
      PartSimple(s, k, a, b, Front(s, k), k);
      PartSimple(s, k, a, b, Back(s, k), 0);
      HalvesLeft(s, k);
      LeftIsGood(Front(s, k));
      LeftIsGood(Back(s, k));
      HalvesBeside(s, k, a, b);
      var p, e, n := FrontEar(s, k, a, b);
      var x := FrontEarWinds(s, k, a, b, p, e, n);
      var j := EarIndex(s, p, e, n);
      var t := Turned(s, j);
      CutSimple(t);
      OneWayRound(t[1..]);
      WindingTurned(s, j, x);
      PutBack(t, x);
      TurnedSimple(s, j);
    }
  }

  lemma {:induction false} EarCornerGood(s: seq<Pt>)
    requires AtEar(s) && Winding(s[1..], s[0]) == 0 && (Good(s[1..]) || Good(Backward(s[1..])))
    ensures Good(s)
  {
    hide EarBeside, IsEar;
    var x := TipUnwound(s);
    PutBack(s, x);
    forall u, v | IsEdge(s, u, v) ensures exists a, e, b :: IsEar(s, a, e, b) && e != u && e != v {
      var a, e, b := EarsBeyondChord(s, u, v);
    }
    EarBesideIf(s);
  }

  lemma {:induction false} HalvesBeside(s: seq<Pt>, k: nat, a: Pt, b: Pt)
    requires Halves(s, k, a, b)
    ensures EarBeside(s)
  {
    hide EarBeside, IsEar, IsEdge, Halves;
    forall u, v | IsEdge(s, u, v) ensures exists p, e, n :: IsEar(s, p, e, n) && e != u && e != v {
      var p, e, n := HalvesEar(s, k, a, b, u, v);
    }
    EarBesideIf(s);
  }

  /** Where an ear's tip is, so that the polygon can be turned to start there. */
  lemma {:induction false} EarIndex(s: seq<Pt>, a: Pt, e: Pt, b: Pt) returns (k: nat)
    requires |s| >= 4 && Simple(s) && IsEar(s, a, e, b)
    ensures k < |s| && s[k] == e && AtEar(Turned(s, k))
    ensures var t := Turned(s, k); t[|t| - 1] == a && t[0] == e && t[1] == b
  {
    k :| 0 <= k < |s| && s[k] == e && After(s, k) == b;
    var t := Turned(s, k);
    TurnedSimple(s, k);
    TurnedEar(s, k, a, e, b);
    TurnedEdges(s, k, a, e);
    TurnedEdges(s, k, e, b);
    assert t[0] == e;
    EdgeAt(t, 0);
    EdgeAt(t, |t| - 1);
    EdgeEnds(t, a, e);
    EdgeEnds(t, e, b);
    hide Turned, InCorner, Cross, On;
  }

  /** Every simple polygon is counter-clockwise, or is so walked the other way; and then has
      an ear away from any edge. */
  lemma {:induction false} OneWayRound(s: seq<Pt>)
    requires Simple(s)
    ensures Good(s) || Good(Backward(s))
    decreases |s|, 1
  {
    hide Good, Cross;
    var k := TurnedLeast(s);
    var t := Turned(s, k);
    LeastTurns(t);
    if Cross(t[|t| - 1], t[0], t[1]) > 0.0 {
      LeftIsGood(t);
      TurnedGood(s, k);
    } else {
      var u := TurnedBackward(s, k);
      LeftIsGood(Turned(Backward(s), u));
      BackwardSimple(s);
      TurnedGood(Backward(s), u);
    }
  }

  /** Walked the other way, a right turn at the leftmost, lowest vertex is a left turn. */
  lemma {:induction false} TurnedBackward(s: seq<Pt>, k: nat) returns (u: nat)
    requires Simple(s) && k < |s|
    requires var t := Turned(s, k); FirstLeast(t) && Cross(t[|t| - 1], t[0], t[1]) < 0.0
    ensures u < |s| && LeftAtLeast(Turned(Backward(s), u))
  {
    var n, t := |s|, Turned(s, k);
    u := n - 1 - k;
    var r := Turned(Backward(s), u);
    BackwardSimple(s);
    TurnedSimple(Backward(s), u);
    assert r[0] == t[0] && forall i :: 1 <= i < n ==> r[i] == t[n - i];
    assert Cross(t[1], t[0], t[n - 1]) == -Cross(t[n - 1], t[0], t[1]);
    forall v | v in r[1..] ensures Before(r[0], v) {
      var i :| 0 <= i < n - 1 && r[1..][i] == v;
      assert t[1..][n - 2 - i] == v;
    }
  }
}
