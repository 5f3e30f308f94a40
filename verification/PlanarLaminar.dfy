// Loops beside each other nest: of simple polygons that meet at points only and do not pass
// through each other, containment is transitive, two around a third are one in the other, and
// an inner one has less area.
module PlanarLaminar {
  import opened GeoTriangulate
  import opened PolyWinding
  import opened PolySimple
  import opened PolyTwoEars
  import opened PolyClip
  import opened PlanarCuts
  import opened PlanarArea
  import Profile = GeoProfile
  import Volume = GeoVolume

  function Area(ring: seq<Pt>): real { AbsReal(LoopShoe(ring, Identity(|ring|)) / 2.0) }

  // ---------------------------------------------------------------- polygons beside each other

  /** Every point on edges of both is one of `ts`. */
  ghost predicate MeetAt(p: seq<Pt>, q: seq<Pt>, ts: seq<Pt>) {
    forall a, b, c, d, w :: IsEdge(p, a, b) && IsEdge(q, c, d) && On(a, b, w) && On(c, d, w) ==> w in ts
  }

  /** What of `p`'s edges is off `q` is all inside it, or all outside. */
  ghost predicate Sided(p: seq<Pt>, q: seq<Pt>, inside: bool) {
    forall a, b, w :: IsEdge(p, a, b) && On(a, b, w) && Off(q, w) ==> (Winding(q, w) != 0 <==> inside)
  }

  /** The vertices of both and the points they meet at. */
  ghost predicate Charted(p: seq<Pt>, q: seq<Pt>, vs: seq<Pt>) {
    MeetAt(p, q, vs) && (forall v <- p :: v in vs) && forall v <- q :: v in vs
  }

  lemma {:induction false} ChartedBack(p: seq<Pt>, q: seq<Pt>, vs: seq<Pt>)
    requires Charted(p, q, vs)
    ensures Charted(q, p, vs)
  {
    hide On, IsEdge;
  }

  /** On a line through no charted point, a cut of one polygon is a point of it off the other. */
  lemma {:induction false} CutOff(p: seq<Pt>, q: seq<Pt>, vs: seq<Pt>, m: real, i: nat) returns (k: nat)
    requires Charted(p, q, vs) && Plain(vs, m) && i < |Cuts(p, m, |p|)|
    ensures var h := Pt(m, Cuts(p, m, |p|)[i].y);
      k < |p| && On(p[k], After(p, k), h) && Off(q, h) && Free(Cuts(q, m, |q|), h.y)
  {
    hide Cuts, On;
    k := CutsOn(p, m, |p|, i);
    var d, t := Cuts(q, m, |q|), Cuts(p, m, |p|)[i].y;
    EdgeAt(p, k);
    forall j | 0 <= j < |d| ensures d[j].y != t {
      if d[j].y == t {
        var l := CutsOn(q, m, |q|, j);
        EdgeAt(q, l);
      }
    }
    OffFree(q, m, t);
  }

  /** ... so what lies below it of the other tells the side. */
  lemma {:induction false} CutSide(p: seq<Pt>, q: seq<Pt>, vs: seq<Pt>, m: real, i: nat, inside: bool)
    requires Charted(p, q, vs) && Plain(vs, m) && i < |Cuts(p, m, |p|)| && Sided(p, q, inside)
    ensures var t := Cuts(p, m, |p|)[i].y; Free(Cuts(q, m, |q|), t) && (Beneath(Cuts(q, m, |q|), t) != 0 <==> inside)
  {
    hide Cuts, On, Charted, Winding;
    var k := CutOff(p, q, vs, m, i);
    EdgeAt(p, k);
    CutsWind(q, m, Cuts(p, m, |p|)[i].y);
  }

  lemma {:induction false} NoneUnder(c: seq<Cut>, d: seq<Cut>, y: real)
    requires Under(c + d, y) == []
    ensures (forall k :: 0 <= k < |c| ==> c[k].y >= y) && (forall k :: 0 <= k < |d| ==> d[k].y >= y)
  {
    var both := c + d;
    forall k | 0 <= k < |c| ensures c[k].y >= y { assert both[k] == c[k]; }
    forall k | 0 <= k < |d| ensures d[k].y >= y { assert both[|c| + k] == d[k]; }
  }

  lemma {:induction false} TopUnder(c: seq<Cut>, d: seq<Cut>, y: real, t: real)
    requires Under(c + d, y) != [] && t == Top(Under(c + d, y))
    ensures t < y
    ensures (forall k :: 0 <= k < |c| ==> !(t < c[k].y < y)) && (forall k :: 0 <= k < |d| ==> !(t < d[k].y < y))
    ensures (exists i: nat :: i < |c| && c[i].y == t) || (exists i: nat :: i < |d| && d[i].y == t)
  {
    var both, low := c + d, Under(c + d, y);
    forall k | 0 <= k < |both| && both[k].y < y ensures both[k].y <= t {
      var j :| 0 <= j < |low| && low[j] == both[k];
      assert low[j].y <= t;
    }
    forall k | 0 <= k < |c| ensures !(t < c[k].y < y) { assert both[k] == c[k]; }
    forall k | 0 <= k < |d| ensures !(t < d[k].y < y) { assert both[|c| + k] == d[k]; }
    var j :| 0 <= j < |low| && low[j].y == t;
    var k :| 0 <= k < |both| && both[k] == low[j];
    if k < |c| { assert c[k].y == t; } else { assert d[k - |c|].y == t; }
  }

  /** Two polygons and how each lies to the other, on a line through no charted point. */
  ghost predicate Beside(p: seq<Pt>, q: seq<Pt>, vs: seq<Pt>, m: real, pIn: bool, qIn: bool) {
    Charted(p, q, vs) && Plain(vs, m) && Sided(p, q, pIn) && Sided(q, p, qIn)
  }

  /** Going down from a point inside either, the first edge met tells the side of one. */
  lemma {:induction false} DownHit(p: seq<Pt>, q: seq<Pt>, vs: seq<Pt>, m: real, y: real, pIn: bool, qIn: bool)
    requires Beside(p, q, vs, m, pIn, qIn)
    requires Beneath(Cuts(p, m, |p|), y) != 0 || Beneath(Cuts(q, m, |q|), y) != 0
    ensures (Beneath(Cuts(q, m, |q|), y) != 0 <==> pIn) || (Beneath(Cuts(p, m, |p|), y) != 0 <==> qIn)
  {
    hide Cuts, Charted, Sided;
    var c, d := Cuts(p, m, |p|), Cuts(q, m, |q|);
    var low := Under(c + d, y);
    if low == [] {
      NoneUnder(c, d, y);
      BelowNone(c, y);
      BelowNone(d, y);
    } else {
      var t := Top(low);
      TopUnder(c, d, y, t);
      if i: nat :| i < |c| && c[i].y == t {
        CutSide(p, q, vs, m, i, pIn);
        BelowSame(d, t, y);
      } else {
        var i: nat :| i < |d| && d[i].y == t;
        ChartedBack(p, q, vs);
        CutSide(q, p, vs, m, i, qIn);
        BelowSame(c, t, y);
      }
    }
  }

  /** Two polygons are not each inside the other: above the topmost cut there is nothing. */
  lemma {:induction false} NotBoth(p: seq<Pt>, q: seq<Pt>, vs: seq<Pt>, m: real, pIn: bool, qIn: bool)
    requires Beside(p, q, vs, m, pIn, qIn) && (Cuts(p, m, |p|) != [] || Cuts(q, m, |q|) != [])
    ensures !pIn || !qIn
  {
    hide Cuts, Charted, Sided;
    var c, d := Cuts(p, m, |p|), Cuts(q, m, |q|);
    var both := c + d;
    var t := Top(both);
    forall k | 0 <= k < |c| ensures c[k].y <= t { assert both[k] == c[k]; }
    forall k | 0 <= k < |d| ensures d[k].y <= t { assert both[|c| + k] == d[k]; }
    var k :| 0 <= k < |both| && both[k].y == t;
    if k < |c| {
      assert c[k].y == t;
      CutSide(p, q, vs, m, k, pIn);
      BelowAll(d, t);
      CutsCancel(q, m);
    } else {
      assert d[k - |c|].y == t;
      ChartedBack(p, q, vs);
      CutSide(q, p, vs, m, k - |c|, qIn);
      BelowAll(c, t);
      CutsCancel(p, m);
    }
  }

  /** What an inner polygon winds round, the outer one does. */
  lemma {:induction false} InnerInside(p: seq<Pt>, q: seq<Pt>, vs: seq<Pt>, m: real, y: real, pIn: bool)
    requires Beside(p, q, vs, m, pIn, true) && Beneath(Cuts(q, m, |q|), y) != 0
    ensures Beneath(Cuts(p, m, |p|), y) != 0
  {
    hide Cuts, Beside;
    if Cuts(q, m, |q|) == [] { NoBelow(y); }
    NotBoth(p, q, vs, m, pIn, true);
    DownHit(p, q, vs, m, y, pIn, true);
  }

  // ---------------------------------------------------------------- three polygons

  /** The vertices of a simple polygon are not all on one upright line. */
  lemma {:induction false} NotOneLine(s: seq<Pt>)
    requires Simple(s)
    ensures exists i: nat, j: nat :: i < |s| && j < |s| && s[i].x != s[j].x
  {
    hide Simple, Cross;
    var l := TurnedLeast(s);
    var r := Turned(s, l);
    LeastTurns(r);
    var n := |s| - 1;
    UprightCross(r[n], r[0], r[1]);
    var at := (k: nat) => if k + l < |s| then k + l else k + l - |s|;
    assert r[n] == s[at(n)] && r[0] == s[at(0)] && r[1] == s[at(1)];
  }

  lemma {:induction false} UprightCross(a: Pt, b: Pt, c: Pt)
    ensures a.x == b.x == c.x ==> Cross(a, b, c) == 0.0
  {
  }

  /** If all edges up to vertex `k` are upright, it is above or below the first. */
  lemma {:induction false} UprightTo(s: seq<Pt>, k: nat)
    requires k < |s| && forall i: nat :: i < |s| ==> s[i].x == After(s, i).x
    ensures s[k].x == s[0].x
  {
    if k > 0 {
      UprightTo(s, k - 1);
      assert s[k - 1].x == After(s, k - 1).x;
    }
  }

  /** A simple polygon has an edge that is not upright. */
  lemma {:induction false} NotUpright(s: seq<Pt>) returns (k: nat)
    requires Simple(s)
    ensures k < |s| && s[k].x != After(s, k).x
  {
    NotOneLine(s);
    hide Simple;
    var i: nat, j: nat :| i < |s| && j < |s| && s[i].x != s[j].x;
    if forall l: nat :: l < |s| ==> s[l].x == After(s, l).x {
      UprightTo(s, i);
      UprightTo(s, j);
      assert false;
    }
    k :| k < |s| && s[k].x != After(s, k).x;
  }

  /** A line through no charted point that cuts the polygon. */
  lemma {:induction false} CutLine(p: seq<Pt>, vs: seq<Pt>) returns (m: real, k: nat)
    requires Simple(p) && forall v <- p :: v in vs
    ensures Plain(vs, m) && k < |p| && CutOf(p[k], After(p, k), m) != []
  {
    hide CutOf, Plain, Middle;
    k := NotUpright(p);
    hide Simple;
    assert p[k] in p && After(p, k) in p;
    var xs := Axis(vs);
    var j := Spanned(p[k], After(p, k), xs);
    MiddlePlain(vs, xs, j);
    m := Middle(xs, j);
  }

  /** The chart serves each two of three polygons. */
  ghost predicate AllCharted(p: seq<Pt>, q: seq<Pt>, r: seq<Pt>, vs: seq<Pt>) {
    Charted(p, q, vs) && Charted(p, r, vs) && Charted(q, r, vs)
  }

  /** Inside a polygon that is inside a third is inside the third. */
  lemma {:induction false} InnerOfInner(p: seq<Pt>, q: seq<Pt>, r: seq<Pt>, vs: seq<Pt>, pIn: bool, rIn: bool)
    requires Simple(p) && AllCharted(p, q, r, vs)
    requires Sided(p, q, true) && Sided(q, r, true) && Sided(r, q, rIn) && Sided(p, r, pIn)
    ensures pIn
  {
    hide Simple, Sided, Charted, Plain, Cuts, CutOf;
    var m, k := CutLine(p, vs) by { hide AllCharted; ChartedVertices(p, q, vs); }
    var i := CutsHave(p, m, |p|, k);
    var t := Cuts(p, m, |p|)[i].y;
    CutSide(p, q, vs, m, i, true);
    CutSide(p, r, vs, m, i, pIn);
    ChartedBack(q, r, vs);
    InnerInside(r, q, vs, m, t, rIn);
  }

  lemma {:induction false} ChartedVertices(p: seq<Pt>, q: seq<Pt>, vs: seq<Pt>)
    requires Charted(p, q, vs)
    ensures forall v <- p :: v in vs
  {
    hide MeetAt;
  }

  /** Two polygons round a third: one is inside the other. */
  lemma {:induction false} RoundOne(p: seq<Pt>, q: seq<Pt>, r: seq<Pt>, vs: seq<Pt>, qIn: bool, rIn: bool)
    requires Simple(p) && AllCharted(p, q, r, vs)
    requires Sided(p, q, true) && Sided(p, r, true) && Sided(q, r, qIn) && Sided(r, q, rIn)
    ensures qIn || rIn
  {
    hide Simple, Sided, Charted, Plain, Cuts, CutOf;
    var m, k := CutLine(p, vs) by { hide AllCharted; ChartedVertices(p, q, vs); }
    var i := CutsHave(p, m, |p|, k);
    var t := Cuts(p, m, |p|)[i].y;
    CutSide(p, q, vs, m, i, true);
    CutSide(p, r, vs, m, i, true);
    DownHit(q, r, vs, m, t, qIn, rIn);
  }

  // ---------------------------------------------------------------- the inner one is smaller

  /** One polygon inside another, both counter-clockwise. */
  ghost predicate InsideOf(p: seq<Pt>, q: seq<Pt>, vs: seq<Pt>, pIn: bool) {
    && Simple(p) && Simple(q) && OnceRound(p) && OnceRound(q)
    && Charted(p, q, vs) && Sided(p, q, pIn) && Sided(q, p, true)
  }

  /** The outer one winds nowhere less ... */
  lemma {:induction false} NowhereLess(p: seq<Pt>, q: seq<Pt>, vs: seq<Pt>, m: real, pIn: bool)
    requires InsideOf(p, q, vs, pIn) && Plain(vs, m)
    ensures WindsMore(p, q, m)
  {
    hide Cuts, Winding, Sided, Simple;
    forall y | Free(Cuts(p, m, |p|), y) && Free(Cuts(q, m, |q|), y) ensures Beneath(Cuts(q, m, |q|), y) <= Beneath(Cuts(p, m, |p|), y) {
      OffFree(p, m, y);
      OffFree(q, m, y);
      CutsWind(p, m, y);
      CutsWind(q, m, y);
      if Beneath(Cuts(q, m, |q|), y) != 0 { InnerInside(p, q, vs, m, y, pIn); }
    }
  }

  /** ... and more on one side of each of its edges. */
  lemma {:induction false} MoreBeside(p: seq<Pt>, q: seq<Pt>, vs: seq<Pt>, m: real, pIn: bool, k: nat)
    requires InsideOf(p, q, vs, pIn) && Plain(vs, m) && WindsMore(p, q, m)
    requires k < |p| && CutOf(p[k], After(p, k), m) != []
    ensures WindsMoreAt(p, q, m)
  {
    hide Cuts, Sided, Simple, CutOf, OnceRound, Beneath;
    var c, d := Cuts(p, m, |p|), Cuts(q, m, |q|);
    var i := CutsHave(p, m, |p|, k);
    var t := c[i].y;
    CutOn(p[k], After(p, k), m);
    NotBoth(p, q, vs, m, pIn, true);
    CutSide(p, q, vs, m, i, pIn);
    CutsApart(p, m, |p|);
    var y, z := BothSides(c, d, i, t);
    assert Beneath(d, y) <= Beneath(c, y) && Beneath(d, z) <= Beneath(c, z);
  }

  lemma {:induction false} MoreSomewhere(p: seq<Pt>, q: seq<Pt>, vs: seq<Pt>, pIn: bool, xs: seq<real>) returns (j: nat)
    requires InsideOf(p, q, vs, pIn) && AxisOf(xs, vs)
    ensures j + 1 < |xs| && WindsMoreAt(p, q, Middle(xs, j))
  {
    hide WindsMore, WindsMoreAt, Middle, Plain, CutOf, Sided, OnceRound;
    var k := NotUpright(p);
    hide Simple;
    assert p[k] in p && After(p, k) in p;
    j := Spanned(p[k], After(p, k), xs);
    MiddlePlain(vs, xs, j);
    NowhereLess(p, q, vs, Middle(xs, j), pIn);
    MoreBeside(p, q, vs, Middle(xs, j), pIn, k);
  }

  lemma {:induction false} InnerShoe(p: seq<Pt>, q: seq<Pt>, vs: seq<Pt>, pIn: bool)
    requires InsideOf(p, q, vs, pIn)
    ensures LoopShoe(q, Identity(|q|)) < LoopShoe(p, Identity(|p|))
  {
    hide InsideOf, WindsMore, WindsMoreAt, Middle, Plain, LoopShoe, Volume.Swept, SlabSum, Rising;
    InsideSome(p, q, vs, pIn);
    var xs := Axis(vs);
    assert AxisOf(xs, p) && AxisOf(xs, q);
    forall j: nat | j + 1 < |xs| ensures WindsMore(p, q, Middle(xs, j)) {
      MiddlePlain(vs, xs, j);
      NowhereLess(p, q, vs, Middle(xs, j), pIn);
    }
    var j := MoreSomewhere(p, q, vs, pIn, xs);
    AreaGrows(p, q, xs, |xs| - 1);
    SlabsMeasure(p, xs);
    SlabsMeasure(q, xs);
    Volume.SweptIsLoop(p);
    Volume.SweptIsLoop(q);
  }

  lemma {:induction false} InsideSome(p: seq<Pt>, q: seq<Pt>, vs: seq<Pt>, pIn: bool)
    requires InsideOf(p, q, vs, pIn)
    ensures p != [] && q != [] && vs != [] && (forall v <- p :: v in vs) && forall v <- q :: v in vs
  {
    hide MeetAt, Sided, OnceRound;
    assert p[0] in p;
  }

  /** Walking either polygon the other way changes nothing but the direction. */
  lemma {:induction false} ChartedTurned(p: seq<Pt>, q: seq<Pt>, vs: seq<Pt>)
    requires Charted(p, q, vs)
    ensures Charted(Backward(p), q, vs)
  {
    hide On, IsEdge;
    forall a, b, c, d, w | IsEdge(Backward(p), a, b) && IsEdge(q, c, d) && On(a, b, w) && On(c, d, w) ensures w in vs {
      BackwardEdges(p, a, b);
      OnBack(a, b, w);
    }
  }

  lemma {:induction false} SidedTurned(p: seq<Pt>, q: seq<Pt>, inside: bool)
    requires Simple(q) && Sided(p, q, inside)
    ensures Sided(Backward(p), q, inside) && Sided(p, Backward(q), inside)
  {
    hide On, IsEdge, Winding, Off, Simple;
    forall a, b, w | IsEdge(Backward(p), a, b) && On(a, b, w) && Off(q, w) ensures Winding(q, w) != 0 <==> inside {
      BackwardEdges(p, a, b);
      OnBack(a, b, w);
    }
    BackwardSimple(q);
    BackwardSimple(Backward(q));
    Profile.BackwardTwice(q);
    forall a, b, w | IsEdge(p, a, b) && On(a, b, w) && Off(Backward(q), w) ensures Winding(Backward(q), w) != 0 <==> inside {
      WindingBackward(q, w);
    }
  }

  /** The polygon walked counter-clockwise, and its area. */
  lemma {:induction false} Leftward(p: seq<Pt>) returns (r: seq<Pt>)
    requires Simple(p)
    ensures (r == p || r == Backward(p)) && Simple(r) && OnceRound(r) && LoopShoe(r, Identity(|r|)) == 2.0 * Area(p)
  {
    hide Simple, LoopShoe, EarBeside;
    r := p;
    OneWayRound(p);
    AreaTells(p);
    BackwardSimple(p);
    Profile.BackwardArea(p);
    if !OnceRound(p) { r := Backward(p); }
  }

  /** An inner polygon has less area, whichever way each runs. */
  lemma {:induction false} InnerLess(p: seq<Pt>, q: seq<Pt>, vs: seq<Pt>, pIn: bool)
    requires Simple(p) && Simple(q) && Charted(p, q, vs) && Sided(p, q, pIn) && Sided(q, p, true)
    ensures Area(q) < Area(p)
  {
    hide Simple, LoopShoe, Sided, Charted, OnceRound, Area;
    var p' := Leftward(p);
    var q' := Leftward(q);
    TurnedAlike(p, q, p', vs, pIn, true);
    ChartedBack(p', q, vs);
    TurnedAlike(q, p', q', vs, true, pIn);
    ChartedBack(q', p', vs);
    InnerShoe(p', q', vs, pIn);
  }

  lemma {:induction false} TurnedAlike(p: seq<Pt>, q: seq<Pt>, p': seq<Pt>, vs: seq<Pt>, pIn: bool, qIn: bool)
    requires Simple(p) && Simple(q) && Charted(p, q, vs) && Sided(p, q, pIn) && Sided(q, p, qIn) && (p' == p || p' == Backward(p))
    ensures Charted(p', q, vs) && Sided(p', q, pIn) && Sided(q, p', qIn)
  {
    hide Simple, Sided, Charted;
    ChartedTurned(p, q, vs);
    SidedTurned(p, q, pIn);
    SidedTurned(q, p, qIn);
  }
}
