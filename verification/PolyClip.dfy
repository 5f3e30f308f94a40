// Ear clipping a simple polygon: it never stalls, keeps the whole area, and its triangles
// tile the inside.
module PolyClip {
  import opened GeoTriangulate
  import opened PolyWinding
  import opened PolySimple
  import opened PolyCorner
  import opened PolyEars
  import opened PolyTwoEars

  /** A loop's points. */
  function Points(poly: seq<Pt>, loop: seq<nat>): (s: seq<Pt>)
    requires InRange(poly, loop)
    ensures |s| == |loop|
  {
    seq(|loop|, k requires 0 <= k < |loop| => poly[loop[k]])
  }

  lemma {:induction false} PointsAll(poly: seq<Pt>)
    ensures InRange(poly, Identity(|poly|)) && Points(poly, Identity(|poly|)) == poly
    ensures InRange(poly, Reversed(Identity(|poly|))) && Points(poly, Reversed(Identity(|poly|))) == Backward(poly)
  {
  }

  // ---------------------------------------------------------------- orientation

  lemma {:induction false} LeftPoint(a: Pt, b: Pt) returns (g: Pt)
    requires a != b
    ensures Cross(a, b, g) > 0.0
  {
    g := Pt(a.x - (b.y - a.y), a.y + (b.x - a.x));
    AlongEnds(a, b);
    assert Cross(a, b, g) == Along(a, b, b);
  }

  /** A simple polygon that winds once round its inside has ears enough. */
  lemma {:induction false} OnceRoundIsGood(s: seq<Pt>)
    requires Simple(s) && OnceRound(s)
    ensures Good(s)
  {
    hide EarBeside, Cross, Mix, Winding;
    OneWayRound(s);
    if Good(Backward(s)) {
      EdgeAt(s, 0);
      EdgeEnds(s, s[0], After(s, 0));
      var g := LeftPoint(s[0], After(s, 0));
      var h, t := Sides(s, 0, g);
      BackwardSimple(s);
      WindingBackward(s, Mix(h, g, t));
    }
  }

  // ---------------------------------------------------------------- ears of the loop

  lemma {:induction false} InTriIsCorner(p: Pt, a: Pt, e: Pt, b: Pt)
    requires Cross(a, e, b) > 0.0
    ensures PointInTri(p, a, e, b) <==> InCorner(a, e, b, p)
  {
    Weights(a, e, b, p);
    assert Cross(p, a, e) == Cross(a, e, p) && Cross(p, e, b) == Cross(e, b, p) && Cross(p, b, a) == Cross(b, a, p);
    hide Cross;
  }

  function PlaceBefore(n: nat, i: nat): nat
    requires i < n
  {
    if i == 0 then n - 1 else i - 1
  }

  lemma {:induction false} CornerPlaces(poly: seq<Pt>, loop: seq<nat>, i: nat, k: nat)
    requires InRange(poly, loop) && i < |loop| && k < |loop| && Simple(Points(poly, loop))
    ensures var s, t := Points(poly, loop), Corner(loop, i);
      loop[k] == t.a || loop[k] == t.b || loop[k] == t.c <==> s[k] == poly[t.a] || s[k] == poly[t.b] || s[k] == poly[t.c]
  {
    hide Simple;
    SamePlace(poly, loop, k, i);
    SamePlace(poly, loop, k, PlaceBefore(|loop|, i));
    SamePlace(poly, loop, k, if i + 1 == |loop| then 0 else i + 1);
  }

  /** No other vertex in the corner's triangle, in the loop's terms and in the polygon's. */
  lemma {:induction false} EmptyIsEmpty(poly: seq<Pt>, loop: seq<nat>, i: nat)
    requires InRange(poly, loop) && i < |loop| && Simple(Points(poly, loop))
    requires var t := Corner(loop, i); Cross(poly[t.a], poly[t.b], poly[t.c]) > 0.0
    ensures var s, t := Points(poly, loop), Corner(loop, i); var a, e, b := poly[t.a], poly[t.b], poly[t.c];
      CornerEmpty(poly, loop, t) <==> forall v <- s :: v == a || v == e || v == b || !InCorner(a, e, b, v)
  {
    var s, t := Points(poly, loop), Corner(loop, i);
    assert TriInRange(poly, t);
    hide Cross, InCorner, PointInTri, Simple, Corner;
    var a, e, b := poly[t.a], poly[t.b], poly[t.c];
    forall k | 0 <= k < |loop|
      ensures PointInTri(poly[loop[k]], a, e, b) <==> InCorner(a, e, b, s[k])
      ensures loop[k] == t.a || loop[k] == t.b || loop[k] == t.c <==> s[k] == a || s[k] == e || s[k] == b
    {
      InTriIsCorner(s[k], a, e, b);
      CornerPlaces(poly, loop, i, k);
    }
    assert forall k :: 0 <= k < |s| ==> s[k] in s;
  }

  /** The ear test on a loop is the polygon's own notion of an ear. */
  lemma {:induction false} EarIsEar(poly: seq<Pt>, loop: seq<nat>, i: nat)
    requires InRange(poly, loop) && i < |loop| && Simple(Points(poly, loop))
    ensures var s, t := Points(poly, loop), Corner(loop, i);
      Ear(poly, loop, i) <==> IsEar(s, poly[t.a], poly[t.b], poly[t.c])
  {
    hide Cross, InCorner, CornerEmpty, Simple;
    var s, t, j := Points(poly, loop), Corner(loop, i), PlaceBefore(|loop|, i);
    EdgeAt(s, i);
    EdgeAt(s, j);
    assert After(s, i) == poly[t.c] && s[j] == poly[t.a] && After(s, j) == s[i];
    if Cross(poly[t.a], poly[t.b], poly[t.c]) > 0.0 { EmptyIsEmpty(poly, loop, i); }
  }

  lemma {:induction false} SamePlace(poly: seq<Pt>, loop: seq<nat>, j: nat, k: nat)
    requires InRange(poly, loop) && j < |loop| && k < |loop| && Simple(Points(poly, loop))
    ensures loop[j] == loop[k] <==> Points(poly, loop)[j] == Points(poly, loop)[k]
  {
    var s := Points(poly, loop);
    assert s[j] != s[k] || j == k;
  }

  lemma {:induction false} SomeEar(poly: seq<Pt>, loop: seq<nat>)
    requires InRange(poly, loop) && |loop| >= 3 && Simple(Points(poly, loop)) && Good(Points(poly, loop))
    ensures FirstEar(poly, loop, 0) < |loop|
  {
    hide EarBeside, IsEar, Simple, Ear;
    var s := Points(poly, loop);
    EdgeAt(s, 0);
    var a, e, b := EarOff(s, s[0], After(s, 0));
    EarPlace(poly, loop, a, e, b);
  }

  lemma {:induction false} EarPlace(poly: seq<Pt>, loop: seq<nat>, a: Pt, e: Pt, b: Pt)
    requires InRange(poly, loop) && Simple(Points(poly, loop)) && IsEar(Points(poly, loop), a, e, b)
    ensures exists i :: 0 <= i < |loop| && Ear(poly, loop, i)
  {
    var s := Points(poly, loop);
    var i: nat :| i < |s| && s[i] == e && After(s, i) == b;
    var t := Corner(loop, i);
    EarIsEar(poly, loop, i);
    EdgeAt(s, i);
    var j := if i == 0 then |s| - 1 else i - 1;
    assert s[j] == poly[t.a] && After(s, j) == e;
    EdgeAt(s, j);
    EdgeEnds(s, a, e);
    EdgeEnds(s, e, b);
    hide IsEar, Simple, Ear;
  }

  /** Removing a loop's ear is cutting the ear off the polygon. */
  lemma {:induction false} RemovedPoints(poly: seq<Pt>, loop: seq<nat>, i: nat)
    requires InRange(poly, loop) && i < |loop| && |loop| >= 4
    ensures InRange(poly, RemoveAt(loop, i))
    ensures var s, r := Points(poly, loop), Points(poly, RemoveAt(loop, i));
      Turned(s, i)[1..] == Turned(r, if i < |r| then i else 0)
  {
    RemovedInRange(poly, loop, i);
  }

  /** Clipping an ear leaves a simple loop that winds the same way. */
  lemma {:induction false} ClippedGood(poly: seq<Pt>, loop: seq<nat>, i: nat)
    requires InRange(poly, loop) && |loop| >= 4 && i < |loop| && Ear(poly, loop, i)
    requires Simple(Points(poly, loop)) && OnceRound(Points(poly, loop))
    ensures InRange(poly, RemoveAt(loop, i))
    ensures var r := Points(poly, RemoveAt(loop, i)); Simple(r) && OnceRound(r)
  {
    var s := Points(poly, loop);
    EarTurned(poly, loop, i);
    TurnedSimple(s, i);
    var t := Turned(s, i);
    CutSimple(t);
    CutOnceRound(t);
    RemovedPoints(poly, loop, i);
    hide Simple, OnceRound, Turned, AtEar;
    var r := Points(poly, RemoveAt(loop, i));
    TurnedHome(r, if i < |r| then i else 0);
  }

  lemma {:induction false} TurnedHome(r: seq<Pt>, k: nat)
    requires k < |r| && Simple(Turned(r, k)) && OnceRound(Turned(r, k))
    ensures Simple(r) && OnceRound(r)
  {
    TurnedBack(r, k);
    TurnedSimple(Turned(r, k), if k == 0 then 0 else |r| - k);
  }

  lemma {:induction false} EarTurned(poly: seq<Pt>, loop: seq<nat>, i: nat)
    requires InRange(poly, loop) && |loop| >= 4 && i < |loop| && Ear(poly, loop, i) && Simple(Points(poly, loop))
    ensures var s, c := Turned(Points(poly, loop), i), Corner(loop, i);
      AtEar(s) && s[|s| - 1] == poly[c.a] && s[0] == poly[c.b] && s[1] == poly[c.c]
  {
    var s, c := Points(poly, loop), Corner(loop, i);
    EarIsEar(poly, loop, i);
    TurnedSimple(s, i);
    TurnedEar(s, i, poly[c.a], poly[c.b], poly[c.c]);
  }

  /** The last triangle of a counter-clockwise run. */
  lemma {:induction false} LastTriangle(poly: seq<Pt>, loop: seq<nat>)
    requires InRange(poly, loop) && |loop| == 3 && Simple(Points(poly, loop)) && OnceRound(Points(poly, loop))
    ensures Cross(poly[loop[0]], poly[loop[1]], poly[loop[2]]) > 0.0
    ensures LoopShoe(poly, loop) == Cross(poly[loop[0]], poly[loop[1]], poly[loop[2]])
  {
    var s := Points(poly, loop);
    OnceRoundIsGood(s);
    SomeEar(poly, loop);
    var i := FirstEar(poly, loop, 0);
    CornerCrosses(s[0], s[1], s[2]);
    assert Cross(s[2], s[0], s[1]) == Cross(s[0], s[1], s[2]) == Cross(s[1], s[2], s[0]);
    TriangleArea(poly, loop);
    hide Cross, FirstEar, Simple, OnceRound, Good, LoopShoe;
  }

  lemma {:induction false} TriangleArea(poly: seq<Pt>, loop: seq<nat>)
    requires InRange(poly, loop) && |loop| == 3
    ensures LoopShoe(poly, loop) == Cross(poly[loop[0]], poly[loop[1]], poly[loop[2]])
  {
    CrossIsShoe(poly[loop[0]], poly[loop[1]], poly[loop[2]]);
    assert loop[..2][..1] == loop[..1];
    assert PathShoe(poly, loop[..1]) == 0.0;
    assert PathShoe(poly, loop[..2]) == Shoe(poly[loop[0]], poly[loop[1]]);
  }

  // ---------------------------------------------------------------- the run

  /** Clipping a simple counter-clockwise loop never stalls: it comes down to one triangle,
      itself counter-clockwise, and so the loop's area is positive. */
  lemma {:induction false} SimpleCompletes(poly: seq<Pt>, loop: seq<nat>)
    requires InRange(poly, loop) && Simple(Points(poly, loop)) && OnceRound(Points(poly, loop))
    ensures Completed(poly, loop) && LoopShoe(poly, Clip(poly, loop).1) > 0.0 && LoopShoe(poly, loop) > 0.0
    decreases |loop|
  {
    if |loop| == 3 {
      LastTriangle(poly, loop);
    } else {
      OnceRoundIsGood(Points(poly, loop));
      SomeEar(poly, loop);
      var i := FirstEar(poly, loop, 0);
      ClippedGood(poly, loop, i);
      SimpleCompletes(poly, RemoveAt(loop, i));
      CornerArea(poly, loop, i);
      hide Simple, OnceRound, Good, LoopShoe, Cross, FirstEar, RemoveAt;
    }
  }

  /** A simple polygon's area says which way it runs. */
  lemma {:induction false} AreaTells(poly: seq<Pt>)
    requires Simple(poly)
    ensures var area := LoopShoe(poly, Identity(|poly|));
      (area > 0.0 <==> OnceRound(poly)) && (area < 0.0 <==> OnceRound(Backward(poly)))
  {
    var all := Identity(|poly|);
    PointsAll(poly);
    OneWayRound(poly);
    BackwardSimple(poly);
    ReversedArea(poly, all);
    hide Simple, LoopShoe, EarBeside;
    if OnceRound(poly) { SimpleCompletes(poly, all); }
    if OnceRound(Backward(poly)) { SimpleCompletes(poly, Reversed(all)); }
  }

  // ---------------------------------------------------------------- clean simple polygons

  /** The starting loop of a clean simple polygon: all of it, counter-clockwise. */
  lemma {:induction false} CleanStart(poly: seq<Pt>, eps: real)
    requires Simple(poly) && Clean(poly, eps)
    ensures var start := Start(poly, eps);
      |start| == |poly| && Simple(Points(poly, start)) && OnceRound(Points(poly, start))
    ensures var all := Identity(|poly|); Start(poly, eps) == if LoopShoe(poly, all) < 0.0 then Reversed(all) else all
  {
    StartLoop(poly, eps);
    PointsAll(poly);
    AreaTells(poly);
    BackwardSimple(poly);
    OneWayRound(poly);
    hide Simple, OnceRound, EarBeside, Start, Clean, LoopShoe;
  }

  lemma {:induction false} CoveredExactly(poly: seq<Pt>, start: seq<nat>)
    requires InRange(poly, start) && Completed(poly, start) && LoopShoe(poly, Clip(poly, start).1) > 0.0
    ensures |start| >= 3 && CoveredBy(poly, start) == LoopShoe(poly, start) / 2.0
  {
    AreaConserved(poly, start);
    TriangleArea(poly, Clip(poly, start).1);
    CompletedRun(poly, start);
    hide Clip, LoopShoe, Cross, SumCross;
  }

  /** A run that comes down to a counter-clockwise triangle passes the coverage test. */
  lemma {:induction false} ExactMatches(poly: seq<Pt>, start: seq<nat>, ext: real)
    requires InRange(poly, start) && Completed(poly, start) && LoopShoe(poly, Clip(poly, start).1) > 0.0
    requires LoopShoe(poly, start) == AbsReal(LoopShoe(poly, Identity(|poly|)))
    ensures Matches(poly, start, ext)
  {
    CoveredExactly(poly, start);
    hide CoveredBy, LoopShoe, Completed, Clip;
    FloorSign(ext);
    hide FloorAt;
  }

  lemma {:induction false} FloorSign(ext: real)
    ensures FloorAt(ext) >= 0.0
  {
    var x := 0.0000001 * ext;
    Signs(AbsReal(x), AbsReal(x));
    assert AbsReal(x) * AbsReal(x) == x * x;
  }

  /** A clean simple polygon's run comes down to a counter-clockwise triangle. */
  lemma {:induction false} CleanRun(poly: seq<Pt>, eps: real)
    requires Simple(poly) && Clean(poly, eps)
    ensures var start := Start(poly, eps);
      && |start| == |poly| && Completed(poly, start) && LoopShoe(poly, Clip(poly, start).1) > 0.0
      && LoopShoe(poly, start) == AbsReal(LoopShoe(poly, Identity(|poly|)))
  {
    CleanStart(poly, eps);
    hide Simple, OnceRound, Clean, Start, Completed, LoopShoe, Clip, Identity, Reversed;
    SimpleCompletes(poly, Start(poly, eps));
    ReversedArea(poly, Identity(|poly|));
  }

  lemma {:induction false} CleanCap(poly: seq<Pt>) returns (start: seq<nat>)
    requires Simple(poly) && Clean(poly, Tolerance(poly))
    ensures start == Start(poly, Tolerance(poly)) && InRange(poly, start) && |start| == |poly|
    ensures Cap(poly) == Emitted(poly, start)
    ensures Covers(poly) <==> Matches(poly, start, Extent(poly))
  {
    assert |poly| >= 3;
    start := Start(poly, Tolerance(poly));
    CleanStart(poly, Tolerance(poly));
    hide Simple, OnceRound, Clean, Start, Emitted, Matches, Cap, Covers, IsExtent, ToleranceAt, InRange, Points;
    CapAt(poly, Extent(poly));
  }

  /** A clean simple polygon is cut into two triangles fewer than it has vertices, each
      counter-clockwise, together of exactly its area: it is never refused for coverage. */
  lemma {:induction false} SimpleCovers(poly: seq<Pt>)
    requires Simple(poly) && Clean(poly, Tolerance(poly))
    ensures Covers(poly) && |Cap(poly)| == |poly| - 2
    ensures SumCross(poly, Cap(poly)) == AbsReal(LoopShoe(poly, Identity(|poly|)))
    ensures forall t <- Cap(poly) :: TriCross(poly, t) > 0.0
  {
    var start := CleanCap(poly);
    CleanRun(poly, Tolerance(poly));
    CompletedRun(poly, start);
    PositiveTriangles(poly, start);
    assert |poly| >= 3;
    hide Simple, Clean, Completed, LoopShoe, Emitted, SumCross, Clip, TriCross, Cap, Covers, Matches, Start, Tolerance;
    ExactMatches(poly, start, Extent(poly));
  }

  lemma {:induction false} PositiveTriangles(poly: seq<Pt>, start: seq<nat>)
    requires InRange(poly, start) && Completed(poly, start) && LoopShoe(poly, Clip(poly, start).1) > 0.0
    ensures forall t <- Emitted(poly, start) :: TriCross(poly, t) > 0.0
  {
    AreaConserved(poly, start);
    TriangleArea(poly, Clip(poly, start).1);
    hide Clip, LoopShoe, Cross, SumCross;
  }

  // ---------------------------------------------------------------- tiling

  predicate InTriangle(poly: seq<Pt>, t: Tri, q: Pt)
    requires TriInRange(poly, t)
  {
    Within(poly[t.a], poly[t.b], poly[t.c], q)
  }

  /** On no triangle's side. */
  predicate OffTriangles(poly: seq<Pt>, ts: seq<Tri>, q: Pt)
    requires forall t <- ts :: TriInRange(poly, t)
  {
    forall t <- ts :: InTriangle(poly, t, q) || !InCorner(poly[t.a], poly[t.b], poly[t.c], q)
  }

  /** How many triangles hold a point. */
  function Holding(poly: seq<Pt>, ts: seq<Tri>, q: Pt): nat
    requires forall t <- ts :: TriInRange(poly, t)
  {
    if ts == [] then 0 else (if InTriangle(poly, ts[0], q) then 1 else 0) + Holding(poly, ts[1..], q)
  }

  lemma {:induction false} HoldingLast(poly: seq<Pt>, ts: seq<Tri>, t: Tri, q: Pt)
    requires (forall u <- ts :: TriInRange(poly, u)) && TriInRange(poly, t)
    ensures Holding(poly, ts + [t], q) == Holding(poly, ts, q) + if InTriangle(poly, t, q) then 1 else 0
  {
    if ts == [] {
      assert ts + [t] == [t];
    } else {
      assert (ts + [t])[1..] == ts[1..] + [t];
      HoldingLast(poly, ts[1..], t, q);
    }
    hide InTriangle;
  }

  lemma {:induction false} TriangleHolds(poly: seq<Pt>, t: Tri, q: Pt)
    requires TriInRange(poly, t) && TriCross(poly, t) > 0.0
    requires InTriangle(poly, t, q) || !InCorner(poly[t.a], poly[t.b], poly[t.c], q)
    ensures TriWinds(poly[t.a], poly[t.b], poly[t.c], q) == if InTriangle(poly, t, q) then 1 else 0
  {
    if InTriangle(poly, t, q) {
      WithinWinds(poly[t.a], poly[t.b], poly[t.c], q);
    } else {
      OutsideWinds(poly[t.a], poly[t.b], poly[t.c], q);
    }
  }

  /** Cutting one corner off a loop: the corner's triangle, and the rest. */
  lemma {:induction false} CornerWinds(poly: seq<Pt>, loop: seq<nat>, i: nat, q: Pt)
    requires InRange(poly, loop) && |loop| >= 4 && i < |loop|
    ensures InRange(poly, RemoveAt(loop, i))
    ensures var t := Corner(loop, i);
      Winding(Points(poly, loop), q) == Winding(Points(poly, RemoveAt(loop, i)), q) + TriWinds(poly[t.a], poly[t.b], poly[t.c], q)
  {
    RemovedPoints(poly, loop, i);
    var s, r := Points(poly, loop), Points(poly, RemoveAt(loop, i));
    var t := Turned(s, i);
    assert t[0] == s[i] && t[1] == After(s, i) && t[|t| - 1] == s[if i == 0 then |s| - 1 else i - 1];
    WindingTurned(s, i, q);
    WindingTurned(r, if i < |r| then i else 0, q);
    WindingCut(t, q);
  }

  /** Round any point off their sides, a loop winds as often as the run's ears hold it, and
      as often as the remaining loop winds round it. Any loop's run, completed or stalled. */
  lemma {:induction false} RunWinds(poly: seq<Pt>, loop: seq<nat>, q: Pt)
    requires InRange(poly, loop) && OffTriangles(poly, Clip(poly, loop).0, q)
    ensures var (ears, rest) := Clip(poly, loop);
      Winding(Points(poly, loop), q) == Holding(poly, ears, q) + Winding(Points(poly, rest), q)
    decreases |loop|
  {
    hide Winding, InTriangle, InCorner, TriWinds, Cross;
    var (ears, rest) := Clip(poly, loop);
    if ears != [] {
      var i := FirstEar(poly, loop, 0);
      RemovedInRange(poly, loop, i);
      var less := RemoveAt(loop, i);
      assert Clip(poly, loop) == ([Corner(loop, i)] + Clip(poly, less).0, Clip(poly, less).1);
      hide Clip, RemoveAt, Corner, FirstEar;
      assert ears[0] == Corner(loop, i) && ears[1..] == Clip(poly, less).0;
      assert forall t <- Clip(poly, less).0 :: t in ears;
      RunWinds(poly, less, q);
      CornerWinds(poly, loop, i, q);
      assert ears[0] in ears;
      TriangleHolds(poly, ears[0], q);
    }
  }

  /** The triangles of a clean simple polygon tile it: a point off the polygon and off their
      sides lies in exactly one of them when the polygon winds round it, in none otherwise. */
  lemma {:induction false} TrianglesTile(poly: seq<Pt>, q: Pt)
    requires Simple(poly) && Clean(poly, Tolerance(poly))
    requires Off(poly, q) && OffTriangles(poly, Cap(poly), q)
    ensures Holding(poly, Cap(poly), q) == if Winding(poly, q) == 0 then 0 else 1
  {
    var eps, all := Tolerance(poly), Identity(|poly|);
    var start := Start(poly, eps);
    CleanStart(poly, eps);
    SimpleCompletes(poly, start);
    BackwardSimple(poly);
    WindingBackward(poly, q);
    PointsAll(poly);
    assert Off(Points(poly, start), q);
    assert |Points(poly, start)| == |start| >= 3;
    hide Simple, Clean, Start, Tolerance, Winding, LoopShoe, Off;
    EmittedTiles(poly, start, q);
  }

  lemma {:induction false} EmittedTiles(poly: seq<Pt>, start: seq<nat>, q: Pt)
    requires InRange(poly, start) && Completed(poly, start) && LoopShoe(poly, Clip(poly, start).1) > 0.0
    requires OffTriangles(poly, Emitted(poly, start), q)
    ensures Holding(poly, Emitted(poly, start), q) == Winding(Points(poly, start), q)
  {
    var (ears, rest) := Clip(poly, start);
    var last := Tri(rest[0], rest[1], rest[2]);
    assert Emitted(poly, start) == ears + [last];
    assert forall t <- ears :: t in ears + [last];
    assert last in ears + [last];
    TriangleArea(poly, rest);
    TriPoints(poly, rest, q);
    hide Clip, Emitted, LoopShoe, InTriangle, InCorner, Cross, Winding, TriWinds, Points;
    RunWinds(poly, start, q);
    HoldingLast(poly, ears, last, q);
    TriangleHolds(poly, last, q);
  }

  lemma {:induction false} TriPoints(poly: seq<Pt>, rest: seq<nat>, q: Pt)
    requires InRange(poly, rest) && |rest| == 3
    ensures Winding(Points(poly, rest), q) == TriWinds(poly[rest[0]], poly[rest[1]], poly[rest[2]], q)
  {
    TriChain(poly[rest[0]], poly[rest[1]], poly[rest[2]], q);
    assert Points(poly, rest) == [poly[rest[0]], poly[rest[1]], poly[rest[2]]];
  }
}
