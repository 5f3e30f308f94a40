// Profiles as the extrusion receives them: wound counter-clockwise first, so that a simple
// one closes exactly when it is clean; and one that is accepted and does not.
module GeoProfile {
  import opened GeoBudget
  import opened GeoTriangulate
  import opened GeoShell
  import opened GeoSolid
  import opened GeoVolume
  import opened PolyWinding
  import opened PolySimple
  import opened PolyClip

  // ---------------------------------------------------------------- winding

  method PolygonArea2D(p: seq<Pt>) returns (a: real)
    ensures a == LoopShoe(p, Identity(|p|)) / 2.0
  {
    a := 0.0;
    for i := 0 to |p|
      invariant a == Swept(p, i)
    {
      var j := (i + 1) % |p|;
      NextIsSucc(|p|, i);
      a := a + (p[i].x * p[j].y - p[j].x * p[i].y);
    }
    if p != [] { SweptIsLoop(p); }
    a := a / 2.0;
  }

  /** A loop's area is the area of its points as a polygon. */
  lemma {:induction false} PathOfPoints(poly: seq<Pt>, loop: seq<nat>, k: nat)
    requires InRange(poly, loop) && k <= |loop|
    ensures PathShoe(Points(poly, loop), Identity(|loop|)[..k]) == PathShoe(poly, loop[..k])
  {
    if k > 1 {
      PathOfPoints(poly, loop, k - 1);
      assert Identity(|loop|)[..k][..k - 1] == Identity(|loop|)[..k - 1] && loop[..k][..k - 1] == loop[..k - 1];
    }
  }

  /** Walked the other way, a polygon has the opposite area. */
  lemma {:induction false} BackwardArea(poly: seq<Pt>)
    ensures LoopShoe(Backward(poly), Identity(|poly|)) == -LoopShoe(poly, Identity(|poly|))
  {
    var n := |poly|;
    var all := Identity(n);
    var back := Reversed(all);
    PointsAll(poly);
    ReversedArea(poly, all);
    PathOfPoints(poly, back, n);
    assert all[..n] == all && back[..n] == back;
  }

  function CounterClockwise(poly: seq<Pt>): (r: seq<Pt>)
    ensures |r| == |poly|
  {
    if LoopShoe(poly, Identity(|poly|)) >= 0.0 then poly else Backward(poly)
  }

  /** The polygon, reversed when it is clockwise: never clockwise. */
  method EnsureCCW(poly: seq<Pt>) returns (out: seq<Pt>)
    ensures out == CounterClockwise(poly) && LoopShoe(out, Identity(|out|)) >= 0.0
  {
    BackwardArea(poly);
    var area := PolygonArea2D(poly);
    if area >= 0.0 {
      return poly;
    }
    out := [];
    for i := 0 to |poly|
      invariant out == Backward(poly[..i])
    {
      out := [poly[i]] + out;
      assert out == Backward(poly[..i + 1]);
    }
    assert poly[..|poly|] == poly;
  }

  /** Winding a polygon the other way keeps it simple and clean. */
  lemma {:induction false} SameOtherWay(poly: seq<Pt>, eps: real, i: nat, j: nat)
    requires i < |poly| && j < |poly|
    ensures var n := |poly|; Same(Backward(poly), eps, i, j) <==> Same(poly, eps, n - 1 - j, n - 1 - i)
  {
  }

  /** Points `d` places apart differ. */
  ghost predicate Apart(poly: seq<Pt>, eps: real, d: nat) {
    forall j: nat, k: nat :: j < k < |poly| && k - j == d ==> !Same(poly, eps, k, j)
  }

  lemma {:induction false} CleanIsApart(poly: seq<Pt>, eps: real)
    ensures Clean(poly, eps) <==>
      && Apart(poly, eps, 1) && Apart(poly, eps, 2)
      && var n := |poly|; n >= 3 ==> !Same(poly, eps, n - 1, 0) && !Same(poly, eps, n - 2, 0) && !Same(poly, eps, n - 1, 1)
  {
    hide Same;
    var n, all := |poly|, Identity(|poly|);
    if Clean(poly, eps) {
      forall j: nat, k: nat | j < k < n && k - j == 1 ensures !Same(poly, eps, k, j) { assert !Same(poly, eps, all[k], all[k - 1]); }
      forall j: nat, k: nat | j < k < n && k - j == 2 ensures !Same(poly, eps, k, j) { assert !Same(poly, eps, all[k], all[k - 2]); }
    }
  }

  lemma {:induction false} ApartBackward(poly: seq<Pt>, eps: real, d: nat)
    requires Apart(poly, eps, d)
    ensures Apart(Backward(poly), eps, d)
  {
    var n, r := |poly|, Backward(poly);
    hide Same;
    forall j: nat, k: nat | j < k < n && k - j == d ensures !Same(r, eps, k, j) { SameOtherWay(poly, eps, k, j); }
  }

  lemma {:induction false} CleanBackward(poly: seq<Pt>, eps: real)
    requires Clean(poly, eps)
    ensures Clean(Backward(poly), eps)
  {
    hide Same, Clean, Apart;
    CleanIsApart(poly, eps);
    CleanIsApart(Backward(poly), eps);
    ApartBackward(poly, eps, 1);
    ApartBackward(poly, eps, 2);
    var n := |poly|;
    if n >= 3 {
      SameOtherWay(poly, eps, n - 1, 0);
      SameOtherWay(poly, eps, n - 2, 0);
      SameOtherWay(poly, eps, n - 1, 1);
    }
  }

  lemma {:induction false} BackwardTwice(poly: seq<Pt>)
    ensures Backward(Backward(poly)) == poly
  {
  }

  lemma {:induction false} ExtentBackward(poly: seq<Pt>)
    requires poly != []
    ensures Tolerance(Backward(poly)) == Tolerance(poly)
  {
    var n, r, e := |poly|, Backward(poly), Extent(poly);
    forall i, j | 0 <= i < n && 0 <= j < n ensures r[i].x - r[j].x <= e && r[i].y - r[j].y <= e {
      assert poly[n - 1 - i] == r[i] && poly[n - 1 - j] == r[j];
    }
    var i, j :| 0 <= i < n && 0 <= j < n && (e == poly[i].x - poly[j].x || e == poly[i].y - poly[j].y);
    assert r[n - 1 - i] == poly[i] && r[n - 1 - j] == poly[j];
    assert IsExtent(r, e);
    ExtentUnique(r, e, Extent(r));
  }

  lemma {:induction false} EitherWay(poly: seq<Pt>)
    requires Simple(poly)
    ensures var ccw := CounterClockwise(poly); Simple(ccw) && (Clean(ccw, Tolerance(ccw)) <==> Clean(poly, Tolerance(poly)))
  {
    hide Simple, Clean, LoopShoe, Tolerance;
    assert poly != [] by { SimpleSome(poly); }
    BackwardSimple(poly);
    BackwardTwice(poly);
    ExtentBackward(poly);
    if Clean(poly, Tolerance(poly)) { CleanBackward(poly, Tolerance(poly)); }
    if Clean(Backward(poly), Tolerance(poly)) { CleanBackward(Backward(poly), Tolerance(poly)); }
  }

  lemma {:induction false} SimpleSome(poly: seq<Pt>)
    requires Simple(poly)
    ensures |poly| >= 3
  {
  }

  /** A profile extruded as read: wound counter-clockwise, then tessellated. A clean simple
      profile is refused only over the budget; and of any simple profile whose vertices weld to
      distinct keys, the mesh is a closed manifold exactly when the profile is clean. */
  method ExtrudeProfile(profile: seq<Pt>, depth: real, dir: V3, place: V3 -> V3, b: Budget?)
    returns (verts: seq<V3>, tris: seq<nat>, ok: bool)
    modifies b
    ensures ok ==> verts == Rings(CounterClockwise(profile), Times(dir, depth), place)
    ensures Simple(profile) && Clean(profile, Tolerance(profile)) && depth != 0.0 ==> ok == !Exhausted(b)
    ensures ok && Simple(profile) && DistinctKeys(WeldKeys(verts)) ==>
      (Closed(WeldKeys(verts), tris) <==> Clean(profile, Tolerance(profile)))
  {
    hide Simple, Clean, LoopShoe, Closed, DistinctKeys, WeldKeys, Rings, Covers, Tolerance;
    if Simple(profile) {
      SimpleSome(profile);
      EitherWay(profile);
    }
    var poly := EnsureCCW(profile);
    verts, tris, ok := ExtrudeSolid(poly, depth, dir, place, b);
  }

  /** A clean simple profile's mesh measures the profile's area times its height, scaled by its
      placement. */
  lemma {:induction false} SimpleVolume(poly: seq<Pt>, h: V3, m: Mat)
    requires Simple(poly) && Clean(poly, Tolerance(poly)) && LoopShoe(poly, Identity(|poly|)) >= 0.0
    ensures var ts := Shell(|poly|, Cap(poly));
      IndexesIn(ts, 2 * |poly|) && VolSum(Rings(poly, h, Placing(m)), ts) / 6.0 == Scaled(m, PrismOf(poly, h))
  {
    var eps := Tolerance(poly);
    SimpleSome(poly);
    hide Simple, Clean, LoopShoe, Balanced, Completed, Shell, Emitted, Tolerance, VolSum, Scaled, PrismOf, Start;
    CleanRun(poly, eps);
    ShellBalancedIff(poly, eps);
    ExtrudedVolume(poly, h, m);
  }

  // ---------------------------------------------------------------- accepted, and open

  /** A triangle with a fourth vertex on one side, closer to a corner than the tolerance. */
  const SLIVER: seq<Pt> := [Pt(0.0, 0.0), Pt(100000.0, 0.0), Pt(0.0, 100000.0), Pt(0.0, 0.00005)]

  lemma {:induction false} SliverTolerance()
    ensures IsExtent(SLIVER, 100000.0) && Tolerance(SLIVER) == 0.0001
  {
    assert SLIVER[1].x - SLIVER[0].x == 100000.0;
    assert IsExtent(SLIVER, 100000.0);
    ExtentUnique(SLIVER, 100000.0, Extent(SLIVER));
  }

  /** Its cleaned loop drops that vertex. */
  lemma {:induction false} SliverLoop()
    ensures Simplified(SLIVER, 0.0001) == [0, 1, 2]
  {
    var e := 0.0001;
    assert PathTo(SLIVER, e, 1) == [0];
    assert PathTo(SLIVER, e, 2) == [0, 1];
    assert PathTo(SLIVER, e, 3) == [0, 1, 2];
    assert PathTo(SLIVER, e, 4) == [0, 1, 2, 3];
    assert SettledSeam(SLIVER, e, [0, 1, 2]) == [0, 1, 2];
    assert [0, 1, 2, 3][..3] == [0, 1, 2];
    assert SettledSeam(SLIVER, e, [0, 1, 2, 3]) == SettledSeam(SLIVER, e, [0, 1, 2]);
  }

  /** A fourth vertex in line with its neighbours adds no area. */
  lemma {:induction false} FourthInLine(poly: seq<Pt>, loop: seq<nat>, all: seq<nat>)
    requires |poly| == 4 && loop == [0, 1, 2] && all == Identity(4) && Cross(poly[2], poly[3], poly[0]) == 0.0
    ensures InRange(poly, loop) && LoopShoe(poly, loop) == Cross(poly[0], poly[1], poly[2])
    ensures InRange(poly, all) && LoopShoe(poly, all) == Cross(poly[0], poly[1], poly[2])
  {
    assert RemoveAt(all, 3) == loop && PrevOf(all, 3) == 2 && NextOf(all, 3) == 0;
    hide LoopShoe, Cross, RemoveAt, PrevOf, NextOf, Identity;
    CornerArea(poly, all, 3);
    TriangleArea(poly, loop);
  }

  /** Both have the same area. */
  lemma {:induction false} SliverArea(loop: seq<nat>, all: seq<nat>)
    requires loop == [0, 1, 2] && all == Identity(4)
    ensures InRange(SLIVER, loop) && LoopShoe(SLIVER, loop) == Cross(SLIVER[0], SLIVER[1], SLIVER[2]) == 10000000000.0
    ensures InRange(SLIVER, all) && LoopShoe(SLIVER, all) == 10000000000.0
  {
    SliverCrosses();
    hide LoopShoe, Cross, Identity;
    FourthInLine(SLIVER, loop, all);
  }

  lemma {:induction false} SliverCrosses()
    ensures Cross(SLIVER[0], SLIVER[1], SLIVER[2]) == 10000000000.0 && Cross(SLIVER[2], SLIVER[3], SLIVER[0]) == 0.0
  {
  }

  lemma {:induction false} SliverSimple()
    ensures Simple(SLIVER)
  {
    var s := SLIVER;
    forall a, b, c, d, w | IsEdge(s, a, b) && IsEdge(s, c, d) && a != c && On(a, b, w) && On(c, d, w) ensures w == a || w == b {
      SliverEdge(a, b, w);
      SliverEdge(c, d, w);
      hide On, IsEdge;
    }
  }

  /** Where each of its edges lies. */
  lemma {:induction false} SliverEdge(a: Pt, b: Pt, w: Pt)
    requires IsEdge(SLIVER, a, b) && On(a, b, w)
    ensures exists k :: 0 <= k < 4 && a == SLIVER[k] && b == After(SLIVER, k)
    ensures a == SLIVER[0] ==> w.y == 0.0 && 0.0 <= w.x <= 100000.0
    ensures a == SLIVER[1] ==> w.x + w.y == 100000.0 && w.x >= 0.0 && w.y >= 0.0
    ensures a == SLIVER[2] ==> w.x == 0.0 && 0.00005 <= w.y <= 100000.0
    ensures a == SLIVER[3] ==> w.x == 0.0 && 0.0 <= w.y <= 0.00005
  {
    var k: nat :| k < 4 && SLIVER[k] == a && After(SLIVER, k) == b;
    var t :| 0.0 <= t <= 1.0 && w == Mix(a, b, t);
    if k == 0 {
      assert w == Pt(100000.0 * t, 0.0);
    } else if k == 1 {
      assert w == Pt(100000.0 - 100000.0 * t, 100000.0 * t);
    } else if k == 2 {
      assert w == Pt(0.0, 100000.0 - 99999.99995 * t);
    } else {
      assert w == Pt(0.0, 0.00005 - 0.00005 * t);
    }
  }

  /** It is simple, it is accepted, its vertices keep distinct weld keys when it is extruded,
      and its mesh is open. */
  lemma {:induction false} AcceptedAndOpen(flat: seq<nat>)
    requires |flat| % 3 == 0 && Tris(flat) == Shell(4, Cap(SLIVER))
    ensures Simple(SLIVER) && LoopShoe(SLIVER, Identity(4)) >= 0.0 && Covers(SLIVER)
    ensures var keys := WeldKeys(Rings(SLIVER, V3(0.0, 0.0, 1.0), Still)); DistinctKeys(keys) && !Closed(keys, flat)
  {
    SliverSimple();
    SliverArea([0, 1, 2], Identity(4));
    SliverTolerance();
    SliverLoop();
    SliverCovers();
    SliverKeys();
    StartLoop(SLIVER, 0.0001);
    var keys := WeldKeys(Rings(SLIVER, V3(0.0, 0.0, 1.0), Still));
    hide Simple, LoopShoe, Covers, Simplified, Closed, DistinctKeys, WeldKeys, Rings, Tolerance, Clean, Cap, Shell, Tris;
    SimpleClosedIff(SLIVER, keys, flat);
  }

  lemma {:induction false} TriangleCovered(poly: seq<Pt>, loop: seq<nat>)
    requires InRange(poly, loop) && |loop| == 3
    ensures CoveredBy(poly, loop) == AbsReal(Cross(poly[loop[0]], poly[loop[1]], poly[loop[2]])) / 2.0
  {
    hide Cross;
  }

  /** Nothing missing is within the tolerance. */
  lemma {:induction false} TriangleMatches(poly: seq<Pt>, start: seq<nat>, ext: real)
    requires InRange(poly, start) && |start| == 3
    requires 0.0 <= Cross(poly[start[0]], poly[start[1]], poly[start[2]]) == LoopShoe(poly, Identity(|poly|))
    ensures Matches(poly, start, ext)
  {
    TriangleCovered(poly, start);
    FloorSign(ext);
    hide Cross, CoveredBy, FloorAt, LoopShoe, Identity;
  }

  lemma {:induction false} SliverStart()
    ensures Start(SLIVER, Tolerance(SLIVER)) == [0, 1, 2]
  {
    SliverTolerance();
    SliverLoop();
    SliverArea([0, 1, 2], Identity(4));
    hide LoopShoe, Simplified, Cross, IsExtent, Identity, Tolerance;
  }

  lemma {:induction false} SliverCovers()
    ensures Covers(SLIVER)
  {
    var start, all := [0, 1, 2], Identity(4);
    SliverStart();
    SliverArea(start, all);
    hide LoopShoe, Cross, Identity, Start, Tolerance, Extent, Matches, IsExtent;
    TriangleMatches(SLIVER, start, Extent(SLIVER));
  }

  lemma {:induction false} SliverKeys()
    ensures DistinctKeys(WeldKeys(Rings(SLIVER, V3(0.0, 0.0, 1.0), Still)))
  {
    var vs := Rings(SLIVER, V3(0.0, 0.0, 1.0), Still);
    assert vs[0] == V3(0.0, 0.0, 0.0) && vs[1] == V3(100000.0, 0.0, 0.0) && vs[2] == V3(0.0, 100000.0, 0.0) && vs[3] == V3(0.0, 0.00005, 0.0);
    assert vs[4] == V3(0.0, 0.0, 1.0) && vs[5] == V3(100000.0, 0.0, 1.0) && vs[6] == V3(0.0, 100000.0, 1.0) && vs[7] == V3(0.0, 0.00005, 1.0);
    var ks := WeldKeys(vs);
    assert Round(0.0) == 0 && Round(100000.0) == 100000 && Round(10000000000.0) == 10000000000 && Round(5.0) == 5;
    assert ks == [(0, 0, 0), (10000000000, 0, 0), (0, 10000000000, 0), (0, 5, 0),
                  (0, 0, 100000), (10000000000, 0, 100000), (0, 10000000000, 100000), (0, 5, 100000)];
  }

  // ---------------------------------------------------------------- a bowtie

  /** Two equal lobes that meet where two edges cross. */
  const BOWTIE: seq<Pt> := [Pt(0.0, 0.0), Pt(2.0, 0.0), Pt(0.0, 2.0), Pt(2.0, 2.0)]

  lemma {:induction false} BowtieTolerance()
    ensures IsExtent(BOWTIE, 2.0) && Extent(BOWTIE) == 2.0 && Tolerance(BOWTIE) == 0.000000002
  {
    assert BOWTIE[1].x - BOWTIE[0].x == 2.0;
    assert IsExtent(BOWTIE, 2.0);
    ExtentUnique(BOWTIE, 2.0, Extent(BOWTIE));
  }

  lemma {:induction false} BowtieCrosses()
    ensures Cross(BOWTIE[3], BOWTIE[0], BOWTIE[1]) == 4.0 && Cross(BOWTIE[1], BOWTIE[2], BOWTIE[3]) == -4.0
    ensures Cross(BOWTIE[0], BOWTIE[1], BOWTIE[2]) == 4.0 && Cross(BOWTIE[2], BOWTIE[3], BOWTIE[0]) == -4.0
    ensures !PointInTri(BOWTIE[2], BOWTIE[3], BOWTIE[0], BOWTIE[1])
  {
  }

  /** A quadrilateral's area, by the two triangles at a diagonal. */
  lemma {:induction false} QuadArea(poly: seq<Pt>, all: seq<nat>)
    requires |poly| == 4 && all == [0, 1, 2, 3]
    ensures InRange(poly, all) && LoopShoe(poly, all) == Cross(poly[0], poly[1], poly[2]) + Cross(poly[2], poly[3], poly[0])
  {
    assert RemoveAt(all, 3) == [0, 1, 2] && PrevOf(all, 3) == 2 && NextOf(all, 3) == 0;
    hide LoopShoe, Cross, RemoveAt, PrevOf, NextOf;
    CornerArea(poly, all, 3);
    TriangleArea(poly, [0, 1, 2]);
  }

  /** Its run, when the first corner is an ear. */
  lemma {:induction false} QuadRun(poly: seq<Pt>, all: seq<nat>)
    requires |poly| == 4 && all == [0, 1, 2, 3]
    requires Cross(poly[3], poly[0], poly[1]) > 0.0 && !PointInTri(poly[2], poly[3], poly[0], poly[1])
    ensures InRange(poly, all) && CoveredBy(poly, all) == Cross(poly[3], poly[0], poly[1]) / 2.0 + AbsReal(Cross(poly[1], poly[2], poly[3])) / 2.0
  {
    hide Cross, PointInTri;
    assert Corner(all, 0) == Tri(3, 0, 1);
    assert Ear(poly, all, 0);
    assert FirstEar(poly, all, 0) == 0;
    var rest := RemoveAt(all, 0);
    assert rest == [1, 2, 3];
    var run := Clip(poly, rest);
    assert run == ([], rest);
    assert Clip(poly, all) == ([Corner(all, 0)] + run.0, run.1);
    var ears := [Tri(3, 0, 1)];
    assert [Corner(all, 0)] + run.0 == ears && ears[1..] == [];
    assert Clip(poly, all) == (ears, rest);
    assert SumCross(poly, ears) == TriCross(poly, ears[0]) + SumCross(poly, []);
  }

  lemma {:induction false} BowtieClean(eps: real)
    requires 0.0 <= eps < 1.0
    ensures Clean(BOWTIE, eps)
  {
    hide Clean;
    CleanIsApart(BOWTIE, eps);
  }

  /** A bowtie is declined: its lobes' areas cancel, and its triangles' do not. */
  lemma {:induction false} BowtieDeclined()
    ensures !Covers(BOWTIE)
  {
    hide LoopShoe, CoveredBy, Start, Clean, Identity, IsExtent, Reversed, Cross, PointInTri, FloorAt, Tolerance;
    var all := Identity(4);
    BowtieStart(all);
    BowtieTolerance();
    BowtieCrosses();
    QuadArea(BOWTIE, all);
    QuadRun(BOWTIE, all);
    NotWithin(FloorAt(2.0));
  }

  /** It is clean, and its area is not negative, so it is clipped as it is. */
  lemma {:induction false} BowtieStart(all: seq<nat>)
    requires all == Identity(4)
    ensures all == [0, 1, 2, 3] && Start(BOWTIE, Tolerance(BOWTIE)) == all
  {
    hide LoopShoe, Start, Clean, Reversed, Cross, PointInTri, IsExtent, Extent, Tolerance;
    BowtieTolerance();
    BowtieCrosses();
    BowtieClean(0.000000002);
    IdentityFour();
    QuadArea(BOWTIE, all);
    StartLoop(BOWTIE, 0.000000002);
  }

  lemma {:induction false} IdentityFour()
    ensures Identity(4) == [0, 1, 2, 3]
  {
  }

  lemma {:induction false} NotWithin(floor: real)
    requires floor == FloorAt(2.0)
    ensures AbsReal(4.0 - AbsReal(0.0 / 2.0)) > 0.000001 * MaxReal(4.0, AbsReal(0.0 / 2.0)) + floor
  {
  }
}
