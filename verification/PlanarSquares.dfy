// Two unit squares that touch at a corner come out of stitching as two rings: at the corner
// the walk turns left, back into its own square.
module PlanarSquares {
  import opened Common
  import opened GeoTriangulate
  import opened PlanarBoundary
  import opened PlanarStitch
  import opened PlanarTurns
  import opened Sorting
  import Solid = GeoSolid
  import Volume = GeoVolume

  /** The corners, in the order the edges come by them: the second is shared. */
  const SPOTS: seq<Pt> := [Pt(0.0, 0.0), Pt(1.0, 0.0), Pt(1.0, 1.0), Pt(0.0, 1.0), Pt(2.0, 1.0), Pt(2.0, 2.0), Pt(1.0, 2.0)]

  const LOWER: seq<Pt> := [Pt(0.0, 0.0), Pt(1.0, 0.0), Pt(1.0, 1.0), Pt(0.0, 1.0)]
  const UPPER: seq<Pt> := [Pt(1.0, 1.0), Pt(2.0, 1.0), Pt(2.0, 2.0), Pt(1.0, 2.0)]

  const SQUARES: seq<Seg> := [
    (SPOTS[0], SPOTS[1]), (SPOTS[1], SPOTS[2]), (SPOTS[2], SPOTS[3]), (SPOTS[3], SPOTS[0]),
    (SPOTS[2], SPOTS[4]), (SPOTS[4], SPOTS[5]), (SPOTS[5], SPOTS[6]), (SPOTS[6], SPOTS[2])]

  // ---------------------------------------------------------------- welding

  /** Edge `k` of the squares, by its corners' numbers. */
  predicate EdgeIs(k: nat, i: nat, j: nat) {
    match k
    case 0 => i == 0 && j == 1
    case 1 => i == 1 && j == 2
    case 2 => i == 2 && j == 3
    case 3 => i == 3 && j == 0
    case 4 => i == 2 && j == 4
    case 5 => i == 4 && j == 5
    case 6 => i == 5 && j == 6
    case 7 => i == 6 && j == 2
    case _ => false
  }

  lemma {:induction false} EdgeSpots(k: nat, i: nat, j: nat)
    requires EdgeIs(k, i, j)
    ensures k < 8 && i < 7 && j < 7 && SQUARES[k] == (SPOTS[i], SPOTS[j])
  {
  }

  lemma {:induction false} Spots(a: nat, b: nat)
    requires a < 7 && b < 7
    ensures Weld(SPOTS[a]) == Weld(SPOTS[b]) <==> a == b
  {
    WeldWhole(SPOTS[a], SPOTS[a].x.Floor, SPOTS[a].y.Floor);
    WeldWhole(SPOTS[b], SPOTS[b].x.Floor, SPOTS[b].y.Floor);
    hide Weld;
  }

  lemma {:induction false} WeldWhole(p: Pt, x: int, y: int)
    requires p == Pt(x as real, y as real)
    ensures Weld(p) == (100000 * x, 100000 * y)
  {
    RoundWhole(100000 * x);
    RoundWhole(100000 * y);
    assert p.x * QUANTUM == (100000 * x) as real && p.y * QUANTUM == (100000 * y) as real;
  }

  lemma {:induction false} RoundWhole(k: int)
    ensures Solid.Round(k as real) == k
  {
  }

  lemma {:induction false} AddKnown(w: Welds, p: Pt)
    requires w.Valid() && p in w.pos
    ensures AddPoint(w, p) == w
  {
    var i :| 0 <= i < |w.pos| && w.pos[i] == p;
  }

  lemma {:induction false} AddNew(w: Welds, p: Pt)
    requires w.Valid() && forall i :: 0 <= i < |w.pos| ==> Weld(w.pos[i]) != Weld(p)
    ensures AddPoint(w, p).pos == w.pos + [p] && AddPoint(w, p).Valid()
  {
    hide Weld;
  }

  /** A corner added to the first `m`: one of them, or the next. */
  lemma {:induction false} Added(w: Welds, m: nat, i: nat)
    requires w.Valid() && i <= m <= 7 && i < 7 && w.pos == SPOTS[..m]
    ensures AddPoint(w, SPOTS[i]).Valid() && AddPoint(w, SPOTS[i]).pos == SPOTS[..if i < m then m else m + 1]
  {
    if i < m {
      assert w.pos[i] == SPOTS[i];
      AddKnown(w, SPOTS[i]);
    } else {
      forall j | 0 <= j < |w.pos| ensures Weld(w.pos[j]) != Weld(SPOTS[i]) { Spots(j, i); }
      AddNew(w, SPOTS[i]);
    }
    hide AddPoint, Weld;
  }

  /** The first `k` edges come by the first `m` corners. */
  ghost predicate Welded(k: nat, m: nat) {
    k <= 8 && m <= 7 && WeldAll(SQUARES[..k]).Valid() && WeldAll(SQUARES[..k]).pos == SPOTS[..m]
  }

  lemma {:induction false} WeldMore(k: nat, m: nat, i: nat, j: nat, m': nat)
    requires Welded(k, m) && EdgeIs(k, i, j) && i <= m
    requires j <= (if i < m then m else m + 1) && m' == if j < (if i < m then m else m + 1) then (if i < m then m else m + 1) else j + 1
    ensures Welded(k + 1, m')
  {
    hide AddPoint, Weld, WeldAll;
    EdgeSpots(k, i, j);
    var w := WeldAll(SQUARES[..k]);
    Added(w, m, i);
    Added(AddPoint(w, SPOTS[i]), if i < m then m else m + 1, j);
    WeldNext(k);
  }

  lemma {:induction false} WeldNext(k: nat)
    requires k < 8
    ensures WeldAll(SQUARES[..k + 1]) == AddPoint(AddPoint(WeldAll(SQUARES[..k]), SQUARES[k].0), SQUARES[k].1)
  {
    var front := SQUARES[..k + 1];
    assert front[..k] == SQUARES[..k] && front[k] == SQUARES[k];
    hide AddPoint;
  }

  lemma {:induction false} SquaresWelded()
    ensures WeldAll(SQUARES).pos == SPOTS
  {
    hide Weld, Welded, WeldAll;
    NoneWelded();
    WeldMore(0, 0, 0, 1, 2);
    WeldMore(1, 2, 1, 2, 3);
    WeldMore(2, 3, 2, 3, 4);
    WeldMore(3, 4, 3, 0, 4);
    WeldMore(4, 4, 2, 4, 5);
    WeldMore(5, 5, 4, 5, 6);
    WeldMore(6, 6, 5, 6, 7);
    WeldMore(7, 7, 6, 2, 7);
    AllWelded();
  }

  lemma {:induction false} NoneWelded()
    ensures Welded(0, 0)
  {
    assert SQUARES[..0] == [] && SPOTS[..0] == [];
  }

  lemma {:induction false} AllWelded()
    requires Welded(8, 7)
    ensures WeldAll(SQUARES).pos == SPOTS
  {
    assert SQUARES[..8] == SQUARES && SPOTS[..7] == SPOTS;
  }

  // ---------------------------------------------------------------- edges

  /** The corners joined by an edge. */
  predicate Linked(a: nat, b: nat) {
    match a
    case 0 => b == 1 || b == 3
    case 1 => b == 0 || b == 2
    case 2 => b == 1 || b == 3 || b == 4 || b == 6
    case 3 => b == 0 || b == 2
    case 4 => b == 2 || b == 5
    case 5 => b == 4 || b == 6
    case 6 => b == 2 || b == 5
    case _ => false
  }

  lemma {:induction false} TimesSome(segs: seq<Seg>, k: Cell, l: Cell)
    ensures Times(segs, k, l) > 0 <==> exists j :: 0 <= j < |segs| && Joins(segs[j], k, l)
  {
    hide Joins;
    if segs != [] {
      var n := |segs| - 1;
      TimesSome(segs[..n], k, l);
      assert forall j :: 0 <= j < n ==> segs[..n][j] == segs[j];
    }
  }

  lemma {:induction false} EdgeJoins(k: nat, i: nat, j: nat, a: nat, b: nat)
    requires EdgeIs(k, i, j) && a < 7 && b < 7
    ensures Joins(SQUARES[k], Weld(SPOTS[a]), Weld(SPOTS[b])) <==> (a == i && b == j) || (a == j && b == i)
  {
    Spots(i, a);
    Spots(i, b);
    Spots(j, a);
    Spots(j, b);
    EdgeSpots(k, i, j);
    hide Weld;
  }

  lemma {:induction false} SquaresKept(a: nat, b: nat)
    ensures (a, b) in Kept(SQUARES, SPOTS, n => true) <==> Linked(a, b)
  {
    hide Weld, Joins;
    if a < 7 && b < 7 {
      TimesSome(SQUARES, Weld(SPOTS[a]), Weld(SPOTS[b]));
      EdgeJoins(0, 0, 1, a, b);
      EdgeJoins(1, 1, 2, a, b);
      EdgeJoins(2, 2, 3, a, b);
      EdgeJoins(3, 3, 0, a, b);
      EdgeJoins(4, 2, 4, a, b);
      EdgeJoins(5, 4, 5, a, b);
      EdgeJoins(6, 5, 6, a, b);
      EdgeJoins(7, 6, 2, a, b);
    }
  }

  // ---------------------------------------------------------------- turns

  ghost predicate Laid(halves: set<Half>) {
    InPlane(halves, SPOTS) && forall a: nat, b: nat :: (a, b) in halves <==> Linked(a, b)
  }

  /** At a corner with one way on, that is the way. */
  lemma {:induction false} OneWayOn(halves: set<Half>, used: set<Half>, prev: nat, cur: nat, n: nat)
    requires Laid(halves) && prev < 7 && cur < 7 && n != prev && Linked(cur, n) && (cur, n) !in used
    requires forall m: nat :: Linked(cur, m) ==> m == prev || m == n
    ensures Sharpest(halves, SPOTS, used, prev, cur, n)
  {
    hide Linked, WayOf;
  }

  /** The three ways round the shared corner that turn left. */
  predicate LeftThere(prev: nat, n: nat) { (prev == 3 && n == 6) || (prev == 4 && n == 1) || (prev == 1 && n == 3) }

  /** The directions in and out at the shared corner. */
  function OutTo(m: nat): Pt {
    if m == 1 then Pt(0.0, -1.0) else if m == 3 then Pt(-1.0, 0.0) else if m == 4 then Pt(1.0, 0.0) else Pt(0.0, 1.0)
  }

  lemma {:induction false} OutThere(m: nat)
    requires m == 1 || m == 3 || m == 4 || m == 6
    ensures Step(SPOTS[2], SPOTS[m]) == OutTo(m) && Step(SPOTS[m], SPOTS[2]) == Pt(-OutTo(m).x, -OutTo(m).y)
  {
  }

  lemma {:induction false} Quarters(i: Pt, u: Pt, v: Pt)
    requires i == Pt(1.0, 0.0) || i == Pt(-1.0, 0.0) || i == Pt(0.0, 1.0)
    requires v == Pt(-i.y, i.x) && (u == i || u == Pt(i.y, -i.x))
    ensures FurtherLeft(i, u, v)
  {
    if i == Pt(1.0, 0.0) { EastAhead(); EastRight(); } else if i == Pt(-1.0, 0.0) { QuartersWest(); } else { QuartersNorth(); }
    hide FurtherLeft;
  }

  lemma {:induction false} EastAhead()
    ensures FurtherLeft(Pt(1.0, 0.0), Pt(1.0, 0.0), Pt(0.0, 1.0))
  {
  }

  lemma {:induction false} EastRight()
    ensures FurtherLeft(Pt(1.0, 0.0), Pt(0.0, -1.0), Pt(0.0, 1.0))
  {
  }

  lemma {:induction false} QuartersWest()
    ensures FurtherLeft(Pt(-1.0, 0.0), Pt(-1.0, 0.0), Pt(0.0, -1.0)) && FurtherLeft(Pt(-1.0, 0.0), Pt(0.0, 1.0), Pt(0.0, -1.0))
  {
  }

  lemma {:induction false} QuartersNorth()
    ensures FurtherLeft(Pt(0.0, 1.0), Pt(0.0, 1.0), Pt(-1.0, 0.0)) && FurtherLeft(Pt(0.0, 1.0), Pt(1.0, 0.0), Pt(-1.0, 0.0))
  {
  }

  lemma {:induction false} FurthestThere(prev: nat, n: nat, m: nat)
    requires LeftThere(prev, n) && Linked(2, m) && m != prev && m != n
    ensures FurtherLeft(Step(SPOTS[prev], SPOTS[2]), Step(SPOTS[2], SPOTS[m]), Step(SPOTS[2], SPOTS[n]))
  {
    hide FurtherLeft, Step, OutTo;
    OutThere(prev);
    OutThere(n);
    OutThere(m);
    TurnsThere(prev, n, m);
    Quarters(Step(SPOTS[prev], SPOTS[2]), Step(SPOTS[2], SPOTS[m]), Step(SPOTS[2], SPOTS[n]));
  }

  lemma {:induction false} TurnsThere(prev: nat, n: nat, m: nat)
    requires LeftThere(prev, n) && Linked(2, m) && m != prev && m != n
    ensures var i, u, v := Pt(-OutTo(prev).x, -OutTo(prev).y), OutTo(m), OutTo(n);
      && (i == Pt(1.0, 0.0) || i == Pt(-1.0, 0.0) || i == Pt(0.0, 1.0))
      && v == Pt(-i.y, i.x) && (u == i || u == Pt(i.y, -i.x))
  {
  }

  lemma {:induction false} OneFurther(i: Pt, u: Pt, v: Pt)
    requires FurtherLeft(i, u, v)
    ensures !FurtherLeft(i, v, u)
  {
    assert Wedge(v, u) == -Wedge(u, v);
    hide WayOf;
  }

  lemma {:induction false} LeftOn(halves: set<Half>, used: set<Half>, prev: nat, n: nat)
    requires Laid(halves) && LeftThere(prev, n) && (2, n) !in used
    ensures Sharpest(halves, SPOTS, used, prev, 2, n)
  {
    hide FurtherLeft, WayOf;
    forall m: nat | Open(halves, used, 2, m) && m != prev ensures NotBehind(SPOTS, prev, 2, n, m) {
      if m != n {
        FurthestThere(prev, n, m);
        OneFurther(Step(SPOTS[prev], SPOTS[2]), Step(SPOTS[2], SPOTS[m]), Step(SPOTS[2], SPOTS[n]));
      } else {
        NotItself(SPOTS, prev, n);
      }
    }
  }

  lemma {:induction false} NotItself(pos: seq<Pt>, prev: nat, n: nat)
    requires |pos| > 2 && prev < |pos| && n < |pos|
    ensures NotBehind(pos, prev, 2, n, n)
  {
    var o := Step(pos[2], pos[n]);
    assert Wedge(o, o) == 0.0;
    hide WayOf;
  }

  // ---------------------------------------------------------------- walks

  lemma {:induction false} SpotsDiffer()
    ensures NoRepeats(SPOTS)
  {
    forall i, j | 0 <= i < j < 7 ensures SPOTS[i] != SPOTS[j] { Spots(i, j); }
  }

  /** One step of a walk, by the edge that turns furthest left. */
  lemma {:induction false} WalkStep(halves: set<Half>, atan2: (real, real) -> real, used: set<Half>, loop: seq<nat>, prev: nat, cur: nat, n: nat)
    requires Laid(halves) && IsAngle(atan2) && used <= halves && loop != [] && |loop| <= 7 && prev < 7 && cur < 7 && prev != cur && cur != loop[0]
    requires Sharpest(halves, SPOTS, used, prev, cur, n)
    ensures n < 7 && used + {(cur, n)} <= halves
    ensures Walk(halves, SPOTS, atan2, used, loop, prev, cur) == Walk(halves, SPOTS, atan2, used + {(cur, n)}, loop + [cur], cur, n)
  {
    SpotsDiffer();
    NextIsSharpest(halves, SPOTS, atan2, used, prev, cur, n);
    hide IsAngle, Sharpest, PlanarStitch.NextOf, NoRepeats, Linked;
    NextIsOpen(halves, SPOTS, atan2, used, prev, cur);
    Shrinks(halves, used, (cur, n));
  }

  /** The walk once round both squares, on the outside. */
  const OUTSIDE: seq<nat> := [0, 3, 2, 6, 5, 4, 2, 1]

  lemma {:induction false} WalkOutside(halves: set<Half>, atan2: (real, real) -> real)
    requires Laid(halves) && IsAngle(atan2)
    ensures (0, 3) in halves && Walk(halves, SPOTS, atan2, {(0, 3)}, [0], 0, 3) == (OUTSIDE, OutsideUsed())
  {
    hide IsAngle, Sharpest, Walk, InPlane;
    assert Linked(0, 3) && Linked(3, 2) && Linked(2, 6) && Linked(6, 5) && Linked(5, 4) && Linked(4, 2) && Linked(2, 1) && Linked(1, 0);
    var u: set<Half> := {(0, 3)};
    OneWayOn(halves, u, 0, 3, 2);
    WalkStep(halves, atan2, u, [0], 0, 3, 2);
    var u1 := u + {(3, 2)};
    LeftOn(halves, u1, 3, 6);
    WalkStep(halves, atan2, u1, [0] + [3], 3, 2, 6);
    var u2 := u1 + {(2, 6)};
    OneWayOn(halves, u2, 2, 6, 5);
    WalkStep(halves, atan2, u2, [0] + [3] + [2], 2, 6, 5);
    var u3 := u2 + {(6, 5)};
    OneWayOn(halves, u3, 6, 5, 4);
    WalkStep(halves, atan2, u3, [0] + [3] + [2] + [6], 6, 5, 4);
    var u4 := u3 + {(5, 4)};
    OneWayOn(halves, u4, 5, 4, 2);
    WalkStep(halves, atan2, u4, [0] + [3] + [2] + [6] + [5], 5, 4, 2);
    var u5 := u4 + {(4, 2)};
    LeftOn(halves, u5, 4, 1);
    WalkStep(halves, atan2, u5, [0] + [3] + [2] + [6] + [5] + [4], 4, 2, 1);
    var u6 := u5 + {(2, 1)};
    OneWayOn(halves, u6, 2, 1, 0);
    WalkStep(halves, atan2, u6, [0] + [3] + [2] + [6] + [5] + [4] + [2], 2, 1, 0);
    var u7 := u6 + {(1, 0)};
    WalkEnds(halves, atan2, u7, OUTSIDE, 1, 0);
    assert [0] + [3] + [2] + [6] + [5] + [4] + [2] + [1] == OUTSIDE;
    assert u7 == OutsideUsed();
  }

  function OutsideUsed(): set<Half> { {(0, 3), (3, 2), (2, 6), (6, 5), (5, 4), (4, 2), (2, 1), (1, 0)} }

  lemma {:induction false} WalkEnds(halves: set<Half>, atan2: (real, real) -> real, used: set<Half>, loop: seq<nat>, prev: nat, cur: nat)
    requires Walkable(halves, SPOTS, used) && loop != [] && prev < 7 && cur < 7 && cur == loop[0]
    ensures Walk(halves, SPOTS, atan2, used, loop, prev, cur) == (loop, used)
  {
  }

  function LowerUsed(): set<Half> { {(0, 1), (1, 2), (2, 3), (3, 0)} }

  function UpperUsed(): set<Half> { {(2, 4), (4, 5), (5, 6), (6, 2)} }

  lemma {:induction false} WalkLower(halves: set<Half>, atan2: (real, real) -> real, used: set<Half>)
    requires Laid(halves) && IsAngle(atan2) && used == OutsideUsed() && used <= halves
    ensures (0, 1) in halves && Walk(halves, SPOTS, atan2, used + {(0, 1)}, [0], 0, 1) == ([0, 1, 2, 3], used + LowerUsed())
  {
    hide IsAngle, Sharpest, Walk, InPlane;
    assert Linked(0, 1) && Linked(1, 2) && Linked(2, 3) && Linked(3, 0);
    var u := used + {(0, 1)};
    OneWayOn(halves, u, 0, 1, 2);
    WalkStep(halves, atan2, u, [0], 0, 1, 2);
    var u1 := u + {(1, 2)};
    LeftOn(halves, u1, 1, 3);
    WalkStep(halves, atan2, u1, [0] + [1], 1, 2, 3);
    var u2 := u1 + {(2, 3)};
    OneWayOn(halves, u2, 2, 3, 0);
    WalkStep(halves, atan2, u2, [0] + [1] + [2], 2, 3, 0);
    var u3 := u2 + {(3, 0)};
    WalkEnds(halves, atan2, u3, [0, 1, 2, 3], 3, 0);
    assert [0] + [1] + [2] + [3] == [0, 1, 2, 3];
    assert u3 == used + LowerUsed();
  }

  lemma {:induction false} WalkUpper(halves: set<Half>, atan2: (real, real) -> real, used: set<Half>)
    requires Laid(halves) && IsAngle(atan2) && used == OutsideUsed() + LowerUsed() && used <= halves
    ensures (2, 4) in halves && Walk(halves, SPOTS, atan2, used + {(2, 4)}, [2], 2, 4) == ([2, 4, 5, 6], used + UpperUsed())
  {
    hide IsAngle, Sharpest, Walk, InPlane;
    assert Linked(2, 4) && Linked(4, 5) && Linked(5, 6) && Linked(6, 2);
    var u := used + {(2, 4)};
    OneWayOn(halves, u, 2, 4, 5);
    WalkStep(halves, atan2, u, [2], 2, 4, 5);
    var u1 := u + {(4, 5)};
    OneWayOn(halves, u1, 4, 5, 6);
    WalkStep(halves, atan2, u1, [2] + [4], 4, 5, 6);
    var u2 := u1 + {(5, 6)};
    OneWayOn(halves, u2, 5, 6, 2);
    WalkStep(halves, atan2, u2, [2] + [4] + [5], 5, 6, 2);
    var u3 := u2 + {(6, 2)};
    WalkEnds(halves, atan2, u3, [2, 4, 5, 6], 6, 2);
    assert [2] + [4] + [5] + [6] == [2, 4, 5, 6];
    assert u3 == used + UpperUsed();
  }

  // ---------------------------------------------------------------- starts

  /** The half-edges in position order. */
  const STARTS: seq<Half> := [(0, 3), (0, 1), (3, 0), (3, 2), (1, 0), (1, 2), (2, 3), (2, 1), (2, 6), (2, 4), (6, 2), (6, 5), (4, 2), (4, 5), (5, 6), (5, 4)]

  /** A corner's place in position order. */
  function Place(a: nat): nat {
    match a case 0 => 0 case 3 => 1 case 1 => 2 case 2 => 3 case 6 => 4 case 4 => 5 case _ => 6
  }

  lemma {:induction false} PlaceIsOrder(a: nat, b: nat)
    requires a < 7 && b < 7
    ensures PtLess(SPOTS[a], SPOTS[b]) <==> Place(a) < Place(b)
    ensures SPOTS[a] == SPOTS[b] <==> Place(a) == Place(b)
  {
  }

  function StartPlace(h: Half): nat { 7 * Place(h.0) + Place(h.1) }

  lemma {:induction false} StartPlaceIsOrder(g: Half, h: Half)
    requires g.0 < 7 && g.1 < 7 && h.0 < 7 && h.1 < 7
    ensures StartPlace(g) < StartPlace(h) ==> StartLe(SPOTS)(g, h) && g != h
  {
    PlaceIsOrder(h.0, g.0);
    PlaceIsOrder(h.1, g.1);
    PlaceIsOrder(g.0, h.0);
    assert Place(g.1) <= 6 && Place(h.1) <= 6;
    hide Place, PtLess;
  }

  lemma {:induction false} StartsRise(i: nat, j: nat)
    requires i < j < 16
    ensures StartPlace(STARTS[i]) < StartPlace(STARTS[j])
  {
    StartsStep(j - 1);
    if i < j - 1 { StartsRise(i, j - 1); }
    hide StartPlace;
  }

  lemma {:induction false} StartsStep(i: nat)
    requires i < 15
    ensures StartPlace(STARTS[i]) < StartPlace(STARTS[i + 1])
  {
  }

  lemma {:induction false} StartsLinked(h: Half)
    ensures h in STARTS <==> Linked(h.0, h.1)
  {
  }

  lemma {:induction false} StartsOnce(halves: set<Half>)
    requires Laid(halves)
    ensures multiset(STARTS) == multiset(halves) && Sorted(STARTS, StartLe(SPOTS))
  {
    hide StartPlace, StartLess;
    forall h ensures h in STARTS <==> h in halves { StartsLinked(h); }
    forall i, j | 0 <= i < j < 16 ensures StartLe(SPOTS)(STARTS[i], STARTS[j]) && STARTS[i] != STARTS[j] {
      StartsRise(i, j);
      StartIn(halves, STARTS[i]);
      StartIn(halves, STARTS[j]);
      StartPlaceIsOrder(STARTS[i], STARTS[j]);
    }
    OnceEach(STARTS, halves);
  }

  lemma {:induction false} StartIn(halves: set<Half>, h: Half)
    requires Laid(halves) && h in STARTS
    ensures h.0 < 7 && h.1 < 7
  {
    StartsLinked(h);
  }

  // ---------------------------------------------------------------- all walks

  /** The walks from the first `k` starts. */
  ghost predicate Came(halves: set<Half>, atan2: (real, real) -> real, k: nat, loops: seq<seq<nat>>, used: set<Half>) {
    && k <= 16 && Walkable(halves, SPOTS, {}) && (forall h <- STARTS[..k] :: h in halves)
    && Walks(halves, SPOTS, atan2, STARTS[..k], {}) == (loops, used) && used <= halves
  }

  /** One more start: used already, or walked from. */
  lemma {:induction false} WalksMore(halves: set<Half>, pos: seq<Pt>, atan2: (real, real) -> real, front: seq<Half>, h: Half)
    requires Walkable(halves, pos, {}) && (forall g <- front :: g in halves) && h in halves && h.0 < |pos| && h.1 < |pos|
    ensures forall g <- front + [h] :: g in halves
    ensures var (loops, u) := Walks(halves, pos, atan2, front, {});
      && u <= halves
      && Walks(halves, pos, atan2, front + [h], {}) ==
        if h in u then (loops, u)
        else
          var (loop, u') := Walk(halves, pos, atan2, u + {h}, [h.0], h.0, h.1);
          (if loop == [] then loops else loops + [loop], u')
  {
    WalksInside(halves, pos, atan2, front, {});
    var all := front + [h];
    assert all[..|front|] == front && all[|front|] == h;
    hide Walk, InPlane;
  }

  lemma {:induction false} StartsMore(k: nat)
    requires k < 16
    ensures STARTS[..k + 1] == STARTS[..k] + [STARTS[k]]
  {
  }

  lemma {:induction false} CameBy(halves: set<Half>, atan2: (real, real) -> real, k: nat, m: nat, loops: seq<seq<nat>>, used: set<Half>)
    requires Laid(halves) && k <= m <= 16 && Came(halves, atan2, k, loops, used)
    requires forall i: nat :: k <= i < m ==> STARTS[i] in used
    ensures Came(halves, atan2, m, loops, used)
  {
    hide Walk, InPlane, Walks;
    if k < m {
      CameBy(halves, atan2, k, m - 1, loops, used);
      var h := STARTS[m - 1];
      StartIn(halves, h);
      WalksMore(halves, SPOTS, atan2, STARTS[..m - 1], h);
      StartsMore(m - 1);
    }
  }

  lemma {:induction false} CameRound(halves: set<Half>, atan2: (real, real) -> real, k: nat, loops: seq<seq<nat>>, used: set<Half>, h: Half, loop: seq<nat>, used': set<Half>)
    requires Laid(halves) && Came(halves, atan2, k, loops, used) && k < 16 && STARTS[k] == h && h in halves && h.0 < 7 && h.1 < 7 && h !in used
    requires Walkable(halves, SPOTS, used + {h})
    requires loop != [] && Walk(halves, SPOTS, atan2, used + {h}, [h.0], h.0, h.1) == (loop, used') && used' <= halves
    ensures Came(halves, atan2, k + 1, loops + [loop], used')
  {
    hide Walk, InPlane, Walks;
    WalksMore(halves, SPOTS, atan2, STARTS[..k], h);
    StartsMore(k);
  }

  /** Every later start is in one of the walks. */
  lemma {:induction false} StartsUsed(i: nat)
    requires i < 16
    ensures 2 <= i < 9 ==> STARTS[i] in OutsideUsed() + LowerUsed()
    ensures 10 <= i ==> STARTS[i] in OutsideUsed() + LowerUsed() + UpperUsed()
  {
  }

  lemma {:induction false} FirstWalk(halves: set<Half>, atan2: (real, real) -> real)
    requires Laid(halves) && IsAngle(atan2)
    ensures Came(halves, atan2, 1, [OUTSIDE], OutsideUsed())
  {
    hide Walk, IsAngle, InPlane;
    NoneCame(halves, atan2);
    AllUsed(halves);
    WalkOutside(halves, atan2);
    hide Came, OutsideUsed;
    assert {} + {(0, 3)} == {(0, 3)} && [] + [OUTSIDE] == [OUTSIDE];
    CameRound(halves, atan2, 0, [], {}, (0, 3), OUTSIDE, OutsideUsed());
  }

  lemma {:induction false} SecondWalk(halves: set<Half>, atan2: (real, real) -> real)
    requires Laid(halves) && IsAngle(atan2)
    ensures Came(halves, atan2, 9, [OUTSIDE] + [[0, 1, 2, 3]], OutsideUsed() + LowerUsed())
  {
    hide Walk, IsAngle, InPlane, Came;
    var u := OutsideUsed();
    AllUsed(halves);
    FirstWalk(halves, atan2);
    WalkLower(halves, atan2, u);
    assert (0, 1) !in u;
    hide OutsideUsed, LowerUsed;
    CameRound(halves, atan2, 1, [OUTSIDE], u, (0, 1), [0, 1, 2, 3], u + LowerUsed());
    forall i: nat | 2 <= i < 9 ensures STARTS[i] in u + LowerUsed() { StartsUsed(i); }
    CameBy(halves, atan2, 2, 9, [OUTSIDE] + [[0, 1, 2, 3]], u + LowerUsed());
  }

  /** Three walks: round the outside, and round each square. */
  lemma {:induction false} ThreeWalks(halves: set<Half>, atan2: (real, real) -> real)
    requires Laid(halves) && IsAngle(atan2)
    ensures Came(halves, atan2, 16, [OUTSIDE, [0, 1, 2, 3], [2, 4, 5, 6]], OutsideUsed() + LowerUsed() + UpperUsed())
  {
    hide Walk, IsAngle, InPlane, Came;
    var u := OutsideUsed() + LowerUsed();
    AllUsed(halves);
    SecondWalk(halves, atan2);
    WalkUpper(halves, atan2, u);
    assert (2, 4) !in u;
    hide OutsideUsed, LowerUsed, UpperUsed;
    var two := [OUTSIDE] + [[0, 1, 2, 3]];
    CameRound(halves, atan2, 9, two, u, (2, 4), [2, 4, 5, 6], u + UpperUsed());
    forall i: nat | 10 <= i < 16 ensures STARTS[i] in u + UpperUsed() { StartsUsed(i); }
    CameBy(halves, atan2, 10, 16, two + [[2, 4, 5, 6]], u + UpperUsed());
    assert two + [[2, 4, 5, 6]] == [OUTSIDE, [0, 1, 2, 3], [2, 4, 5, 6]];
  }

  lemma {:induction false} NoneCame(halves: set<Half>, atan2: (real, real) -> real)
    requires Laid(halves)
    ensures Came(halves, atan2, 0, [], {})
  {
    assert STARTS[..0] == [];
  }

  lemma {:induction false} AllUsed(halves: set<Half>)
    requires Laid(halves)
    ensures OutsideUsed() + LowerUsed() + UpperUsed() <= halves
  {
    forall h | h in OutsideUsed() + LowerUsed() + UpperUsed() ensures h in halves { assert Linked(h.0, h.1); }
  }

  // ---------------------------------------------------------------- rings

  lemma {:induction false} SweptMore(poly: seq<Pt>, k: nat, v: real, w: real)
    requires k + 1 < |poly| && Volume.Swept(poly, k) == v && Shoe(poly[k], poly[k + 1]) == w - v
    ensures Volume.Swept(poly, k + 1) == w
  {
    hide Shoe;
  }

  lemma {:induction false} SweptLast(poly: seq<Pt>, v: real, w: real)
    requires poly != [] && Volume.Swept(poly, |poly| - 1) == v && Shoe(poly[|poly| - 1], poly[0]) == w - v
    ensures LoopShoe(poly, Identity(|poly|)) == w
  {
    hide Shoe, LoopShoe, Identity;
    Volume.SweptIsLoop(poly);
  }

  function OutsideRing(): seq<Pt> {
    [Pt(0.0, 0.0), Pt(0.0, 1.0), Pt(1.0, 1.0), Pt(1.0, 2.0), Pt(2.0, 2.0), Pt(2.0, 1.0), Pt(1.0, 1.0), Pt(1.0, 0.0)]
  }

  lemma {:induction false} OutsideShoes(r: seq<Pt>)
    requires r == OutsideRing()
    ensures Shoe(r[0], r[1]) == 0.0 && Shoe(r[1], r[2]) == -1.0 && Shoe(r[2], r[3]) == 1.0 && Shoe(r[3], r[4]) == -2.0
    ensures Shoe(r[4], r[5]) == -2.0 && Shoe(r[5], r[6]) == 1.0 && Shoe(r[6], r[7]) == -1.0 && Shoe(r[7], r[0]) == 0.0
  {
  }

  /** Round the outside the area is negative. */
  lemma {:induction false} OutsideArea(r: seq<Pt>)
    requires r == OutsideRing()
    ensures LoopShoe(r, Identity(|r|)) == -4.0
  {
    hide LoopShoe, Volume.Swept, Identity, Shoe;
    OutsideShoes(r);
    NoneSwept(r);
    SweptMore(r, 0, 0.0, 0.0);
    SweptMore(r, 1, 0.0, -1.0);
    SweptMore(r, 2, -1.0, 0.0);
    SweptMore(r, 3, 0.0, -2.0);
    SweptMore(r, 4, -2.0, -4.0);
    SweptMore(r, 5, -4.0, -3.0);
    SweptMore(r, 6, -3.0, -4.0);
    SweptLast(r, -4.0, -4.0);
  }

  lemma {:induction false} NoneSwept(r: seq<Pt>)
    ensures Volume.Swept(r, 0) == 0.0
  {
  }

  /** A unit square. */
  function UnitAt(x: real): seq<Pt> { [Pt(x, x), Pt(x + 1.0, x), Pt(x + 1.0, x + 1.0), Pt(x, x + 1.0)] }

  lemma {:induction false} UnitShoes(x: real)
    ensures var r := UnitAt(x); Shoe(r[0], r[1]) == -x && Shoe(r[1], r[2]) == x + 1.0 && Shoe(r[2], r[3]) == x + 1.0 && Shoe(r[3], r[0]) == -x
  {
  }

  lemma {:induction false} UnitArea(x: real)
    ensures var r := UnitAt(x); LoopShoe(r, Identity(|r|)) == 2.0
  {
    var r := UnitAt(x);
    UnitShoes(x);
    hide LoopShoe, Volume.Swept, Identity, Shoe;
    NoneSwept(r);
    SweptMore(r, 0, 0.0, -x);
    SweptMore(r, 1, -x, 1.0);
    SweptMore(r, 2, 1.0, 2.0 + x);
    SweptLast(r, 2.0 + x, 2.0);
  }

  lemma {:induction false} UnitCrosses(x: real)
    ensures var r := UnitAt(x); Cross(r[2], r[3], r[0]) == 1.0 && Cross(r[2], r[3], r[1]) == 1.0
    ensures var r := UnitAt(x); Cross(r[3], r[0], r[1]) == 1.0 && Cross(r[3], r[0], r[2]) == 1.0
  {
  }

  lemma {:induction false} UnitUncrossed(x: real)
    ensures !SelfIntersects(UnitAt(x))
  {
    var r := UnitAt(x);
    UnitCrosses(x);
    hide Cross;
    forall i, j | 0 <= i < j < 4 ensures !EdgesCross(r, i, j) {
      if !((i == 0 && j == 2) || (i == 1 && j == 3)) { Beside(i, j); }
    }
  }

  lemma {:induction false} Beside(i: nat, j: nat)
    requires i < j < 4 && !(i == 0 && j == 2) && !(i == 1 && j == 3)
    ensures (i + 1) % 4 == j || (j + 1) % 4 == i
  {
  }

  lemma {:induction false} UnitRing(loop: seq<nat>, x: real)
    requires InPos(SPOTS, loop) && Points(SPOTS, loop) == UnitAt(x)
    ensures RingOf(SPOTS, loop) == [UnitAt(x)]
  {
    UnitArea(x);
    UnitUncrossed(x);
    LeastIsCanonical(UnitAt(x));
    hide LoopShoe, SelfIntersects, CanonicalOf, Identity;
  }

  lemma {:induction false} NoRing(loop: seq<nat>)
    requires loop == OUTSIDE
    ensures InPos(SPOTS, loop) && RingOf(SPOTS, loop) == []
  {
    assert Points(SPOTS, loop) == OutsideRing();
    OutsideArea(OutsideRing());
    hide LoopShoe, SelfIntersects, Identity;
  }

  lemma {:induction false} RingsMore(loops: seq<seq<nat>>, loop: seq<nat>)
    requires AllInPos(SPOTS, loops) && InPos(SPOTS, loop)
    ensures AllInPos(SPOTS, loops + [loop]) && RingsOf(SPOTS, loops + [loop]) == RingsOf(SPOTS, loops) + RingOf(SPOTS, loop)
  {
    var all := loops + [loop];
    assert all[..|loops|] == loops;
    hide RingOf;
  }

  lemma {:induction false} SquarePoints()
    ensures InPos(SPOTS, [0, 1, 2, 3]) && Points(SPOTS, [0, 1, 2, 3]) == UnitAt(0.0) == LOWER
    ensures InPos(SPOTS, [2, 4, 5, 6]) && Points(SPOTS, [2, 4, 5, 6]) == UnitAt(1.0) == UPPER
  {
  }

  lemma {:induction false} TwoRings(loops: seq<seq<nat>>)
    requires loops == [OUTSIDE, [0, 1, 2, 3], [2, 4, 5, 6]]
    ensures AllInPos(SPOTS, loops) && RingsOf(SPOTS, loops) == [LOWER, UPPER]
  {
    NoRing(OUTSIDE);
    SquarePoints();
    UnitRing([0, 1, 2, 3], 0.0);
    UnitRing([2, 4, 5, 6], 1.0);
    hide RingOf, Points, RingsOf, UnitAt, InPos, AllInPos;
    ThreeLoops(OUTSIDE, [0, 1, 2, 3], [2, 4, 5, 6], LOWER, UPPER);
  }

  lemma {:induction false} ThreeLoops(a: seq<nat>, b: seq<nat>, c: seq<nat>, lower: seq<Pt>, upper: seq<Pt>)
    requires InPos(SPOTS, a) && InPos(SPOTS, b) && InPos(SPOTS, c)
    requires RingOf(SPOTS, a) == [] && RingOf(SPOTS, b) == [lower] && RingOf(SPOTS, c) == [upper]
    ensures AllInPos(SPOTS, [a, b, c]) && RingsOf(SPOTS, [a, b, c]) == [lower, upper]
  {
    hide RingOf, RingsOf, InPos, AllInPos;
    NoLoops();
    RingsMore([], a);
    RingsMore([] + [a], b);
    RingsMore([] + [a] + [b], c);
    assert [] + [a] + [b] + [c] == [a, b, c];
  }

  lemma {:induction false} NoLoops()
    ensures AllInPos(SPOTS, []) && RingsOf(SPOTS, []) == []
  {
  }

  lemma {:induction false} SquaresLaid()
    ensures Laid(Kept(SQUARES, SPOTS, n => true))
  {
    hide Weld, Times;
    forall a: nat, b: nat ensures (a, b) in Kept(SQUARES, SPOTS, n => true) <==> Linked(a, b) { SquaresKept(a, b); }
  }

  /** The faces from the sorted starts. */
  lemma {:induction false} SquareFaces(halves: set<Half>, atan2: (real, real) -> real, starts: seq<Half>)
    requires Laid(halves) && IsAngle(atan2) && multiset(starts) == multiset(halves) && Sorted(starts, StartLe(SPOTS))
    ensures FacesOf(halves, SPOTS, atan2, starts) == [LOWER, UPPER]
  {
    hide IsAngle, Sorted, Walks, RingsOf, InPlane, AllInPos;
    StartsOnce(halves);
    FromHalves(STARTS, halves);
    FromHalves(starts, halves);
    StartOrder(SPOTS);
    SpotsDiffer();
    StartStrict(SPOTS, STARTS, halves);
    SortedUnique(STARTS, starts, StartLe(SPOTS));
    ThreeWalks(halves, atan2);
    WholeStarts();
    TwoRings([OUTSIDE, [0, 1, 2, 3], [2, 4, 5, 6]]);
  }

  lemma {:induction false} WholeStarts()
    ensures STARTS[..16] == STARTS
  {
  }

  /** Two squares that touch at a corner are stitched into two rings, whatever the angle
      function, and none that goes through the corner twice. */
  lemma {:induction false} SquaresStitched(atan2: (real, real) -> real, rings: seq<seq<Pt>>)
    requires Stitched(SQUARES, n => true, atan2, rings) && IsAngle(atan2)
    ensures rings == [LOWER, UPPER]
  {
    SquaresWelded();
    SquaresLaid();
    hide Kept, WeldAll, IsAngle, Sorted, FacesOf, RingLe, Laid, InPlane;
    var halves := Kept(SQUARES, SPOTS, n => true);
    var starts, raw :| StitchedBy(halves, SPOTS, atan2, starts, raw, rings);
    SquareFaces(halves, atan2, starts);
    RingOrder(rings);
    TwoSorted();
    SortedUnique(rings, [LOWER, UPPER], RingLe);
  }

  lemma {:induction false} TwoSorted()
    ensures Sorted([LOWER, UPPER], RingLe)
  {
  }
}
