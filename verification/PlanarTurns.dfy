// Which way a stitched walk turns: by cross products alone, always the sharpest left.
module PlanarTurns {
  import opened Common
  import opened GeoTriangulate
  import opened PlanarBoundary
  import opened PlanarStitch
  import Poly = PolySimple

  // ---------------------------------------------------------------- turns

  function Step(a: Pt, b: Pt): Pt { Pt(b.x - a.x, b.y - a.y) }

  function Wedge(u: Pt, v: Pt): real { u.x * v.y - u.y * v.x }

  function Inner(u: Pt, v: Pt): real { u.x * v.x + u.y * v.y }

  /** How a direction lies to the one come by, from the right round to straight back. */
  datatype Way = ToRight | Ahead | ToLeft | Back

  function WayOf(i: Pt, o: Pt): Way {
    if Wedge(i, o) < 0.0 then ToRight
    else if Wedge(i, o) > 0.0 then ToLeft
    else if Inner(i, o) > 0.0 then Way.Ahead else Back
  }

  function Rank(w: Way): nat { match w case ToRight => 0 case Ahead => 1 case ToLeft => 2 case Back => 3 }

  /** Coming by `i`, turning to `v` is turning further left than to `u`. */
  predicate FurtherLeft(i: Pt, u: Pt, v: Pt) {
    var a, b := WayOf(i, u), WayOf(i, v);
    Rank(a) < Rank(b) || (a == b && (a.ToRight? || a.ToLeft?) && Wedge(u, v) > 0.0)
  }

  const EAST := Pt(1.0, 0.0)

  /** An angle function: it grows as a direction turns left, from straight back round by the
      right, ahead and the left to straight back, and takes the same value only along one ray. */
  ghost predicate IsAngle(atan2: (real, real) -> real) {
    forall u: Pt, v: Pt {:trigger atan2(u.y, u.x), atan2(v.y, v.x)} :: u != Pt(0.0, 0.0) && v != Pt(0.0, 0.0) ==>
      (atan2(u.y, u.x) < atan2(v.y, v.x) <==> FurtherLeft(EAST, u, v))
  }

  /** A direction turned back by the angle of `i`, and stretched. */
  function Relative(i: Pt, o: Pt): Pt { Pt(Inner(i, o), Wedge(i, o)) }

  lemma {:induction false} RelativeWedge(i: Pt, u: Pt, v: Pt)
    ensures Wedge(Relative(i, u), Relative(i, v)) == Inner(i, i) * Wedge(u, v)
  {
  }

  lemma {:induction false} RelativeNonzero(i: Pt, o: Pt)
    requires i != Pt(0.0, 0.0) && o != Pt(0.0, 0.0)
    ensures Relative(i, o) != Pt(0.0, 0.0) && Inner(i, i) > 0.0
  {
    SquarePositive(i);
    SquarePositive(o);
    Lengths(i, o);
  }

  lemma {:induction false} Lengths(i: Pt, o: Pt)
    ensures Inner(i, i) * Inner(o, o) == Inner(i, o) * Inner(i, o) + Wedge(i, o) * Wedge(i, o)
  {
  }

  lemma {:induction false} SquarePositive(i: Pt)
    requires i != Pt(0.0, 0.0)
    ensures Inner(i, i) > 0.0
  {
    Poly.Squares(i.x, i.y);
  }

  lemma {:induction false} RelativeWays(i: Pt, o: Pt)
    ensures WayOf(EAST, Relative(i, o)) == WayOf(i, o)
  {
  }

  lemma {:induction false} SameSign(k: real, w: real, z: real)
    requires k > 0.0 && z == k * w
    ensures z > 0.0 <==> w > 0.0
  {
    if w > 0.0 { assert k * w > 0.0; } else { assert k * w <= 0.0; }
  }

  lemma {:induction false} RelativeFurther(i: Pt, u: Pt, v: Pt)
    requires i != Pt(0.0, 0.0) && u != Pt(0.0, 0.0) && v != Pt(0.0, 0.0)
    ensures FurtherLeft(EAST, Relative(i, u), Relative(i, v)) <==> FurtherLeft(i, u, v)
  {
    RelativeWays(i, u);
    RelativeWays(i, v);
    RelativeWedge(i, u, v);
    RelativeNonzero(i, u);
    hide WayOf, Relative, Wedge, Inner;
    SameSign(Inner(i, i), Wedge(u, v), Wedge(Relative(i, u), Relative(i, v)));
  }

  /** The walk's angle comparison is turning further left, by cross products. */
  lemma {:induction false} TurnIsLeft(pos: seq<Pt>, atan2: (real, real) -> real, prev: nat, cur: nat, n: nat, m: nat)
    requires prev < |pos| && cur < |pos| && n < |pos| && m < |pos| && IsAngle(atan2)
    requires pos[prev] != pos[cur] && pos[cur] != pos[n] && pos[cur] != pos[m]
    ensures TurnTo(pos, atan2, prev, cur, n) < TurnTo(pos, atan2, prev, cur, m)
      <==> FurtherLeft(Step(pos[prev], pos[cur]), Step(pos[cur], pos[n]), Step(pos[cur], pos[m]))
  {
    var i, u, v := Step(pos[prev], pos[cur]), Step(pos[cur], pos[n]), Step(pos[cur], pos[m]);
    RelativeNonzero(i, u);
    RelativeNonzero(i, v);
    RelativeFurther(i, u, v);
    hide FurtherLeft;
    var r, s := Relative(i, u), Relative(i, v);
    TurnIsRelative(pos, atan2, prev, cur, n);
    TurnIsRelative(pos, atan2, prev, cur, m);
    hide TurnTo, Relative;
    assert atan2(r.y, r.x) < atan2(s.y, s.x) <==> FurtherLeft(EAST, r, s);
  }

  lemma {:induction false} TurnIsRelative(pos: seq<Pt>, atan2: (real, real) -> real, prev: nat, cur: nat, n: nat)
    requires prev < |pos| && cur < |pos| && n < |pos|
    ensures var r := Relative(Step(pos[prev], pos[cur]), Step(pos[cur], pos[n])); TurnTo(pos, atan2, prev, cur, n) == atan2(r.y, r.x)
  {
    var r := Relative(Step(pos[prev], pos[cur]), Step(pos[cur], pos[n]));
    RelativeParts(pos[prev], pos[cur], pos[n]);
    hide Relative, Step;
    TurnAt(pos, atan2, prev, cur, n, r.y, r.x);
  }

  lemma {:induction false} TurnAt(pos: seq<Pt>, atan2: (real, real) -> real, prev: nat, cur: nat, n: nat, y: real, x: real)
    requires prev < |pos| && cur < |pos| && n < |pos|
    requires var p, c, q := pos[prev], pos[cur], pos[n];
      y == (c.x - p.x) * (q.y - c.y) - (c.y - p.y) * (q.x - c.x) && x == (c.x - p.x) * (q.x - c.x) + (c.y - p.y) * (q.y - c.y)
    ensures TurnTo(pos, atan2, prev, cur, n) == atan2(y, x)
  {
  }

  lemma {:induction false} RelativeParts(p: Pt, c: Pt, q: Pt)
    ensures Relative(Step(p, c), Step(c, q)).x == (c.x - p.x) * (q.x - c.x) + (c.y - p.y) * (q.y - c.y)
    ensures Relative(Step(p, c), Step(c, q)).y == (c.x - p.x) * (q.y - c.y) - (c.y - p.y) * (q.x - c.x)
  {
  }

  // ---------------------------------------------------------------- the edge taken

  /** Of the open edges out of `cur`, not back to `prev`, the one to `n` turns furthest left;
      of several along one ray it is the one to the smallest id. */
  ghost predicate Sharpest(halves: set<Half>, pos: seq<Pt>, used: set<Half>, prev: nat, cur: nat, n: nat)
    requires InPlane(halves, pos) && prev < |pos| && cur < |pos|
  {
    && Open(halves, used, cur, n) && n != prev
    && forall m: nat :: Open(halves, used, cur, m) && m != prev ==> NotBehind(pos, prev, cur, n, m)
  }

  predicate NotBehind(pos: seq<Pt>, prev: nat, cur: nat, n: nat, m: nat)
    requires prev < |pos| && cur < |pos| && n < |pos| && m < |pos|
  {
    var i, u, v := Step(pos[prev], pos[cur]), Step(pos[cur], pos[n]), Step(pos[cur], pos[m]);
    !FurtherLeft(i, u, v) && (FurtherLeft(i, v, u) || n <= m)
  }

  lemma {:induction false} AheadIsNotBehind(pos: seq<Pt>, atan2: (real, real) -> real, prev: nat, cur: nat, n: nat, m: nat)
    requires NoRepeats(pos) && IsAngle(atan2) && prev < |pos| && cur < |pos| && n < |pos| && m < |pos|
    requires prev != cur && cur != n && cur != m
    ensures PlanarStitch.Ahead(pos, atan2, prev, cur, n, m) <==> NotBehind(pos, prev, cur, n, m)
  {
    TurnIsLeft(pos, atan2, prev, cur, n, m);
    TurnIsLeft(pos, atan2, prev, cur, m, n);
    hide FurtherLeft, TurnTo, IsAngle;
  }

  lemma {:induction false} BestIsSharpest(halves: set<Half>, pos: seq<Pt>, atan2: (real, real) -> real, used: set<Half>, prev: nat, cur: nat, n: nat)
    requires NoRepeats(pos) && IsAngle(atan2) && InPlane(halves, pos) && prev < |pos| && cur < |pos| && prev != cur
    ensures IsBest(halves, pos, atan2, used, prev, cur, n) <==> Sharpest(halves, pos, used, prev, cur, n)
  {
    hide IsAngle, NotBehind, PlanarStitch.Ahead;
    if Open(halves, used, cur, n) {
      forall m: nat | Open(halves, used, cur, m) ensures PlanarStitch.Ahead(pos, atan2, prev, cur, n, m) <==> NotBehind(pos, prev, cur, n, m) {
        assert (cur, n) in halves && (cur, m) in halves;
        AheadIsNotBehind(pos, atan2, prev, cur, n, m);
      }
    }
  }

  /** The edge a walk takes, whatever the angle function: the sharpest left turn, or back when
      nothing else is open. */
  lemma {:induction false} NextIsSharpest(halves: set<Half>, pos: seq<Pt>, atan2: (real, real) -> real, used: set<Half>, prev: nat, cur: nat, n: nat)
    requires NoRepeats(pos) && IsAngle(atan2) && InPlane(halves, pos) && prev < |pos| && cur < |pos| && prev != cur && n != prev
    ensures PlanarStitch.NextOf(halves, pos, atan2, used, prev, cur) == Some(n) <==> Sharpest(halves, pos, used, prev, cur, n)
  {
    hide IsAngle, Sharpest, IsBest;
    BestIsSharpest(halves, pos, atan2, used, prev, cur, n);
    if IsBest(halves, pos, atan2, used, prev, cur, n) {
      var m: nat :| PlanarStitch.NextOf(halves, pos, atan2, used, prev, cur) == Some(m) && IsBest(halves, pos, atan2, used, prev, cur, m);
      BestUnique(halves, pos, atan2, used, prev, cur, n, m);
    }
  }

  /** So nothing open lies to the left of the turn: an open edge left of the line come by finds
      the edge taken left of it too, and is never left of the edge taken. */
  lemma {:induction false} NothingLeft(halves: set<Half>, pos: seq<Pt>, used: set<Half>, prev: nat, cur: nat, n: nat, m: nat)
    requires InPlane(halves, pos) && prev < |pos| && cur < |pos| && Sharpest(halves, pos, used, prev, cur, n)
    requires Open(halves, used, cur, m) && m != prev
    ensures m < |pos| && n < |pos|
    ensures var i, u, v := Step(pos[prev], pos[cur]), Step(pos[cur], pos[n]), Step(pos[cur], pos[m]);
      && (Wedge(i, v) > 0.0 ==> Wedge(i, u) >= 0.0)
      && (Wedge(i, v) > 0.0 && Wedge(i, u) == 0.0 ==> Inner(i, u) <= 0.0)
      && (Wedge(i, v) > 0.0 && Wedge(i, u) > 0.0 ==> Wedge(u, v) <= 0.0)
      && (Wedge(i, u) < 0.0 ==> Wedge(i, v) < 0.0 && Wedge(u, v) <= 0.0)
  {
    assert (cur, m) in halves && (cur, n) in halves;
    assert NotBehind(pos, prev, cur, n, m);
    hide Wedge, Inner;
  }

  // ---------------------------------------------------------------- along a walk

  /** The half-edges of the first `k` steps of a path. */
  function Steps(vs: seq<nat>, k: nat): set<Half>
    requires k < |vs|
  {
    if k == 0 then {} else Steps(vs, k - 1) + {(vs[k - 1], vs[k])}
  }

  lemma {:induction false} StepsKept(vs: seq<nat>, n: nat, k: nat)
    requires k < |vs|
    ensures Steps(vs + [n], k) == Steps(vs, k)
  {
    if k > 0 { StepsKept(vs, n, k - 1); }
  }

  /** The edge taken: the sharpest left turn among the open ones, or back when none is open. */
  ghost predicate Taken(halves: set<Half>, pos: seq<Pt>, used: set<Half>, prev: nat, cur: nat, n: nat)
    requires InPlane(halves, pos)
  {
    && prev < |pos| && cur < |pos|
    && if n != prev then Sharpest(halves, pos, used, prev, cur, n)
       else Open(halves, used, cur, n) && forall m: nat :: m != prev ==> !Open(halves, used, cur, m)
  }

  /** At its `k`th vertex the path takes that edge, those of earlier walks and its own used. */
  ghost predicate TurnsAt(halves: set<Half>, pos: seq<Pt>, before: set<Half>, vs: seq<nat>, k: nat)
    requires InPlane(halves, pos) && 0 < k < |vs| - 1
  {
    Taken(halves, pos, before + Steps(vs, k), vs[k - 1], vs[k], vs[k + 1])
  }

  /** ... and so at every vertex. */
  ghost predicate TurnsLeft(halves: set<Half>, pos: seq<Pt>, before: set<Half>, vs: seq<nat>)
    requires InPlane(halves, pos)
  {
    forall k: nat :: 0 < k < |vs| - 1 ==> TurnsAt(halves, pos, before, vs, k)
  }

  lemma {:induction false} NextIsTaken(halves: set<Half>, pos: seq<Pt>, atan2: (real, real) -> real, used: set<Half>, prev: nat, cur: nat, n: nat)
    requires NoRepeats(pos) && IsAngle(atan2) && InPlane(halves, pos) && prev < |pos| && cur < |pos| && prev != cur
    requires PlanarStitch.NextOf(halves, pos, atan2, used, prev, cur) == Some(n)
    ensures Taken(halves, pos, used, prev, cur, n)
  {
    hide IsAngle, PlanarStitch.Ahead, NotBehind;
    if n != prev {
      NextIsSharpest(halves, pos, atan2, used, prev, cur, n);
    } else if m: nat :| Open(halves, used, cur, m) && m != prev {
      var b := SomeBest(halves, pos, atan2, used, prev, cur, m);
      NextIsBest(halves, pos, atan2, used, prev, cur, b);
    }
  }

  lemma {:induction false} NextIsBest(halves: set<Half>, pos: seq<Pt>, atan2: (real, real) -> real, used: set<Half>, prev: nat, cur: nat, b: nat)
    requires InPlane(halves, pos) && prev < |pos| && cur < |pos| && IsBest(halves, pos, atan2, used, prev, cur, b)
    ensures PlanarStitch.NextOf(halves, pos, atan2, used, prev, cur) == Some(b) && b != prev
  {
    hide PlanarStitch.Ahead;
    var m: nat :| PlanarStitch.NextOf(halves, pos, atan2, used, prev, cur) == Some(m) && IsBest(halves, pos, atan2, used, prev, cur, m);
    BestUnique(halves, pos, atan2, used, prev, cur, m, b);
  }

  /** Of open edges there is a best one. */
  lemma {:induction false} SomeBest(halves: set<Half>, pos: seq<Pt>, atan2: (real, real) -> real, used: set<Half>, prev: nat, cur: nat, m: nat) returns (b: nat)
    requires InPlane(halves, pos) && prev < |pos| && cur < |pos| && Open(halves, used, cur, m) && m != prev
    ensures IsBest(halves, pos, atan2, used, prev, cur, b)
  {
    assert forall n: nat :: Open(halves, used, cur, n) ==> (cur, n) in halves && n < |pos|;
    b := BestBelow(halves, pos, atan2, used, prev, cur, m, |pos|);
  }

  lemma {:induction false} BestBelow(halves: set<Half>, pos: seq<Pt>, atan2: (real, real) -> real, used: set<Half>, prev: nat, cur: nat, m: nat, k: nat) returns (b: nat)
    requires InPlane(halves, pos) && prev < |pos| && cur < |pos| && Open(halves, used, cur, m) && m != prev && m < |pos| && k <= |pos|
    ensures Open(halves, used, cur, b) && b != prev && b < |pos| && PlanarStitch.Ahead(pos, atan2, prev, cur, b, m)
    ensures forall n: nat :: n < k && Open(halves, used, cur, n) && n != prev ==> PlanarStitch.Ahead(pos, atan2, prev, cur, b, n)
  {
    hide TurnTo;
    b := m;
    if k > 0 {
      b := BestBelow(halves, pos, atan2, used, prev, cur, m, k - 1);
      var n := k - 1;
      if Open(halves, used, cur, n) && n != prev && !PlanarStitch.Ahead(pos, atan2, prev, cur, b, n) { b := n; }
    }
  }

  lemma {:induction false} TurnsMore(halves: set<Half>, pos: seq<Pt>, before: set<Half>, vs: seq<nat>, n: nat)
    requires InPlane(halves, pos) && |vs| >= 2 && TurnsLeft(halves, pos, before, vs)
    requires var k := |vs| - 1; Taken(halves, pos, before + Steps(vs, k), vs[k - 1], vs[k], n)
    ensures TurnsLeft(halves, pos, before, vs + [n])
    ensures Steps(vs + [n], |vs|) == Steps(vs, |vs| - 1) + {(vs[|vs| - 1], n)}
  {
    hide Taken, Steps;
    var ws := vs + [n];
    forall k: nat | 0 < k < |ws| - 1 ensures TurnsAt(halves, pos, before, ws, k) {
      StepsKept(vs, n, k);
      if k < |vs| - 1 { assert TurnsAt(halves, pos, before, vs, k); }
    }
    StepsLast(vs, n);
  }

  lemma {:induction false} StepsLast(vs: seq<nat>, n: nat)
    requires vs != []
    ensures Steps(vs + [n], |vs|) == Steps(vs, |vs| - 1) + {(vs[|vs| - 1], n)}
  {
    StepsKept(vs, n, |vs| - 1);
  }

  /** A walk that closes turns as far left as it can at every vertex it comes through. */
  lemma {:induction false} WalkTurnsLeft(halves: set<Half>, pos: seq<Pt>, atan2: (real, real) -> real, before: set<Half>, used: set<Half>, loop: seq<nat>, prev: nat, cur: nat)
    requires NoRepeats(pos) && IsAngle(atan2) && Walkable(halves, pos, used) && loop != [] && prev < |pos| && cur < |pos|
    requires prev == loop[|loop| - 1] && prev != cur
    requires var vs := loop + [cur]; TurnsLeft(halves, pos, before, vs) && used == before + Steps(vs, |vs| - 1)
    ensures var r := Walk(halves, pos, atan2, used, loop, prev, cur).0; r != [] ==> TurnsLeft(halves, pos, before, r + [r[0]])
    decreases |halves - used|
  {
    hide InPlane, IsAngle, Taken, PlanarStitch.NextOf, NoRepeats, Steps, TurnsLeft;
    if cur != loop[0] {
      NextIsOpen(halves, pos, atan2, used, prev, cur);
      match PlanarStitch.NextOf(halves, pos, atan2, used, prev, cur)
      case None =>
      case Some(n) =>
        Shrinks(halves, used, (cur, n));
        StartInPlane(halves, pos, (cur, n));
        if |loop| + 1 <= |pos| + 1 {
          NextIsTaken(halves, pos, atan2, used, prev, cur, n);
          TurnsMore(halves, pos, before, loop + [cur], n);
          WalkTurnsLeft(halves, pos, atan2, before, used + {(cur, n)}, loop + [cur], cur, n);
        }
    }
  }

  /** Each closed walk turns left, given the half-edges used when it began. */
  ghost predicate TurnLeft(halves: set<Half>, pos: seq<Pt>, loop: seq<nat>)
    requires InPlane(halves, pos)
  {
    loop != [] && exists before: set<Half> :: before <= halves && TurnsLeft(halves, pos, before, loop + [loop[0]])
  }

  lemma {:induction false} WalkFromStart(halves: set<Half>, pos: seq<Pt>, atan2: (real, real) -> real, u: set<Half>, st: Half)
    requires NoRepeats(pos) && IsAngle(atan2) && Walkable(halves, pos, u) && st in halves && st !in u && st.0 < |pos| && st.1 < |pos| && st.0 != st.1
    ensures Walkable(halves, pos, u + {st})
    ensures var r := Walk(halves, pos, atan2, u + {st}, [st.0], st.0, st.1).0; r != [] ==> TurnLeft(halves, pos, r)
  {
    hide IsAngle, NoRepeats, InPlane;
    var vs := [st.0] + [st.1];
    assert Steps(vs, 1) == Steps(vs, 0) + {(vs[0], vs[1])};
    assert u + {st} == u + Steps(vs, 1);
    WalkTurnsLeft(halves, pos, atan2, u, u + {st}, [st.0], st.0, st.1);
  }

  lemma {:induction false} WalksTurnLeft(halves: set<Half>, pos: seq<Pt>, atan2: (real, real) -> real, starts: seq<Half>, used: set<Half>)
    requires NoRepeats(pos) && IsAngle(atan2) && Walkable(halves, pos, used) && forall h <- starts :: h in halves
    ensures forall r <- Walks(halves, pos, atan2, starts, used).0 :: TurnLeft(halves, pos, r)
  {
    if starts != [] {
      var n := |starts| - 1;
      assert forall h <- starts[..n] :: h in starts;
      WalksTurnLeft(halves, pos, atan2, starts[..n], used);
      WalksInside(halves, pos, atan2, starts[..n], used);
      assert starts[n] in starts;
      StartInPlane(halves, pos, starts[n]);
      hide IsAngle, NoRepeats, InPlane, TurnLeft, Walk;
      var u := Walks(halves, pos, atan2, starts[..n], used).1;
      if starts[n] !in u { WalkFromStart(halves, pos, atan2, u, starts[n]); }
    }
  }

  /** Whatever the angle function, every stitched ring is the ring of a closed walk over kept
      half-edges that takes the sharpest left turn at every vertex, and no half-edge is in two
      of them. */
  lemma {:induction false} StitchedTurnsLeft(segs: seq<Seg>, keep: nat -> bool, atan2: (real, real) -> real, rings: seq<seq<Pt>>) returns (loops: seq<seq<nat>>)
    requires Stitched(segs, keep, atan2, rings) && IsAngle(atan2)
    ensures var pos := WeldAll(segs).pos; var halves := Kept(segs, pos, keep);
      && InPlane(halves, pos) && Apart(loops, {}, halves) && AllInPos(pos, loops)
      && multiset(rings) == multiset(RingsOf(pos, loops))
      && forall r <- loops :: TurnLeft(halves, pos, r)
  {
    hide IsAngle, Apart;
    var pos := WeldAll(segs).pos;
    var halves := Kept(segs, pos, keep);
    var starts, raw :| StitchedBy(halves, pos, atan2, starts, raw, rings);
    WeldAllValid(segs);
    WeldedDistinct(WeldAll(segs));
    FromHalves(starts, halves);
    WalksInPlane(halves, pos, atan2, starts, {});
    WalksApart(halves, pos, atan2, starts, {});
    WalksTurnLeft(halves, pos, atan2, starts, {});
    loops := Walks(halves, pos, atan2, starts, {}).0;
    hide Walks, Kept, WeldAll, RingsOf, TurnLeft;
    ApartKept(loops, {}, Walks(halves, pos, atan2, starts, {}).1, halves);
  }

  // ---------------------------------------------------------------- an angle function, and crossings

  /** Not the angle itself, but as good: how far round the square of the four unit points. */
  function SquareAngle(y: real, x: real): real {
    if y == 0.0 then (if x >= 0.0 then 0.0 else 2.0)
    else if y > 0.0 then 1.0 - x / (AbsReal(x) + y)
    else x / (AbsReal(x) - y) - 1.0
  }

  lemma {:induction false} Ratio(x: real, y: real) returns (r: real)
    requires y > 0.0
    ensures r == x / (AbsReal(x) + y) && r * (AbsReal(x) + y) == x && -1.0 < r < 1.0
  {
    var n := AbsReal(x) + y;
    r := x / n;
    assert r * n == x;
    Poly.Signs(n, r - 1.0);
    Poly.Signs(n, r + 1.0);
    assert n * (r - 1.0) == x - n && n * (r + 1.0) == x + n;
  }

  /** Of two directions up from the axis, the one further left has the smaller ratio. */
  lemma {:induction false} RatioOrder(x: real, y: real, z: real, w: real, r: real, s: real)
    requires y > 0.0 && w > 0.0 && r * (AbsReal(x) + y) == x && s * (AbsReal(z) + w) == z
    ensures r > s <==> x * w - y * z > 0.0
  {
    var m, n := AbsReal(x) + y, AbsReal(z) + w;
    Poly.Signs(m, n);
    assert (m * n) * (r - s) == x * n - z * m by { CrossTerms(m, n, r, s, x, z); }
    Poly.Signs(m * n, r - s);
    Poly.Signs(m * n, s - r);
    assert (m * n) * (s - r) == -((m * n) * (r - s));
    SameSide(x, y, z, w);
  }

  lemma {:induction false} CrossTerms(m: real, n: real, r: real, s: real, x: real, z: real)
    requires r * m == x && s * n == z
    ensures (m * n) * (r - s) == x * n - z * m
  {
    assert (m * n) * r == (r * m) * n && (m * n) * s == (s * n) * m;
  }

  lemma {:induction false} SameSide(x: real, y: real, z: real, w: real)
    requires y > 0.0 && w > 0.0
    ensures x * (AbsReal(z) + w) - z * (AbsReal(x) + y) > 0.0 <==> x * w - y * z > 0.0
  {
    Poly.Signs(y, z);
    Poly.Signs(y, -z);
    Poly.Signs(w, x);
    Poly.Signs(w, -x);
    if x >= 0.0 { Poly.Signs(x, -z); } else { Poly.Signs(-x, z); }
  }

  /** There are angle functions: what is said of every one of them is said of something. */
  lemma {:induction false} SomeAngle()
    ensures IsAngle(SquareAngle)
  {
    forall u: Pt, v: Pt | u != Pt(0.0, 0.0) && v != Pt(0.0, 0.0)
      ensures SquareAngle(u.y, u.x) < SquareAngle(v.y, v.x) <==> FurtherLeft(EAST, u, v)
    {
      AngleOrder(u, v);
    }
  }

  lemma {:induction false} EastWay(u: Pt)
    ensures WayOf(EAST, u) == if u.y < 0.0 then ToRight else if u.y > 0.0 then ToLeft else if u.x > 0.0 then Way.Ahead else Back
  {
  }

  lemma {:induction false} AngleRange(u: Pt) returns (r: real)
    ensures u.y > 0.0 ==> SquareAngle(u.y, u.x) == 1.0 - r && r * (AbsReal(u.x) + u.y) == u.x && -1.0 < r < 1.0
    ensures u.y < 0.0 ==> SquareAngle(u.y, u.x) == r - 1.0 && r * (AbsReal(u.x) + -u.y) == u.x && -1.0 < r < 1.0
  {
    r := 0.0;
    if u.y > 0.0 { r := Ratio(u.x, u.y); } else if u.y < 0.0 { r := Ratio(u.x, -u.y); }
  }

  lemma {:induction false} LevelAngle(u: Pt)
    requires u.y == 0.0 && u != Pt(0.0, 0.0)
    ensures SquareAngle(u.y, u.x) == if u.x > 0.0 then 0.0 else 2.0
  {
  }

  lemma {:induction false} WedgeMinus(u: Pt, v: Pt)
    ensures v.x * -u.y - -v.y * u.x == Wedge(u, v) == u.x * v.y - u.y * v.x
  {
  }

  lemma {:induction false} AngleOrder(u: Pt, v: Pt)
    requires u != Pt(0.0, 0.0) && v != Pt(0.0, 0.0)
    ensures SquareAngle(u.y, u.x) < SquareAngle(v.y, v.x) <==> FurtherLeft(EAST, u, v)
  {
    hide WayOf, SquareAngle, Wedge;
    EastWay(u);
    EastWay(v);
    if u.y == 0.0 { LevelAngle(u); }
    if v.y == 0.0 { LevelAngle(v); }
    var r := AngleRange(u);
    var s := AngleRange(v);
    WedgeMinus(u, v);
    if u.y > 0.0 && v.y > 0.0 {
      RatioOrder(u.x, u.y, v.x, v.y, r, s);
    } else if u.y < 0.0 && v.y < 0.0 {
      RatioOrder(v.x, -v.y, u.x, -u.y, s, r);
    }
  }
}
