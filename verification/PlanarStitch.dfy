// Walking welded segments into rings: half-edge faces, and why neither map nor adjacency
// order can reach the output.
module PlanarStitch {
  import opened Common
  import opened GeoTriangulate
  import opened PlanarBoundary
  import opened Sorting
  import Poly = PolySimple

  type Half = (nat, nat)

  // ---------------------------------------------------------------- welding

  /** Ids by weld key, in first-seen order, and each id's first-seen point. */
  datatype Welds = Welds(ids: map<Cell, nat>, pos: seq<Pt>) {
    ghost predicate Valid() {
      && (forall k <- ids :: ids[k] < |pos| && Weld(pos[ids[k]]) == k)
      && (forall i :: 0 <= i < |pos| ==> Weld(pos[i]) in ids && ids[Weld(pos[i])] == i)
    }
  }

  function AddPoint(w: Welds, p: Pt): Welds {
    if Weld(p) in w.ids then w else Welds(w.ids[Weld(p) := |w.pos|], w.pos + [p])
  }

  function WeldAll(segs: seq<Seg>): Welds {
    if segs == [] then Welds(map[], [])
    else AddPoint(AddPoint(WeldAll(segs[..|segs| - 1]), segs[|segs| - 1].0), segs[|segs| - 1].1)
  }

  function Ordered(a: nat, b: nat): Half { if a > b then (b, a) else (a, b) }

  /** Whether a segment welds to the edge between two keys, either way round. */
  predicate Joins(s: Seg, k: Cell, l: Cell) {
    (Weld(s.0) == k && Weld(s.1) == l) || (Weld(s.0) == l && Weld(s.1) == k)
  }

  /** How many segments weld to the edge between two keys. */
  function Times(segs: seq<Seg>, k: Cell, l: Cell): nat {
    if segs == [] then 0 else Times(segs[..|segs| - 1], k, l) + if Joins(segs[|segs| - 1], k, l) then 1 else 0
  }

  /** The counts name each welded edge once, smaller id first, with its number of segments. */
  ghost predicate Counted(segs: seq<Seg>, w: Welds, count: map<Half, nat>) {
    && (forall e <- count :: e.0 < e.1 < |w.pos| && count[e] > 0)
    && (forall a: nat, b: nat {:trigger (a, b) in count} :: a < b < |w.pos| ==> Get(count, (a, b)) == Times(segs, Weld(w.pos[a]), Weld(w.pos[b])))
  }

  function Get(count: map<Half, nat>, e: Half): nat { if e in count then count[e] else 0 }

  lemma {:induction false} AddPointValid(w: Welds, p: Pt)
    requires w.Valid()
    ensures AddPoint(w, p).Valid() && w.pos <= AddPoint(w, p).pos && Weld(p) in AddPoint(w, p).ids
    ensures w.ids.Keys <= AddPoint(w, p).ids.Keys
  {
    hide Weld;
  }

  /** A key no segment has does not occur in any edge. */
  lemma {:induction false} NewKeyUncounted(segs: seq<Seg>, k: Cell, l: Cell)
    requires forall s <- segs :: Weld(s.0) != k && Weld(s.1) != k
    ensures Times(segs, k, l) == 0 && Times(segs, l, k) == 0
  {
    hide Weld;
    if segs != [] {
      assert segs[|segs| - 1] in segs;
      NewKeyUncounted(segs[..|segs| - 1], k, l);
    }
  }

  lemma {:induction false} WeldAllValid(segs: seq<Seg>)
    ensures WeldAll(segs).Valid()
    ensures forall s <- segs :: Weld(s.0) in WeldAll(segs).ids && Weld(s.1) in WeldAll(segs).ids
  {
    if segs != [] {
      var front, s := segs[..|segs| - 1], segs[|segs| - 1];
      WeldAllValid(front);
      AddPointValid(WeldAll(front), s.0);
      AddPointValid(AddPoint(WeldAll(front), s.0), s.1);
      forall x | x in segs ensures Weld(x.0) in WeldAll(segs).ids && Weld(x.1) in WeldAll(segs).ids {
        assert x in front || x == s;
      }
    }
  }

  // ---------------------------------------------------------------- kept half-edges

  /** Whether `keep` accepts the number of segments that weld to an edge; direction is ignored. */
  ghost predicate KeptEdge(segs: seq<Seg>, pos: seq<Pt>, keep: nat -> bool, a: nat, b: nat) {
    && a < |pos| && b < |pos| && a != b
    && var n := Times(segs, Weld(pos[a]), Weld(pos[b])); n > 0 && keep(n)
  }

  /** Both directions of every edge kept. */
  ghost function Kept(segs: seq<Seg>, pos: seq<Pt>, keep: nat -> bool): set<Half> {
    set a: nat, b: nat | a < |pos| && b < |pos| && KeptEdge(segs, pos, keep, a, b) :: (a, b)
  }

  lemma {:induction false} TimesEitherWay(segs: seq<Seg>, k: Cell, l: Cell)
    ensures Times(segs, k, l) == Times(segs, l, k)
  {
    hide Weld;
    if segs != [] { TimesEitherWay(segs[..|segs| - 1], k, l); }
  }

  ghost predicate InPlane(halves: set<Half>, pos: seq<Pt>) {
    forall h <- halves :: h.0 < |pos| && h.1 < |pos| && h.0 != h.1
  }

  /** `v` is on `u`'s list. */
  predicate Lists(adj: map<nat, seq<nat>>, u: nat, v: nat) { u in adj && v in adj[u] }

  /** Neighbour lists holding exactly the half-edges, in whatever order. */
  ghost predicate Adjacency(adj: map<nat, seq<nat>>, halves: set<Half>) {
    && (forall u: nat, v: nat :: Lists(adj, u, v) <==> (u, v) in halves)
    && (forall u <- adj :: NoRepeats(adj[u]))
  }

  // ---------------------------------------------------------------- the next edge

  predicate PtLess(a: Pt, b: Pt) { if a.x != b.x then a.x < b.x else a.y < b.y }

  /** The turn from the incoming direction to the edge towards `n`, by an angle function. */
  function TurnTo(pos: seq<Pt>, atan2: (real, real) -> real, prev: nat, cur: nat, n: nat): real
    requires prev < |pos| && cur < |pos| && n < |pos|
  {
    var inx, iny := pos[cur].x - pos[prev].x, pos[cur].y - pos[prev].y;
    var ox, oy := pos[n].x - pos[cur].x, pos[n].y - pos[cur].y;
    atan2(inx * oy - iny * ox, inx * ox + iny * oy)
  }

  predicate Open(halves: set<Half>, used: set<Half>, cur: nat, n: nat) { (cur, n) in halves && (cur, n) !in used }

  /** `n` is ahead of `m`: a sharper left turn, or as sharp and a smaller id. */
  predicate Ahead(pos: seq<Pt>, atan2: (real, real) -> real, prev: nat, cur: nat, n: nat, m: nat)
    requires prev < |pos| && cur < |pos| && n < |pos| && m < |pos|
  {
    var a, b := TurnTo(pos, atan2, prev, cur, n), TurnTo(pos, atan2, prev, cur, m);
    a > b || (a == b && n <= m)
  }

  ghost predicate IsBest(halves: set<Half>, pos: seq<Pt>, atan2: (real, real) -> real, used: set<Half>, prev: nat, cur: nat, n: nat)
    requires InPlane(halves, pos) && prev < |pos| && cur < |pos|
  {
    && Open(halves, used, cur, n) && n != prev
    && forall m: nat :: Open(halves, used, cur, m) && m != prev ==> Ahead(pos, atan2, prev, cur, n, m)
  }

  lemma {:induction false} BestUnique(halves: set<Half>, pos: seq<Pt>, atan2: (real, real) -> real, used: set<Half>, prev: nat, cur: nat, n: nat, m: nat)
    requires InPlane(halves, pos) && prev < |pos| && cur < |pos|
    requires IsBest(halves, pos, atan2, used, prev, cur, n) && IsBest(halves, pos, atan2, used, prev, cur, m)
    ensures n == m
  {
    hide TurnTo;
  }

  /** The edge a walk takes next: the sharpest left turn among unused edges, turning back
      only when nothing else is left. */
  ghost function NextOf(halves: set<Half>, pos: seq<Pt>, atan2: (real, real) -> real, used: set<Half>, prev: nat, cur: nat): Option<nat>
    requires InPlane(halves, pos) && prev < |pos| && cur < |pos|
  {
    if exists n: nat :: IsBest(halves, pos, atan2, used, prev, cur, n) then
      var n: nat :| IsBest(halves, pos, atan2, used, prev, cur, n); Some(n)
    else if Open(halves, used, cur, prev) then Some(prev)
    else None
  }

  method NextEdge(ghost halves: set<Half>, adj: map<nat, seq<nat>>, pos: seq<Pt>, atan2: (real, real) -> real, used: set<Half>, prev: nat, cur: nat)
    returns (next: Option<nat>)
    requires InPlane(halves, pos) && prev < |pos| && cur < |pos| && Adjacency(adj, halves)
    ensures next == NextOf(halves, pos, atan2, used, prev, cur)
  {
    hide TurnTo;
    var best: Option<nat>, reverse: Option<nat> := None, None;
    var ns := if cur in adj then adj[cur] else [];
    assert forall n: nat :: Lists(adj, cur, n) <==> (cur, n) in halves;
    assert forall n: nat :: n in ns <==> (cur, n) in halves;
    for k := 0 to |ns|
      invariant reverse == if exists j :: 0 <= j < k && ns[j] == prev && (cur, prev) !in used then Some(prev) else None
      invariant best.None? ==> forall j :: 0 <= j < k ==> (cur, ns[j]) in used || ns[j] == prev
      invariant best.Some? ==> Open(halves, used, cur, best.value) && best.value != prev
      invariant best.Some? ==> forall j :: 0 <= j < k && (cur, ns[j]) !in used && ns[j] != prev ==> ns[j] < |pos| && Ahead(pos, atan2, prev, cur, best.value, ns[j])
    {
      var n := ns[k];
      assert n in ns && (cur, n) in halves;
      if (cur, n) in used {
        continue;
      }
      if n == prev {
        reverse := Some(n);
        continue;
      }
      if best.None? || !Ahead(pos, atan2, prev, cur, best.value, n) {
        best := Some(n);
      }
    }
    if best.Some? {
      assert IsBest(halves, pos, atan2, used, prev, cur, best.value) by {
        forall m: nat | Open(halves, used, cur, m) && m != prev ensures Ahead(pos, atan2, prev, cur, best.value, m) {
          var j :| 0 <= j < |ns| && ns[j] == m;
        }
      }
      ghost var n: nat :| IsBest(halves, pos, atan2, used, prev, cur, n);
      BestUnique(halves, pos, atan2, used, prev, cur, n, best.value);
      return best;
    }
    next := reverse;
  }

  // ---------------------------------------------------------------- walking a face

  ghost predicate Walkable(halves: set<Half>, pos: seq<Pt>, used: set<Half>) {
    InPlane(halves, pos) && used <= halves
  }

  lemma {:induction false} NextIsOpen(halves: set<Half>, pos: seq<Pt>, atan2: (real, real) -> real, used: set<Half>, prev: nat, cur: nat)
    requires InPlane(halves, pos) && prev < |pos| && cur < |pos|
    ensures var n := NextOf(halves, pos, atan2, used, prev, cur);
      n.Some? ==> Open(halves, used, cur, n.value) && n.value < |pos|
  {
    hide TurnTo;
  }

  /** The face walk: the vertices it returns with, none if it dead-ends or runs too long, and
      the half-edges consumed so far. Each turn consumes an unused half-edge. */
  ghost function Walk(halves: set<Half>, pos: seq<Pt>, atan2: (real, real) -> real, used: set<Half>, loop: seq<nat>, prev: nat, cur: nat): (seq<nat>, set<Half>)
    requires Walkable(halves, pos, used) && loop != [] && prev < |pos| && cur < |pos|
    decreases |halves - used|
  {
    if cur == loop[0] then (loop, used)
    else
      NextIsOpen(halves, pos, atan2, used, prev, cur);
      match NextOf(halves, pos, atan2, used, prev, cur)
      case None => ([], used)
      case Some(n) =>
        Shrinks(halves, used, (cur, n));
        if |loop| + 1 > |pos| + 1 then ([], used + {(cur, n)})
        else Walk(halves, pos, atan2, used + {(cur, n)}, loop + [cur], cur, n)
  }

  lemma {:induction false} Shrinks(halves: set<Half>, used: set<Half>, h: Half)
    requires used <= halves && h in halves && h !in used
    ensures used + {h} <= halves && |halves - (used + {h})| < |halves - used|
  {
    assert halves - (used + {h}) == halves - used - {h};
  }

  method WalkFace(ghost halves: set<Half>, adj: map<nat, seq<nat>>, pos: seq<Pt>, atan2: (real, real) -> real, used0: set<Half>, start: Half)
    returns (loop: seq<nat>, used: set<Half>)
    requires Walkable(halves, pos, used0) && Adjacency(adj, halves) && start in halves && start !in used0
    ensures (loop, used) == Walk(halves, pos, atan2, used0 + {start}, [start.0], start.0, start.1)
  {
    hide InPlane, Adjacency;
    var prev: nat, cur: nat := start.0, start.1;
    used, loop := used0 + {start}, [prev];
    StartInPlane(halves, pos, start);
    while cur != start.0
      invariant Walkable(halves, pos, used) && loop != [] && loop[0] == start.0 && prev < |pos| && cur < |pos|
      invariant Walk(halves, pos, atan2, used, loop, prev, cur) == Walk(halves, pos, atan2, used0 + {start}, [start.0], start.0, start.1)
      decreases |halves - used|
    {
      var next := NextEdge(halves, adj, pos, atan2, used, prev, cur);
      NextIsOpen(halves, pos, atan2, used, prev, cur);
      loop := loop + [cur];
      if next.None? {
        return [], used;
      }
      Shrinks(halves, used, (cur, next.value));
      used := used + {(cur, next.value)};
      prev, cur := cur, next.value;
      if |loop| > |pos| + 1 {
        return [], used;
      }
    }
  }

  lemma {:induction false} StartInPlane(halves: set<Half>, pos: seq<Pt>, h: Half)
    requires InPlane(halves, pos) && h in halves
    ensures h.0 < |pos| && h.1 < |pos| && h.0 != h.1
  {
  }

  // ---------------------------------------------------------------- what a walk is

  /** The half-edges along a walk's vertices, ending at `end`. */
  function Trail(loop: seq<nat>, end: nat): seq<Half> {
    if loop == [] then []
    else Trail(loop[..|loop| - 1], loop[|loop| - 1]) + [(loop[|loop| - 1], end)]
  }

  /** Half-edges each consumed once, since `before`. */
  ghost predicate Consumed(trail: seq<Half>, before: set<Half>, used: set<Half>) {
    NoRepeats(trail) && forall h <- trail :: h in used && h !in before
  }

  lemma {:induction false} TrailStep(loop: seq<nat>, cur: nat, n: nat, before: set<Half>, used: set<Half>)
    requires Consumed(Trail(loop, cur), before, used) && before <= used && (cur, n) !in used
    ensures Consumed(Trail(loop + [cur], n), before, used + {(cur, n)})
  {
    assert (loop + [cur])[..|loop|] == loop;
    var trail := Trail(loop, cur);
    assert Trail(loop + [cur], n) == trail + [(cur, n)];
    assert forall i :: 0 <= i < |trail| ==> trail[i] in trail;
  }

  /** A walk that closes is a closed walk over half-edges no earlier walk consumed, each
      consumed once. */
  lemma {:induction false} WalkCloses(halves: set<Half>, pos: seq<Pt>, atan2: (real, real) -> real, before: set<Half>, used: set<Half>, loop: seq<nat>, prev: nat, cur: nat)
    requires Walkable(halves, pos, used) && loop != [] && prev < |pos| && cur < |pos|
    requires before <= used && Consumed(Trail(loop, cur), before, used)
    ensures var (r, u) := Walk(halves, pos, atan2, used, loop, prev, cur);
      && used <= u <= halves
      && (r != [] ==> r[0] == loop[0] && Consumed(Trail(r, r[0]), before, u))
    decreases |halves - used|
  {
    hide InPlane, Consumed, Trail, NextOf;
    if cur != loop[0] {
      NextIsOpen(halves, pos, atan2, used, prev, cur);
      match NextOf(halves, pos, atan2, used, prev, cur)
      case None =>
      case Some(n) =>
        Shrinks(halves, used, (cur, n));
        if |loop| + 1 <= |pos| + 1 {
          TrailStep(loop, cur, n, before, used);
          WalkCloses(halves, pos, atan2, before, used + {(cur, n)}, loop + [cur], cur, n);
        }
    }
  }

  /** The closed walks from a list of starting half-edges, in order. */
  ghost function Walks(halves: set<Half>, pos: seq<Pt>, atan2: (real, real) -> real, starts: seq<Half>, used: set<Half>): (seq<seq<nat>>, set<Half>)
    requires Walkable(halves, pos, used) && forall h <- starts :: h in halves
    decreases |starts|, 0
  {
    if starts == [] then ([], used)
    else
      var n := |starts| - 1;
      assert forall h <- starts[..n] :: h in starts;
      var (front, u) := Walks(halves, pos, atan2, starts[..n], used);
      WalksInside(halves, pos, atan2, starts[..n], used);
      assert starts[n] in starts;
      if starts[n] in u then (front, u)
      else
        StartInPlane(halves, pos, starts[n]);
        var (loop, u') := Walk(halves, pos, atan2, u + {starts[n]}, [starts[n].0], starts[n].0, starts[n].1);
        (if loop == [] then front else front + [loop], u')
  }

  lemma {:induction false} FirstStep(h: Half, before: set<Half>)
    requires h !in before
    ensures Consumed(Trail([h.0], h.1), before, before + {h})
  {
    assert [h.0][..0] == [];
    assert Trail([h.0], h.1) == [h];
  }

  lemma {:induction false} WalksInside(halves: set<Half>, pos: seq<Pt>, atan2: (real, real) -> real, starts: seq<Half>, used: set<Half>)
    requires Walkable(halves, pos, used) && forall h <- starts :: h in halves
    ensures used <= Walks(halves, pos, atan2, starts, used).1 <= halves
    decreases |starts|, 1
  {
    hide InPlane, Walk;
    if starts != [] {
      var n := |starts| - 1;
      assert forall h <- starts[..n] :: h in starts;
      WalksInside(halves, pos, atan2, starts[..n], used);
      var u := Walks(halves, pos, atan2, starts[..n], used).1;
      assert starts[n] in starts;
      if starts[n] !in u {
        StartInPlane(halves, pos, starts[n]);
        FirstStep(starts[n], u);
        WalkCloses(halves, pos, atan2, u, u + {starts[n]}, [starts[n].0], starts[n].0, starts[n].1);
      }
    }
  }

  /** Walks that share no half-edge, none consumed before. */
  ghost predicate Apart(loops: seq<seq<nat>>, before: set<Half>, used: set<Half>) {
    && (forall i :: 0 <= i < |loops| ==> loops[i] != [] && Consumed(Trail(loops[i], loops[i][0]), before, used))
    && (forall i, j :: 0 <= i < j < |loops| ==> forall h <- Trail(loops[i], loops[i][0]) :: h !in Trail(loops[j], loops[j][0]))
  }

  lemma {:induction false} ApartMore(loops: seq<seq<nat>>, loop: seq<nat>, before: set<Half>, used: set<Half>, more: set<Half>)
    requires Apart(loops, before, used) && before <= used <= more
    requires loop != [] && Consumed(Trail(loop, loop[0]), used, more)
    ensures Apart(loops + [loop], before, more)
  {
    hide Trail, NoRepeats;
    var all := loops + [loop];
    forall i | 0 <= i < |all| ensures all[i] != [] && Consumed(Trail(all[i], all[i][0]), before, more) {
      if i < |loops| { assert all[i] == loops[i]; }
    }
    forall i, j | 0 <= i < j < |all| ensures forall h <- Trail(all[i], all[i][0]) :: h !in Trail(all[j], all[j][0]) {
      assert all[i] == loops[i];
    }
  }

  /** Every half-edge is consumed by at most one of the closed walks, and once at that; all of
      them are kept edges. */
  lemma {:induction false} WalksApart(halves: set<Half>, pos: seq<Pt>, atan2: (real, real) -> real, starts: seq<Half>, used: set<Half>)
    requires Walkable(halves, pos, used) && forall h <- starts :: h in halves
    ensures var (loops, u) := Walks(halves, pos, atan2, starts, used);
      used <= u <= halves && Apart(loops, used, u)
  {
    hide InPlane, Walk;
    if starts != [] {
      var n := |starts| - 1;
      assert forall h <- starts[..n] :: h in starts;
      WalksApart(halves, pos, atan2, starts[..n], used);
      var (front, u) := Walks(halves, pos, atan2, starts[..n], used);
      assert starts[n] in starts;
      if starts[n] !in u {
        StartInPlane(halves, pos, starts[n]);
        FirstStep(starts[n], u);
        WalkCloses(halves, pos, atan2, u, u + {starts[n]}, [starts[n].0], starts[n].0, starts[n].1);
        var (loop, u') := Walk(halves, pos, atan2, u + {starts[n]}, [starts[n].0], starts[n].0, starts[n].1);
        hide Trail, Consumed, NoRepeats;
        if loop == [] { ApartKept(front, used, u, u'); } else { ApartMore(front, loop, used, u, u'); }
      }
    }
  }

  lemma {:induction false} ApartKept(loops: seq<seq<nat>>, before: set<Half>, used: set<Half>, more: set<Half>)
    requires Apart(loops, before, used) && used <= more
    ensures Apart(loops, before, more)
  {
    hide Trail, NoRepeats;
  }

  lemma {:induction false} TrailVertices(halves: set<Half>, pos: seq<Pt>, loop: seq<nat>, end: nat)
    requires InPlane(halves, pos) && forall h <- Trail(loop, end) :: h in halves
    ensures forall v <- loop :: v < |pos|
  {
    if loop != [] {
      var n := |loop| - 1;
      var trail := Trail(loop, end);
      assert trail[|trail| - 1] in trail;
      assert forall h <- Trail(loop[..n], loop[n]) :: h in trail;
      TrailVertices(halves, pos, loop[..n], loop[n]);
      assert loop == loop[..n] + [loop[n]];
    }
  }

  lemma {:induction false} WalksInPlane(halves: set<Half>, pos: seq<Pt>, atan2: (real, real) -> real, starts: seq<Half>, used: set<Half>)
    requires Walkable(halves, pos, used) && forall h <- starts :: h in halves
    ensures AllInPos(pos, Walks(halves, pos, atan2, starts, used).0)
  {
    WalksApart(halves, pos, atan2, starts, used);
    var (loops, u) := Walks(halves, pos, atan2, starts, used);
    hide Walks, Trail, NoRepeats, InPlane;
    forall i | 0 <= i < |loops| ensures InPos(pos, loops[i]) {
      TrailVertices(halves, pos, loops[i], loops[i][0]);
    }
  }

  // ---------------------------------------------------------------- rings

  predicate InPos(pos: seq<Pt>, loop: seq<nat>) { forall v <- loop :: v < |pos| }

  predicate AllInPos(pos: seq<Pt>, loops: seq<seq<nat>>) { forall k :: 0 <= k < |loops| ==> InPos(pos, loops[k]) }

  function Points(pos: seq<Pt>, loop: seq<nat>): (r: seq<Pt>)
    requires InPos(pos, loop)
    ensures |r| == |loop|
  {
    seq(|loop|, i requires 0 <= i < |loop| => assert loop[i] in loop; pos[loop[i]])
  }

  const AREA_EPS: real := 0.000000000001

  function RingArea(r: seq<Pt>): real { LoopShoe(r, Identity(|r|)) / 2.0 }

  predicate ProperlyCross(p1: Pt, p2: Pt, p3: Pt, p4: Pt) {
    var d1, d2, d3, d4 := Cross(p3, p4, p1), Cross(p3, p4, p2), Cross(p1, p2, p3), Cross(p1, p2, p4);
    && ((d1 > 0.0 && d2 < 0.0) || (d1 < 0.0 && d2 > 0.0))
    && ((d3 > 0.0 && d4 < 0.0) || (d3 < 0.0 && d4 > 0.0))
  }

  /** Two edges of a ring that share no end cross. */
  predicate SelfIntersects(r: seq<Pt>) {
    exists i, j :: 0 <= i < j < |r| && EdgesCross(r, i, j)
  }

  predicate EdgesCross(r: seq<Pt>, i: nat, j: nat)
    requires i < |r| && j < |r|
  {
    && (i + 1) % |r| != j && (j + 1) % |r| != i
    && ProperlyCross(r[i], r[(i + 1) % |r|], r[j], r[(j + 1) % |r|])
  }

  function Rotate(r: seq<Pt>, k: nat): (s: seq<Pt>)
    requires k <= |r|
    ensures |s| == |r|
  {
    r[k..] + r[..k]
  }

  /** The first place the lexicographically smallest point stands. */
  ghost predicate FirstMin(r: seq<Pt>, m: nat) {
    && m < |r| && (forall i :: 0 <= i < |r| ==> !PtLess(r[i], r[m]))
    && (forall i :: 0 <= i < m ==> PtLess(r[m], r[i]))
  }

  lemma {:induction false} FirstMinUnique(r: seq<Pt>, m: nat, n: nat)
    requires FirstMin(r, m) && FirstMin(r, n)
    ensures m == n
  {
    if m < n { NotEarlier(r, n, m); } else if n < m { NotEarlier(r, m, n); }
  }

  lemma {:induction false} NotEarlier(r: seq<Pt>, m: nat, n: nat)
    requires FirstMin(r, m) && n < m
    ensures !FirstMin(r, n)
  {
    assert PtLess(r[m], r[n]);
  }

  function MinIndex(r: seq<Pt>, n: nat): (m: nat)
    requires 0 < n <= |r|
    ensures m < n && FirstMin(r[..n], m)
  {
    if n == 1 then 0
    else
      var m := MinIndex(r, n - 1);
      assert r[..n][..n - 1] == r[..n - 1];
      assert r[..n - 1][m] == r[m] && forall i :: 0 <= i < n - 1 ==> r[..n - 1][i] == r[i];
      if PtLess(r[n - 1], r[m]) then n - 1 else m
  }

  /** A ring starting at its smallest point. */
  function CanonicalOf(r: seq<Pt>): (c: seq<Pt>)
    ensures |c| == |r|
  {
    if r == [] then [] else Rotate(r, MinIndex(r, |r|))
  }

  method CanonicalRing(r: seq<Pt>) returns (out: seq<Pt>)
    ensures out == CanonicalOf(r)
  {
    if r == [] {
      return [];
    }
    var min := 0;
    for i := 0 to |r|
      invariant min < |r| && (i > 0 ==> min == MinIndex(r, i))
      invariant i == 0 ==> min == 0
    {
      if PtLess(r[i], r[min]) { min := i; }
    }
    out := [];
    for i := 0 to |r|
      invariant out == Rotate(r, min)[..i]
    {
      Turned(min, i, |r|);
      out := out + [r[(min + i) % |r|]];
    }
  }

  lemma {:induction false} Turned(m: nat, i: nat, n: nat)
    requires m < n && i < n
    ensures (m + i) % n == if m + i < n then m + i else m + i - n
  {
  }

  /** The ring a closed walk makes: counter-clockwise with real area and no crossing of its
      own, or none. */
  function RingOf(pos: seq<Pt>, loop: seq<nat>): seq<seq<Pt>>
    requires InPos(pos, loop)
  {
    if |loop| < 3 then []
    else
      var poly := Points(pos, loop);
      if RingArea(poly) <= AREA_EPS || SelfIntersects(poly) then [] else [CanonicalOf(poly)]
  }

  function RingsOf(pos: seq<Pt>, loops: seq<seq<nat>>): seq<seq<Pt>>
    requires AllInPos(pos, loops)
  {
    if loops == [] then []
    else
      RingsOf(pos, loops[..|loops| - 1]) + RingOf(pos, loops[|loops| - 1])
  }

  // ---------------------------------------------------------------- canonical rings

  lemma {:induction false} RotateTwice(r: seq<Pt>, d: nat, e: nat)
    requires d < |r| && e < |r|
    ensures Rotate(Rotate(r, d), e) == Rotate(r, if d + e < |r| then d + e else d + e - |r|)
  {
  }

  /** Every place the smallest point stands starts the same ring. */
  ghost predicate OneStart(r: seq<Pt>) {
    forall i, j :: 0 <= i < |r| && 0 <= j < |r| && FirstMin(Rotate(r, i), 0) && FirstMin(Rotate(r, j), 0) ==> Rotate(r, i) == Rotate(r, j)
  }

  lemma {:induction false} CanonicalStarts(r: seq<Pt>) returns (k: nat)
    requires r != []
    ensures k < |r| && CanonicalOf(r) == Rotate(r, k) && FirstMin(Rotate(r, k), 0)
  {
    assert r[..|r|] == r;
    k := MinIndex(r, |r|);
    var s := Rotate(r, k);
    forall i | 0 <= i < |s| ensures !PtLess(s[i], s[0]) {
      assert s[i] == if k + i < |r| then r[k + i] else r[k + i - |r|];
    }
  }

  lemma {:induction false} CanonicalFixed(r: seq<Pt>)
    requires r != [] && FirstMin(r, 0)
    ensures CanonicalOf(r) == r
  {
    assert r[..|r|] == r;
    FirstMinUnique(r, 0, MinIndex(r, |r|));
  }

  /** Exactly when the canonical form identifies a ring with all its rotations: when its
      smallest point has one place in it, or all its places start the same ring. */
  lemma {:induction false} CanonicalIffOneStart(r: seq<Pt>)
    requires r != []
    ensures (forall d :: 0 <= d < |r| ==> CanonicalOf(Rotate(r, d)) == CanonicalOf(r)) <==> OneStart(r)
  {
    if OneStart(r) {
      var k := CanonicalStarts(r);
      forall d | 0 <= d < |r| ensures CanonicalOf(Rotate(r, d)) == CanonicalOf(r) {
        var e := CanonicalStarts(Rotate(r, d));
        RotateTwice(r, d, e);
        hide FirstMin, CanonicalOf, Rotate;
      }
    }
    if forall d :: 0 <= d < |r| ==> CanonicalOf(Rotate(r, d)) == CanonicalOf(r) {
      forall i, j | 0 <= i < |r| && 0 <= j < |r| && FirstMin(Rotate(r, i), 0) && FirstMin(Rotate(r, j), 0) ensures Rotate(r, i) == Rotate(r, j) {
        CanonicalFixed(Rotate(r, i));
        CanonicalFixed(Rotate(r, j));
        hide FirstMin, Rotate, CanonicalOf;
      }
    }
  }

  // ---------------------------------------------------------------- counting the edges

  /** One more segment, between ids `a` and `b`. */
  function CountOne(count: map<Half, nat>, a: nat, b: nat): map<Half, nat> {
    if a == b then count else count[Ordered(a, b) := Get(count, Ordered(a, b)) + 1]
  }

  lemma {:induction false} CountStep(front: seq<Seg>, s: Seg, w: Welds, count: map<Half, nat>)
    requires w.Valid() && Counted(front, w, count)
    requires forall x <- front :: Weld(x.0) in w.ids && Weld(x.1) in w.ids
    ensures var w' := AddPoint(AddPoint(w, s.0), s.1);
      w'.Valid() && Weld(s.0) in w'.ids && Weld(s.1) in w'.ids && Counted(front + [s], w', CountOne(count, w'.ids[Weld(s.0)], w'.ids[Weld(s.1)]))
  {
    AddPointValid(w, s.0);
    AddPointValid(AddPoint(w, s.0), s.1);
    var w' := AddPoint(AddPoint(w, s.0), s.1);
    CountMoved(front, s, w, w', count);
    hide Counted, Weld, AddPoint;
  }

  lemma {:induction false} CountMoved(front: seq<Seg>, s: Seg, w: Welds, w': Welds, count: map<Half, nat>)
    requires w.Valid() && w'.Valid() && w.pos <= w'.pos && Counted(front, w, count) && Weld(s.0) in w'.ids && Weld(s.1) in w'.ids
    requires forall x <- front :: Weld(x.0) in w.ids && Weld(x.1) in w.ids
    ensures Counted(front + [s], w', CountOne(count, w'.ids[Weld(s.0)], w'.ids[Weld(s.1)]))
  {
    hide Weld, Times;
    var a, b := w'.ids[Weld(s.0)], w'.ids[Weld(s.1)];
    forall i: nat, j: nat | i < j < |w'.pos| ensures Get(CountOne(count, a, b), (i, j)) == Times(front + [s], Weld(w'.pos[i]), Weld(w'.pos[j])) {
      TimesMore(front, s, Weld(w'.pos[i]), Weld(w'.pos[j]));
      OldCount(front, w, w', count, i, j);
      IdJoins(w', s, i, j);
      hide Counted, Joins;
    }
  }

  lemma {:induction false} TimesMore(front: seq<Seg>, s: Seg, k: Cell, l: Cell)
    ensures Times(front + [s], k, l) == Times(front, k, l) + if Joins(s, k, l) then 1 else 0
  {
    assert (front + [s])[..|front|] == front;
  }

  lemma {:induction false} OldIdKept(w: Welds, w': Welds, k: Cell)
    requires w.Valid() && w'.Valid() && w.pos <= w'.pos && k in w.ids
    ensures k in w'.ids && w'.ids[k] == w.ids[k]
  {
    hide Weld;
    assert w'.pos[w.ids[k]] == w.pos[w.ids[k]];
  }

  /** A key first seen later occurs in no earlier segment. */
  lemma {:induction false} OldCount(front: seq<Seg>, w: Welds, w': Welds, count: map<Half, nat>, i: nat, j: nat)
    requires w.Valid() && w'.Valid() && w.pos <= w'.pos && Counted(front, w, count) && i < j < |w'.pos|
    requires forall x <- front :: Weld(x.0) in w.ids && Weld(x.1) in w.ids
    ensures Get(count, (i, j)) == Times(front, Weld(w'.pos[i]), Weld(w'.pos[j]))
  {
    hide Weld, Times;
    if j < |w.pos| {
      assert Get(count, (i, j)) == Times(front, Weld(w.pos[i]), Weld(w.pos[j]));
    } else {
      var k := Weld(w'.pos[j]);
      if k in w.ids { OldIdKept(w, w', k); }
      NewKeyUncounted(front, k, Weld(w'.pos[i]));
    }
  }

  lemma {:induction false} IdJoins(w: Welds, s: Seg, i: nat, j: nat)
    requires w.Valid() && i < j < |w.pos| && Weld(s.0) in w.ids && Weld(s.1) in w.ids
    ensures Joins(s, Weld(w.pos[i]), Weld(w.pos[j])) <==> Ordered(w.ids[Weld(s.0)], w.ids[Weld(s.1)]) == (i, j)
  {
    hide Weld;
  }

  /** Welds every end point and counts the segments of each welded edge. */
  method WeldSegments(segs: seq<Seg>) returns (w: Welds, count: map<Half, nat>)
    ensures w == WeldAll(segs) && w.Valid() && Counted(segs, w, count)
  {
    hide Counted, Weld, AddPoint;
    w, count := Welds(map[], []), map[];
    NothingCounted();
    for i := 0 to |segs|
      invariant w == WeldAll(segs[..i]) && Counted(segs[..i], w, count)
    {
      var s := segs[i];
      WeldAllValid(segs[..i]);
      assert segs[..i + 1][..i] == segs[..i];
      assert segs[..i + 1] == segs[..i] + [s];
      CountStep(segs[..i], s, w, count);
      w := AddPoint(AddPoint(w, s.0), s.1);
      count := CountOne(count, w.ids[Weld(s.0)], w.ids[Weld(s.1)]);
    }
    WeldAllValid(segs);
    assert segs[..|segs|] == segs;
  }

  lemma {:induction false} NothingCounted()
    ensures Counted([], Welds(map[], []), map[])
  {
  }

  // ---------------------------------------------------------------- neighbour lists

  /** Both directions of the counted edges in `keys` that `keep` accepts. */
  ghost predicate Built(adj: map<nat, seq<nat>>, count: map<Half, nat>, keep: nat -> bool, keys: set<Half>) {
    && (forall u: nat, v: nat :: Lists(adj, u, v) <==> Chosen(count, keep, keys, u, v))
    && (forall u <- adj :: NoRepeats(adj[u]))
  }

  predicate Chosen(count: map<Half, nat>, keep: nat -> bool, keys: set<Half>, u: nat, v: nat) {
    u != v && var e := Ordered(u, v); e in count && e in keys && keep(count[e])
  }

  function Push(adj: map<nat, seq<nat>>, u: nat, v: nat): map<nat, seq<nat>> {
    adj[u := (if u in adj then adj[u] else []) + [v]]
  }

  lemma {:induction false} PushOne(adj: map<nat, seq<nat>>, u: nat, v: nat)
    requires !Lists(adj, u, v) && forall x <- adj :: NoRepeats(adj[x])
    ensures forall x <- Push(adj, u, v) :: NoRepeats(Push(adj, u, v)[x])
    ensures forall x: nat, y: nat :: Lists(Push(adj, u, v), x, y) <==> Lists(adj, x, y) || (x == u && y == v)
  {
  }

  lemma {:induction false} ChosenMore(count: map<Half, nat>, keep: nat -> bool, keys: set<Half>, e: Half, u: nat, v: nat)
    requires e in count && e.0 < e.1
    ensures Chosen(count, keep, keys + {e}, u, v) <==> Chosen(count, keep, keys, u, v) || (keep(count[e]) && ((u, v) == e || (v, u) == e))
  {
  }

  lemma {:induction false} PushBoth(adj: map<nat, seq<nat>>, count: map<Half, nat>, keep: nat -> bool, keys: set<Half>, e: Half)
    requires Built(adj, count, keep, keys) && e in count && e !in keys && e.0 < e.1
    ensures keep(count[e]) ==> Built(Push(Push(adj, e.0, e.1), e.1, e.0), count, keep, keys + {e})
    ensures !keep(count[e]) ==> Built(adj, count, keep, keys + {e})
  {
    assert !Chosen(count, keep, keys, e.0, e.1) && !Chosen(count, keep, keys, e.1, e.0);
    PushOne(adj, e.0, e.1);
    PushOne(Push(adj, e.0, e.1), e.1, e.0);
    forall u: nat, v: nat ensures Chosen(count, keep, keys + {e}, u, v) <==> Chosen(count, keep, keys, u, v) || (keep(count[e]) && ((u, v) == e || (v, u) == e)) {
      ChosenMore(count, keep, keys, e, u, v);
    }
    hide Push, Chosen, NoRepeats;
  }

  /** Neighbour lists of the kept edges, the edges taken in arbitrary order. */
  method BuildAdjacency(count: map<Half, nat>, keep: nat -> bool) returns (adj: map<nat, seq<nat>>)
    requires forall e <- count :: e.0 < e.1
    ensures Built(adj, count, keep, count.Keys)
  {
    hide Push, Chosen;
    adj := map[];
    NoneBuilt(count, keep);
    hide Built;
    var left := count.Keys;
    while left != {}
      invariant left <= count.Keys && Built(adj, count, keep, count.Keys - left)
      decreases |left|
    {
      var e :| e in left;
      assert count.Keys - (left - {e}) == count.Keys - left + {e};
      PushBoth(adj, count, keep, count.Keys - left, e);
      if keep(count[e]) {
        adj := Push(Push(adj, e.0, e.1), e.1, e.0);
      }
      left := left - {e};
    }
    assert count.Keys - left == count.Keys;
  }

  lemma {:induction false} NoneBuilt(count: map<Half, nat>, keep: nat -> bool)
    ensures Built(map[], count, keep, count.Keys - count.Keys)
  {
  }

  lemma {:induction false} BuiltIsKept(segs: seq<Seg>, w: Welds, count: map<Half, nat>, keep: nat -> bool, adj: map<nat, seq<nat>>)
    requires w.Valid() && Counted(segs, w, count) && Built(adj, count, keep, count.Keys)
    ensures Adjacency(adj, Kept(segs, w.pos, keep)) && InPlane(Kept(segs, w.pos, keep), w.pos)
  {
    hide Weld, Times, NoRepeats;
    forall u: nat, v: nat ensures Chosen(count, keep, count.Keys, u, v) <==> (u, v) in Kept(segs, w.pos, keep) {
      if u < |w.pos| && v < |w.pos| && u != v {
        var e := Ordered(u, v);
        assert Get(count, e) == Times(segs, Weld(w.pos[e.0]), Weld(w.pos[e.1]));
        TimesEitherWay(segs, Weld(w.pos[u]), Weld(w.pos[v]));
        assert Chosen(count, keep, count.Keys, u, v) <==> KeptEdge(segs, w.pos, keep, u, v);
      }
    }
  }

  // ---------------------------------------------------------------- starting half-edges

  function At(pos: seq<Pt>, i: nat): Pt { if i < |pos| then pos[i] else Pt(0.0, 0.0) }

  /** Half-edges by the position of their ends. */
  predicate StartLess(pos: seq<Pt>, a: Half, b: Half) {
    if At(pos, a.0) != At(pos, b.0) then PtLess(At(pos, a.0), At(pos, b.0)) else PtLess(At(pos, a.1), At(pos, b.1))
  }

  function StartLe(pos: seq<Pt>): (Half, Half) -> bool {
    (a: Half, b: Half) => !StartLess(pos, b, a)
  }

  lemma {:induction false} StartOrder(pos: seq<Pt>)
    ensures TotalOrder(StartLe(pos))
  {
    hide At;
  }

  /** Welded points differ, so no two half-edges tie. */
  lemma {:induction false} StartStrict(pos: seq<Pt>, starts: seq<Half>, halves: set<Half>)
    requires NoRepeats(pos) && InPlane(halves, pos) && forall h <- starts :: h in halves
    ensures Strict(starts, StartLe(pos))
  {
    forall a, b | a in starts && b in starts && StartLe(pos)(a, b) && StartLe(pos)(b, a) ensures a == b {
      assert At(pos, a.0) == At(pos, b.0) && At(pos, a.1) == At(pos, b.1);
    }
  }

  lemma {:induction false} WeldedDistinct(w: Welds)
    requires w.Valid()
    ensures NoRepeats(w.pos)
  {
    hide Weld;
    forall i, j | 0 <= i < j < |w.pos| ensures w.pos[i] != w.pos[j] {
      assert w.ids[Weld(w.pos[i])] == i && w.ids[Weld(w.pos[j])] == j;
    }
  }

  /** Each half-edge once, in some order. */
  ghost predicate Lists1(starts: seq<Half>, halves: set<Half>) {
    NoRepeats(starts) && forall h :: h in starts <==> h in halves
  }

  /** Gathers the neighbour lists into half-edges, the lists taken in arbitrary order. */
  method Gather(adj: map<nat, seq<nat>>, ghost halves: set<Half>) returns (starts: seq<Half>)
    requires Adjacency(adj, halves)
    ensures Lists1(starts, halves)
  {
    starts := [];
    var left := adj.Keys;
    while left != {}
      invariant left <= adj.Keys && NoRepeats(starts)
      invariant forall h: Half :: h in starts <==> Lists(adj, h.0, h.1) && h.0 !in left
      decreases |left|
    {
      var u :| u in left;
      left := left - {u};
      RowsJoin(starts, u, adj[u]);
      starts := starts + RowOf(u, adj[u]);
    }
    forall h: Half ensures h in starts <==> h in halves {
      assert Lists(adj, h.0, h.1) <==> (h.0, h.1) in halves;
    }
  }

  function RowOf(u: nat, ns: seq<nat>): (row: seq<Half>)
    ensures |row| == |ns|
  {
    seq(|ns|, i requires 0 <= i < |ns| => (u, ns[i]))
  }

  /** Half-edges leaving a vertex not gathered before. */
  lemma {:induction false} RowsJoin(starts: seq<Half>, u: nat, ns: seq<nat>)
    requires NoRepeats(starts) && NoRepeats(ns) && forall h <- starts :: h.0 != u
    ensures NoRepeats(starts + RowOf(u, ns))
    ensures forall h :: h in starts + RowOf(u, ns) <==> h in starts || (h.0 == u && h.1 in ns)
  {
    var row := RowOf(u, ns);
    var all := starts + row;
    forall i, j | 0 <= i < j < |all| ensures all[i] != all[j] {
      if i < |starts| { assert all[i] in starts; }
    }
    forall h ensures h in all <==> h in starts || (h.0 == u && h.1 in ns) {
      if h.0 == u && h.1 in ns {
        var k :| 0 <= k < |ns| && ns[k] == h.1;
        assert row[k] == h;
      }
    }
  }

  lemma {:induction false} OnceEach(starts: seq<Half>, halves: set<Half>)
    requires Lists1(starts, halves)
    ensures multiset(starts) == multiset(halves)
  {
    forall h ensures multiset(starts)[h] == multiset(halves)[h] { OnceIn(starts, h); }
  }

  // ---------------------------------------------------------------- ring order

  predicate RingLess(a: seq<Pt>, b: seq<Pt>) {
    if a == [] then b != []
    else if b == [] then false
    else if a[0] != b[0] then PtLess(a[0], b[0])
    else RingLess(a[1..], b[1..])
  }

  predicate RingLe(a: seq<Pt>, b: seq<Pt>) { !RingLess(b, a) }

  lemma {:induction false} RingsCompare(a: seq<Pt>, b: seq<Pt>)
    ensures a != b ==> RingLess(a, b) || RingLess(b, a)
    ensures !(RingLess(a, b) && RingLess(b, a))
  {
    if a != [] && b != [] && a[0] == b[0] {
      RingsCompare(a[1..], b[1..]);
      assert a == [a[0]] + a[1..] && b == [b[0]] + b[1..];
    }
  }

  lemma {:induction false} RingsChain(a: seq<Pt>, b: seq<Pt>, c: seq<Pt>)
    requires RingLess(a, b) && RingLess(b, c)
    ensures RingLess(a, c)
  {
    if a != [] && a[0] == b[0] == c[0] { RingsChain(a[1..], b[1..], c[1..]); }
  }

  lemma {:induction false} RingOrder(rings: seq<seq<Pt>>)
    ensures TotalOrder(RingLe) && Strict(rings, RingLe)
  {
    forall a, b ensures RingLe(a, b) || RingLe(b, a) { RingsCompare(a, b); }
    forall a, b, c | RingLe(a, b) && RingLe(b, c) ensures RingLe(a, c) {
      RingsCompare(a, b);
      RingsCompare(b, c);
      if RingLess(c, a) {
        if a != b { RingsChain(c, a, b); }
        RingsCompare(c, b);
      }
    }
    forall a, b | a in rings && b in rings && RingLe(a, b) && RingLe(b, a) ensures a == b { RingsCompare(a, b); }
  }

  // ---------------------------------------------------------------- stitching

  /** What stitching returns: the rings of the closed walks over the kept half-edges, the
      walks taken from the sorted starts, the rings sorted. */
  ghost predicate Stitched(segs: seq<Seg>, keep: nat -> bool, atan2: (real, real) -> real, rings: seq<seq<Pt>>) {
    var pos := WeldAll(segs).pos;
    var halves := Kept(segs, pos, keep);
    InPlane(halves, pos) && exists starts, raw :: StitchedBy(halves, pos, atan2, starts, raw, rings)
  }

  ghost predicate StitchedBy(halves: set<Half>, pos: seq<Pt>, atan2: (real, real) -> real, starts: seq<Half>, raw: seq<seq<Pt>>, rings: seq<seq<Pt>>)
    requires InPlane(halves, pos)
  {
    && multiset(starts) == multiset(halves) && Sorted(starts, StartLe(pos))
    && raw == FacesOf(halves, pos, atan2, starts)
    && multiset(rings) == multiset(raw) && Sorted(rings, RingLe)
  }

  ghost function FacesOf(halves: set<Half>, pos: seq<Pt>, atan2: (real, real) -> real, starts: seq<Half>): seq<seq<Pt>>
    requires InPlane(halves, pos) && multiset(starts) == multiset(halves)
  {
    FromHalves(starts, halves);
    WalksInPlane(halves, pos, atan2, starts, {});
    RingsOf(pos, Walks(halves, pos, atan2, starts, {}).0)
  }

  lemma {:induction false} FromHalves(starts: seq<Half>, halves: set<Half>)
    requires multiset(starts) == multiset(halves)
    ensures forall h :: h in starts <==> h in halves
  {
    forall h ensures h in starts <==> h in halves { assert h in starts <==> h in multiset(starts); }
  }

  /** Stitching has one answer: no order of neighbour lists, map keys or segments' edges can
      change it. */
  lemma {:induction false} StitchUnique(segs: seq<Seg>, keep: nat -> bool, atan2: (real, real) -> real, a: seq<seq<Pt>>, b: seq<seq<Pt>>)
    requires Stitched(segs, keep, atan2, a) && Stitched(segs, keep, atan2, b)
    ensures a == b
  {
    hide FacesOf, Sorted, Kept, WeldAll;
    var pos := WeldAll(segs).pos;
    var halves := Kept(segs, pos, keep);
    var sa, ra :| StitchedBy(halves, pos, atan2, sa, ra, a);
    var sb, rb :| StitchedBy(halves, pos, atan2, sb, rb, b);
    WeldAllValid(segs);
    WeldedDistinct(WeldAll(segs));
    FromHalves(sa, halves);
    StartOrder(pos);
    StartStrict(pos, sa, halves);
    SortedUnique(sa, sb, StartLe(pos));
    RingOrder(a);
    SortedUnique(a, b, RingLe);
  }

  /** The rings of every start's walk, in start order. */
  method WalkAll(ghost halves: set<Half>, adj: map<nat, seq<nat>>, pos: seq<Pt>, atan2: (real, real) -> real, starts: seq<Half>)
    returns (raw: seq<seq<Pt>>)
    requires InPlane(halves, pos) && Adjacency(adj, halves) && multiset(starts) == multiset(halves)
    ensures raw == FacesOf(halves, pos, atan2, starts)
  {
    hide InPlane, Adjacency, Walk;
    FromHalves(starts, halves);
    var used: set<Half> := {};
    raw := [];
    ghost var loops: seq<seq<nat>> := [];
    for k := 0 to |starts|
      invariant Walkable(halves, pos, used) && (forall h <- starts[..k] :: h in halves)
      invariant (loops, used) == Walks(halves, pos, atan2, starts[..k], {})
      invariant AllInPos(pos, loops) && raw == RingsOf(pos, loops)
    {
      var st := starts[k];
      assert starts[..k + 1][..k] == starts[..k] && starts[..k + 1][k] == st && st in starts;
      assert forall h <- starts[..k + 1] :: h in halves;
      WalksInside(halves, pos, atan2, starts[..k + 1], {});
      WalksInPlane(halves, pos, atan2, starts[..k + 1], {});
      if st in used {
        continue;
      }
      StartInPlane(halves, pos, st);
      var loop;
      loop, used := WalkFace(halves, adj, pos, atan2, used, st);
      if loop == [] {
        continue;
      }
      ghost var before := loops;
      loops := loops + [loop];
      assert loops[|loops| - 1] == loop && loops[..|loops| - 1] == before;
      assert InPos(pos, loops[|loops| - 1]);
      if |loop| < 3 {
        continue;
      }
      var poly := Points(pos, loop);
      var area := IndexedLoopArea(poly, Identity(|poly|));
      if area <= AREA_EPS {
        continue;
      }
      if SelfIntersects(poly) {
        continue;
      }
      var ring := CanonicalRing(poly);
      raw := raw + [ring];
    }
    assert starts[..|starts|] == starts;
  }

  /** Welds segments, keeps the edges `keep` accepts, walks them into faces and returns the
      counter-clockwise ones, each from its smallest point, in order. */
  method StitchRings(segs: seq<Seg>, keep: nat -> bool, atan2: (real, real) -> real) returns (rings: seq<seq<Pt>>)
    ensures Stitched(segs, keep, atan2, rings)
    ensures forall r <- rings :: Outline(r)
  {
    hide Outline, Kept, WeldAll, Counted, Built, Adjacency, InPlane, FacesOf;
    var w, count := WeldSegments(segs);
    CountedOrdered(segs, w, count);
    var adj := BuildAdjacency(count, keep);
    BuiltIsKept(segs, w, count, keep, adj);
    ghost var halves := Kept(segs, w.pos, keep);
    var starts := Gather(adj, halves);
    OnceEach(starts, halves);
    StartOrder(w.pos);
    starts := Sort(starts, StartLe(w.pos));
    var raw := WalkAll(halves, adj, w.pos, atan2, starts);
    RingOrder(raw);
    rings := Sort(raw, RingLe);
    assert StitchedBy(halves, w.pos, atan2, starts, raw, rings);
    StitchedOutlines(segs, keep, atan2, rings);
  }

  lemma {:induction false} CountedOrdered(segs: seq<Seg>, w: Welds, count: map<Half, nat>)
    requires Counted(segs, w, count)
    ensures forall e <- count :: e.0 < e.1
  {
  }

  // ---------------------------------------------------------------- where a ring starts

  /** The walk's first vertex is strictly smaller than every later one. */
  predicate StartsLeast(pos: seq<Pt>, loop: seq<nat>) {
    forall k :: 0 < k < |loop| ==> PtLess(At(pos, loop[0]), At(pos, loop[k]))
  }

  /** Every half-edge leaving a smaller vertex has been consumed. */
  ghost predicate SmallerUsed(halves: set<Half>, pos: seq<Pt>, used: set<Half>, v: nat) {
    forall h <- halves :: PtLess(At(pos, h.0), At(pos, v)) ==> h in used
  }

  /** A walk from `v` with nothing left below only goes through greater vertices. */
  lemma {:induction false} WalkAbove(halves: set<Half>, pos: seq<Pt>, atan2: (real, real) -> real, used: set<Half>, loop: seq<nat>, prev: nat, cur: nat)
    requires NoRepeats(pos) && Walkable(halves, pos, used) && loop != [] && prev < |pos| && cur < |pos| && loop[0] < |pos|
    requires SmallerUsed(halves, pos, used, loop[0]) && StartsLeast(pos, loop)
    ensures StartsLeast(pos, Walk(halves, pos, atan2, used, loop, prev, cur).0)
    decreases |halves - used|
  {
    hide InPlane, NextOf;
    if cur != loop[0] {
      NextIsOpen(halves, pos, atan2, used, prev, cur);
      match NextOf(halves, pos, atan2, used, prev, cur)
      case None =>
      case Some(n) =>
        Shrinks(halves, used, (cur, n));
        assert !PtLess(At(pos, cur), At(pos, loop[0])) && At(pos, cur) != At(pos, loop[0]);
        if |loop| + 1 <= |pos| + 1 {
          WalkAbove(halves, pos, atan2, used + {(cur, n)}, loop + [cur], cur, n);
        }
    }
  }

  /** When the starts before one are used, so is every half-edge out of a smaller vertex. */
  lemma {:induction false} SmallerBefore(halves: set<Half>, pos: seq<Pt>, starts: seq<Half>, m: nat, u: set<Half>)
    requires m < |starts| && Sorted(starts, StartLe(pos)) && (forall h :: h in starts <==> h in halves)
    requires InPlane(halves, pos) && forall i :: 0 <= i < m ==> starts[i] in u
    ensures SmallerUsed(halves, pos, u + {starts[m]}, starts[m].0)
  {
    var st := starts[m];
    assert st in starts;
    forall h | h in halves && PtLess(At(pos, h.0), At(pos, st.0)) ensures h in u {
      var j :| 0 <= j < |starts| && starts[j] == h;
      assert m <= j ==> StartLe(pos)(st, h);
    }
  }

  /** The walk from one start, with every half-edge out of a smaller vertex used. */
  lemma {:induction false} StartAbove(halves: set<Half>, pos: seq<Pt>, atan2: (real, real) -> real, u: set<Half>, st: Half)
    requires NoRepeats(pos) && Walkable(halves, pos, u) && st in halves && st !in u && st.0 < |pos| && st.1 < |pos|
    requires SmallerUsed(halves, pos, u + {st}, st.0)
    ensures Walkable(halves, pos, u + {st})
    ensures var (loop, u') := Walk(halves, pos, atan2, u + {st}, [st.0], st.0, st.1);
      StartsLeast(pos, loop) && u + {st} <= u'
  {
    hide InPlane, SmallerUsed;
    WalkAbove(halves, pos, atan2, u + {st}, [st.0], st.0, st.1);
    FirstStep(st, u);
    WalkCloses(halves, pos, atan2, u, u + {st}, [st.0], st.0, st.1);
  }

  /** Taken in position order, every start finds the smaller vertices' half-edges consumed. */
  lemma {:induction false} WalksAbove(halves: set<Half>, pos: seq<Pt>, atan2: (real, real) -> real, starts: seq<Half>, n: nat)
    requires NoRepeats(pos) && InPlane(halves, pos) && n <= |starts| && Sorted(starts, StartLe(pos)) && forall h :: h in starts <==> h in halves
    ensures Walkable(halves, pos, {}) && forall h <- starts[..n] :: h in halves
    ensures var (loops, u) := Walks(halves, pos, atan2, starts[..n], {});
      (forall i :: 0 <= i < n ==> starts[i] in u) && forall k :: 0 <= k < |loops| ==> StartsLeast(pos, loops[k])
  {
    hide InPlane, Sorted, StartsLeast, Walk, NoRepeats, SmallerUsed;
    assert forall h <- starts[..n] :: h in starts;
    if n > 0 {
      var m := n - 1;
      WalksAbove(halves, pos, atan2, starts, m);
      assert starts[..n][..m] == starts[..m] && starts[..n][m] == starts[m];
      WalksInside(halves, pos, atan2, starts[..m], {});
      assert starts[m] in starts;
      StartInPlane(halves, pos, starts[m]);
      var (front, u) := Walks(halves, pos, atan2, starts[..m], {});
      SmallerBefore(halves, pos, starts, m, u);
      if starts[m] !in u { StartAbove(halves, pos, atan2, u, starts[m]); }
    }
  }

  /** A ring whose first point is strictly smaller than all its others. */
  predicate LeastFirst(r: seq<Pt>) { r != [] && forall k :: 0 < k < |r| ==> PtLess(r[0], r[k]) }

  /** Such a ring is its own canonical form, and that of all its rotations. */
  lemma {:induction false} LeastIsCanonical(r: seq<Pt>)
    requires LeastFirst(r)
    ensures CanonicalOf(r) == r && forall d :: 0 <= d < |r| ==> CanonicalOf(Rotate(r, d)) == r
  {
    CanonicalFixed(r);
    forall i | 0 < i < |r| ensures !FirstMin(Rotate(r, i), 0) {
      assert Rotate(r, i)[|r| - i] == r[0] && Rotate(r, i)[0] == r[i];
    }
    assert Rotate(r, 0) == r;
    CanonicalIffOneStart(r);
    hide CanonicalOf;
  }

  lemma {:induction false} RingsLeast(pos: seq<Pt>, loops: seq<seq<nat>>)
    requires AllInPos(pos, loops) && forall k :: 0 <= k < |loops| ==> StartsLeast(pos, loops[k])
    ensures forall r <- RingsOf(pos, loops) :: LeastFirst(r)
  {
    if loops != [] {
      var n := |loops| - 1;
      RingsLeast(pos, loops[..n]);
      if |loops[n]| >= 3 {
        var poly := Points(pos, loops[n]);
        forall k | 0 < k < |poly| ensures PtLess(poly[0], poly[k]) {
          assert loops[n][0] in loops[n] && loops[n][k] in loops[n];
        }
        LeastIsCanonical(poly);
      }
    }
  }

  /** Every stitched ring starts at its one smallest point, so rings equal up to where they
      start are equal. */
  lemma {:induction false} StitchedLeastFirst(segs: seq<Seg>, keep: nat -> bool, atan2: (real, real) -> real, rings: seq<seq<Pt>>)
    requires Stitched(segs, keep, atan2, rings)
    ensures forall r <- rings :: LeastFirst(r) && CanonicalOf(r) == r && forall d :: 0 <= d < |r| ==> CanonicalOf(Rotate(r, d)) == r
  {
    var pos := WeldAll(segs).pos;
    var halves := Kept(segs, pos, keep);
    var starts, raw :| StitchedBy(halves, pos, atan2, starts, raw, rings);
    WeldAllValid(segs);
    WeldedDistinct(WeldAll(segs));
    FromHalves(starts, halves);
    WalksAbove(halves, pos, atan2, starts, |starts|);
    assert starts[..|starts|] == starts;
    WalksInPlane(halves, pos, atan2, starts, {});
    RingsLeast(pos, Walks(halves, pos, atan2, starts, {}).0);
    hide Walks, Kept, WeldAll, RingsOf, CanonicalOf, LeastFirst;
    forall r | r in rings ensures LeastFirst(r) && CanonicalOf(r) == r && forall d :: 0 <= d < |r| ==> CanonicalOf(Rotate(r, d)) == r {
      SameMembers(rings, raw, r);
      LeastIsCanonical(r);
    }
  }

  // ---------------------------------------------------------------- what a ring is

  /** Two segments share a point, and no end of one is on the other's line. */
  ghost predicate MeetInside(a: Pt, b: Pt, c: Pt, d: Pt) {
    && (exists w :: Poly.On(a, b, w) && Poly.On(c, d, w))
    && Cross(a, b, c) != 0.0 && Cross(a, b, d) != 0.0 && Cross(c, d, a) != 0.0 && Cross(c, d, b) != 0.0
  }

  /** Segments cross properly exactly when they share a point and no end is on the other's line. */
  lemma {:induction false} ProperlyCrossExact(a: Pt, b: Pt, c: Pt, d: Pt)
    ensures ProperlyCross(a, b, c, d) <==> MeetInside(a, b, c, d)
  {
    hide Cross, Poly.On;
    if ProperlyCross(a, b, c, d) { var w := Poly.Meet(a, b, c, d); }
    if w :| Poly.On(a, b, w) && Poly.On(c, d, w) {
      Poly.OnLine(a, b, w);
      Poly.OnLine(c, d, w);
      Poly.SideOfMix(a, b, c, d, w);
      Poly.SideOfMix(c, d, a, b, w);
    }
  }

  ghost predicate EdgesMeet(r: seq<Pt>, i: nat, j: nat)
    requires i < |r| && j < |r|
  {
    && (i + 1) % |r| != j && (j + 1) % |r| != i
    && MeetInside(r[i], r[(i + 1) % |r|], r[j], r[(j + 1) % |r|])
  }

  lemma {:induction false} SelfIntersectsExact(r: seq<Pt>)
    ensures SelfIntersects(r) <==> exists i: nat, j: nat :: i < j < |r| && EdgesMeet(r, i, j)
  {
    hide ProperlyCross, MeetInside;
    forall i: nat, j: nat | i < j < |r| ensures EdgesCross(r, i, j) <==> EdgesMeet(r, i, j) {
      ProperlyCrossExact(r[i], r[(i + 1) % |r|], r[j], r[(j + 1) % |r|]);
    }
    hide EdgesCross, EdgesMeet;
  }

  /** At least three points, counter-clockwise round real area, no two of its edges meeting inside
      each other, from its one smallest point on. */
  ghost predicate Outline(r: seq<Pt>) {
    && |r| >= 3 && LoopShoe(r, Identity(|r|)) / 2.0 > 0.000000000001
    && (forall i: nat, j: nat :: i < j < |r| ==> !EdgesMeet(r, i, j))
    && forall k :: 0 < k < |r| ==> PtLess(r[0], r[k])
  }

  /** One walk's ring: its points, when they are an outline. */
  lemma {:induction false} RingExact(pos: seq<Pt>, loop: seq<nat>)
    requires InPos(pos, loop) && StartsLeast(pos, loop)
    ensures RingOf(pos, loop) == if Outline(Points(pos, loop)) then [Points(pos, loop)] else []
  {
    hide LoopShoe, SelfIntersects, CanonicalOf, PtLess, EdgesMeet;
    var poly := Points(pos, loop);
    if |loop| >= 3 {
      SelfIntersectsExact(poly);
      forall k | 0 < k < |poly| ensures PtLess(poly[0], poly[k]) {
        assert loop[0] in loop && loop[k] in loop;
      }
      LeastIsCanonical(poly);
    }
  }

  /** The rings are exactly the walks' outlines. */
  lemma {:induction false} RingsExact(pos: seq<Pt>, loops: seq<seq<nat>>, r: seq<Pt>)
    requires AllInPos(pos, loops) && forall k :: 0 <= k < |loops| ==> StartsLeast(pos, loops[k])
    ensures r in RingsOf(pos, loops) <==> Outline(r) && exists k :: 0 <= k < |loops| && Points(pos, loops[k]) == r
  {
    hide Outline, RingOf, Points, StartsLeast, InPos;
    if loops != [] {
      var n := |loops| - 1;
      var front, last := loops[..n], loops[n];
      assert forall k :: 0 <= k < n ==> front[k] == loops[k];
      RingsExact(pos, front, r);
      RingExact(pos, last);
      assert RingsOf(pos, loops) == RingsOf(pos, front) + RingOf(pos, last);
      hide RingsOf;
      assert r in RingsOf(pos, loops) <==> r in RingsOf(pos, front) || r in RingOf(pos, last);
    }
  }

  /** The rings are exactly the outlines among the closed walks over kept half-edges, no half-edge
      in two of the walks. */
  lemma {:induction false} RingsAreWalks(segs: seq<Seg>, keep: nat -> bool, atan2: (real, real) -> real, rings: seq<seq<Pt>>)
    returns (starts: seq<Half>, loops: seq<seq<nat>>)
    requires Stitched(segs, keep, atan2, rings)
    ensures var pos := WeldAll(segs).pos;
      var halves := Kept(segs, pos, keep);
      && InPlane(halves, pos) && multiset(starts) == multiset(halves) && (forall h :: h in starts <==> h in halves)
      && loops == Walks(halves, pos, atan2, starts, {}).0
      && Apart(loops, {}, halves) && AllInPos(pos, loops)
      && multiset(rings) == multiset(RingsOf(pos, loops))
      && forall r :: r in rings <==> Outline(r) && exists k :: 0 <= k < |loops| && Points(pos, loops[k]) == r
  {
    hide Walks, Kept, Outline, Points, Apart, RingsOf, StitchedBy;
    var pos := WeldAll(segs).pos;
    var halves := Kept(segs, pos, keep);
    var starts', raw :| StitchedBy(halves, pos, atan2, starts', raw, rings);
    starts := starts';
    WeldAllValid(segs);
    WeldedDistinct(WeldAll(segs));
    hide WeldAll;
    loops := WalksOutlines(halves, pos, atan2, starts, raw, rings);
  }

  lemma {:induction false} WalksOutlines(halves: set<Half>, pos: seq<Pt>, atan2: (real, real) -> real, starts: seq<Half>, raw: seq<seq<Pt>>, rings: seq<seq<Pt>>)
    returns (loops: seq<seq<nat>>)
    requires NoRepeats(pos) && InPlane(halves, pos) && StitchedBy(halves, pos, atan2, starts, raw, rings)
    ensures multiset(starts) == multiset(halves) && (forall h :: h in starts <==> h in halves)
    ensures loops == Walks(halves, pos, atan2, starts, {}).0 && Apart(loops, {}, halves) && AllInPos(pos, loops)
    ensures multiset(rings) == multiset(RingsOf(pos, loops))
    ensures forall r :: r in rings <==> Outline(r) && exists k :: 0 <= k < |loops| && Points(pos, loops[k]) == r
  {
    hide Walks, RingsOf, Outline, Points, StartsLeast, Apart, InPlane;
    FromHalves(starts, halves);
    WalksInPlane(halves, pos, atan2, starts, {});
    WalksApart(halves, pos, atan2, starts, {});
    WalksAbove(halves, pos, atan2, starts, |starts|);
    assert starts[..|starts|] == starts;
    loops := Walks(halves, pos, atan2, starts, {}).0;
    ApartKept(loops, {}, Walks(halves, pos, atan2, starts, {}).1, halves);
    forall r ensures r in rings <==> Outline(r) && exists k :: 0 <= k < |loops| && Points(pos, loops[k]) == r {
      SameMembers(rings, raw, r);
      RingsExact(pos, loops, r);
    }
  }

  /** Every stitched ring is the outline of a face, and every walk round an outline gives one. */
  lemma {:induction false} StitchedOutlines(segs: seq<Seg>, keep: nat -> bool, atan2: (real, real) -> real, rings: seq<seq<Pt>>)
    requires Stitched(segs, keep, atan2, rings)
    ensures forall r <- rings :: Outline(r)
  {
    hide Outline;
    var starts, loops := RingsAreWalks(segs, keep, atan2, rings);
  }
}
