// Which half-edges the face walks take: a walk never comes to a dead end, and unless one is cut
// off for its length the closed walks share out every kept half-edge between them. None is cut
// off where exactly two kept edges meet at every vertex.
module PlanarFaces {
  import opened Common
  import Triangulate = GeoTriangulate
  import opened PlanarBoundary
  import opened PlanarStitch

  type Pt = Triangulate.Pt

  // ---------------------------------------------------------------- degrees

  function From(hs: set<Half>, v: nat): set<Half> { set h <- hs | h.0 == v }

  function Into(hs: set<Half>, v: nat): set<Half> { set h <- hs | h.1 == v }

  /** As many half-edges leave every vertex as enter it. */
  ghost predicate Balanced(hs: set<Half>) { forall v: nat :: |From(hs, v)| == |Into(hs, v)| }

  /** ... but for one more that leaves `s` and one more that enters `cur`. */
  ghost predicate UnderWay(hs: set<Half>, s: nat, cur: nat) {
    forall v: nat {:trigger From(hs, v)} :: |From(hs, v)| + (if v == cur then 1 else 0) == |Into(hs, v)| + if v == s then 1 else 0
  }

  ghost predicate BothWays(hs: set<Half>) { forall h <- hs :: (h.1, h.0) in hs }

  lemma {:induction false} TurnedSize(hs: set<Half>)
    ensures |set h <- hs :: (h.1, h.0)| == |hs|
  {
    if hs != {} {
      var x :| x in hs;
      var rest := hs - {x};
      TurnedSize(rest);
      assert (set h <- hs :: (h.1, h.0)) == (set h <- rest :: (h.1, h.0)) + {(x.1, x.0)};
    }
  }

  lemma {:induction false} BothWaysBalance(hs: set<Half>)
    requires BothWays(hs)
    ensures Balanced(hs)
  {
    forall v: nat ensures |From(hs, v)| == |Into(hs, v)| {
      var turned := set h <- From(hs, v) :: (h.1, h.0);
      forall h | h in Into(hs, v) ensures h in turned { assert (h.1, h.0) in From(hs, v); }
      assert turned == Into(hs, v);
      TurnedSize(From(hs, v));
    }
  }

  lemma {:induction false} OneMore(hs: set<Half>, h: Half, v: nat)
    requires h !in hs
    ensures |From(hs + {h}, v)| == |From(hs, v)| + if h.0 == v then 1 else 0
    ensures |Into(hs + {h}, v)| == |Into(hs, v)| + if h.1 == v then 1 else 0
  {
    FromMore(hs, h, v);
    IntoMore(hs, h, v);
    hide From, Into;
  }

  lemma {:induction false} FromMore(hs: set<Half>, h: Half, v: nat)
    requires h !in hs
    ensures h !in From(hs, v) && From(hs + {h}, v) == if h.0 == v then From(hs, v) + {h} else From(hs, v)
  {
  }

  lemma {:induction false} IntoMore(hs: set<Half>, h: Half, v: nat)
    requires h !in hs
    ensures h !in Into(hs, v) && Into(hs + {h}, v) == if h.1 == v then Into(hs, v) + {h} else Into(hs, v)
  {
  }

  lemma {:induction false} SetsOff(hs: set<Half>, h: Half)
    requires Balanced(hs) && h !in hs
    ensures UnderWay(hs + {h}, h.0, h.1)
  {
    forall v: nat ensures |From(hs + {h}, v)| + (if v == h.1 then 1 else 0) == |Into(hs + {h}, v)| + if v == h.0 then 1 else 0 {
      OneMore(hs, h, v);
    }
  }

  lemma {:induction false} GoesOn(hs: set<Half>, s: nat, cur: nat, n: nat)
    requires UnderWay(hs, s, cur) && (cur, n) !in hs
    ensures UnderWay(hs + {(cur, n)}, s, n)
  {
    var h: Half := (cur, n);
    forall v: nat ensures |From(hs + {h}, v)| + (if v == n then 1 else 0) == |Into(hs + {h}, v)| + if v == s then 1 else 0 {
      OneMore(hs, h, v);
    }
  }

  lemma {:induction false} ComesHome(hs: set<Half>, s: nat)
    requires UnderWay(hs, s, s)
    ensures Balanced(hs)
  {
    forall v: nat ensures |From(hs, v)| == |Into(hs, v)| { }
  }

  lemma {:induction false} PartSize(a: set<Half>, b: set<Half>)
    requires a <= b
    ensures |a| <= |b|
  {
    if a != {} {
      var x :| x in a;
      PartSize(a - {x}, b - {x});
    }
  }

  /** Under way, there is always an unused half-edge to go on by. */
  lemma {:induction false} SomeOpen(halves: set<Half>, used: set<Half>, s: nat, cur: nat) returns (n: nat)
    requires Balanced(halves) && used <= halves && UnderWay(used, s, cur) && cur != s
    ensures Open(halves, used, cur, n)
  {
    if forall h <- From(halves, cur) :: h in used {
      assert From(halves, cur) == From(used, cur);
      PartSize(Into(used, cur), Into(halves, cur));
      assert false;
    }
    var h :| h in From(halves, cur) && h !in used;
    n := h.1;
  }

  // ---------------------------------------------------------------- no dead ends

  lemma {:induction false} BestOf(pos: seq<Pt>, atan2: (real, real) -> real, prev: nat, cur: nat, ns: set<nat>) returns (n: nat)
    requires prev < |pos| && cur < |pos| && ns != {} && forall m <- ns :: m < |pos|
    ensures n in ns && forall m <- ns :: Ahead(pos, atan2, prev, cur, n, m)
  {
    hide TurnTo;
    var x :| x in ns;
    var rest := ns - {x};
    n := x;
    if rest != {} {
      var b := BestOf(pos, atan2, prev, cur, rest);
      if Ahead(pos, atan2, prev, cur, b, x) { n := b; }
    }
    forall m | m in ns ensures Ahead(pos, atan2, prev, cur, n, m) {
      assert m == x || m in rest;
    }
  }

  /** A walk that has not come back to its start always has an edge to take next. */
  lemma {:induction false} NeverStuck(halves: set<Half>, pos: seq<Pt>, atan2: (real, real) -> real, used: set<Half>, s: nat, prev: nat, cur: nat)
    requires Walkable(halves, pos, used) && prev < |pos| && cur < |pos|
    requires Balanced(halves) && UnderWay(used, s, cur) && cur != s
    ensures NextOf(halves, pos, atan2, used, prev, cur).Some?
  {
    var n := SomeOpen(halves, used, s, cur);
    var ns := set m: nat | m < |pos| && Open(halves, used, cur, m) && m != prev;
    if n != prev {
      assert n in ns;
      var b := BestOf(pos, atan2, prev, cur, ns);
      BestIsBest(halves, pos, atan2, used, prev, cur, ns, b);
    }
    hide IsBest, Ahead;
  }

  lemma {:induction false} BestIsBest(halves: set<Half>, pos: seq<Pt>, atan2: (real, real) -> real, used: set<Half>, prev: nat, cur: nat, ns: set<nat>, b: nat)
    requires InPlane(halves, pos) && prev < |pos| && cur < |pos| && ns == (set m: nat | m < |pos| && Open(halves, used, cur, m) && m != prev)
    requires b in ns && forall m <- ns :: Ahead(pos, atan2, prev, cur, b, m)
    ensures IsBest(halves, pos, atan2, used, prev, cur, b)
  {
    hide Ahead;
    forall m: nat | Open(halves, used, cur, m) && m != prev ensures Ahead(pos, atan2, prev, cur, b, m) {
      assert (cur, m) in halves && m in ns;
    }
  }

  /** How a walk ends: back at its start, with as many half-edges leaving every vertex as entering
      it and none consumed but its own; or cut off, after as many steps as are let pass. */
  lemma {:induction false} WalkEnds(halves: set<Half>, pos: seq<Pt>, atan2: (real, real) -> real, before: set<Half>, used: set<Half>,
                                    loop: seq<nat>, prev: nat, cur: nat)
    requires Walkable(halves, pos, used) && loop != [] && |loop| <= |pos| + 1 && prev < |pos| && cur < |pos|
    requires Balanced(halves) && UnderWay(used, loop[0], cur)
    requires forall h <- used :: h in before || h in Trail(loop, cur)
    ensures var (r, u) := Walk(halves, pos, atan2, used, loop, prev, cur);
      && (r != [] ==> Balanced(u) && forall h <- u :: h in before || h in Trail(r, r[0]))
      && (r == [] ==> |u| == |used| + |pos| + 2 - |loop|)
    decreases |halves - used|
  {
    hide InPlane, Trail, NextOf, Balanced, UnderWay;
    if cur == loop[0] {
      ComesHome(used, cur);
    } else {
      NeverStuck(halves, pos, atan2, used, loop[0], prev, cur);
      NextIsOpen(halves, pos, atan2, used, prev, cur);
      var n := NextOf(halves, pos, atan2, used, prev, cur).value;
      Shrinks(halves, used, (cur, n));
      GoesOn(used, loop[0], cur, n);
      TrailMore(loop, cur, n);
      if |loop| + 1 <= |pos| + 1 {
        WalkEnds(halves, pos, atan2, before, used + {(cur, n)}, loop + [cur], cur, n);
      }
    }
  }

  lemma {:induction false} TrailMore(loop: seq<nat>, cur: nat, n: nat)
    ensures Trail(loop + [cur], n) == Trail(loop, cur) + [(cur, n)]
  {
    assert (loop + [cur])[..|loop|] == loop;
  }

  // ---------------------------------------------------------------- all walks

  /** What the walk that start `k` would begin comes to: nothing when the start is used already. */
  ghost function WalkAt(halves: set<Half>, pos: seq<Pt>, atan2: (real, real) -> real, starts: seq<Half>, k: nat): Option<(seq<nat>, set<Half>)>
    requires InPlane(halves, pos) && (forall h <- starts :: h in halves) && k < |starts|
  {
    assert forall h <- starts[..k] :: h in starts;
    WalksInside(halves, pos, atan2, starts[..k], {});
    var u := Walks(halves, pos, atan2, starts[..k], {}).1;
    assert starts[k] in starts;
    if starts[k] in u then None
    else
      StartInPlane(halves, pos, starts[k]);
      Some(Walk(halves, pos, atan2, u + {starts[k]}, [starts[k].0], starts[k].0, starts[k].1))
  }

  /** Start `k`'s walk is given up. */
  ghost predicate GivenUp(halves: set<Half>, pos: seq<Pt>, atan2: (real, real) -> real, starts: seq<Half>, k: nat)
    requires InPlane(halves, pos) && (forall h <- starts :: h in halves) && k < |starts|
  {
    var w := WalkAt(halves, pos, atan2, starts, k);
    w.Some? && w.value.0 == []
  }

  /** A closed walk takes the half-edge. */
  ghost predicate Walked(loops: seq<seq<nat>>, h: Half) {
    exists k :: 0 <= k < |loops| && loops[k] != [] && h in Trail(loops[k], loops[k][0])
  }

  lemma {:induction false} WalksLast(halves: set<Half>, pos: seq<Pt>, atan2: (real, real) -> real, starts: seq<Half>, k: nat)
    requires InPlane(halves, pos) && (forall h <- starts :: h in halves) && k < |starts|
    ensures (forall h <- starts[..k] :: h in halves) && forall h <- starts[..k + 1] :: h in halves
    ensures var (front, u) := Walks(halves, pos, atan2, starts[..k], {});
      var w := WalkAt(halves, pos, atan2, starts, k);
      && (w.None? <==> starts[k] in u)
      && Walks(halves, pos, atan2, starts[..k + 1], {}) ==
        match w case None => (front, u) case Some((loop, u')) => (if loop == [] then front else front + [loop], u')
  {
    assert starts[..k + 1][..k] == starts[..k] && starts[..k + 1][k] == starts[k];
    assert forall h <- starts[..k + 1] :: h in starts;
    WalksInside(halves, pos, atan2, starts[..k], {});
    hide Walk;
  }

  lemma {:induction false} WalkedMore(loops: seq<seq<nat>>, loop: seq<nat>, h: Half)
    ensures Walked(loops + [loop], h) <==> Walked(loops, h) || (loop != [] && h in Trail(loop, loop[0]))
  {
    hide Trail;
    var all := loops + [loop];
    if k :| 0 <= k < |loops| && loops[k] != [] && h in Trail(loops[k], loops[k][0]) { assert all[k] == loops[k]; }
    if loop != [] && h in Trail(loop, loop[0]) { assert all[|loops|] == loop; }
  }

  /** What one walk does: taken to its end it leaves the rest as even as it was, and it is given up
      only once it has consumed two more half-edges than there are vertices. */
  lemma {:induction false} OneWalk(halves: set<Half>, pos: seq<Pt>, atan2: (real, real) -> real, used: set<Half>, h: Half)
    requires Walkable(halves, pos, used) && BothWays(halves) && Balanced(used) && h in halves && h !in used
    ensures h.0 < |pos| && h.1 < |pos| && used + {h} <= halves
    ensures var (r, u) := Walk(halves, pos, atan2, used + {h}, [h.0], h.0, h.1);
      && used <= u && h in u
      && (r != [] ==> Balanced(u) && forall x <- u :: x in used || x in Trail(r, r[0]))
      && (r == [] ==> |u| == |used| + |pos| + 2)
  {
    hide InPlane, Balanced, UnderWay, Walk, Consumed;
    StartInPlane(halves, pos, h);
    BothWaysBalance(halves);
    SetsOff(used, h);
    FirstStep(h, used);
    FirstTrail(h);
    hide Trail;
    WalkCloses(halves, pos, atan2, used, used + {h}, [h.0], h.0, h.1);
    WalkEnds(halves, pos, atan2, used, used + {h}, [h.0], h.0, h.1);
  }

  lemma {:induction false} FirstTrail(h: Half)
    ensures Trail([h.0], h.1) == [h]
  {
    assert [h.0][..0] == [];
  }

  /** As long as no walk is given up, what is consumed is what the closed walks take. */
  lemma {:induction false} WalksShare(halves: set<Half>, pos: seq<Pt>, atan2: (real, real) -> real, starts: seq<Half>, k: nat)
    requires InPlane(halves, pos) && BothWays(halves) && (forall h <- starts :: h in halves) && k <= |starts|
    requires forall j: nat :: j < k ==> !GivenUp(halves, pos, atan2, starts, j)
    ensures forall h <- starts[..k] :: h in halves
    ensures var (loops, u) := Walks(halves, pos, atan2, starts[..k], {});
      && u <= halves && Balanced(u) && (forall h <- u :: Walked(loops, h)) && (forall h <- starts[..k] :: h in u)
  {
    hide InPlane, Balanced, Walk, Trail, Walked, BothWays;
    assert forall h <- starts[..k] :: h in starts;
    WalksInside(halves, pos, atan2, starts[..k], {});
    if k == 0 {
      NothingUsed();
    } else {
      WalksShare(halves, pos, atan2, starts, k - 1);
      WalksLast(halves, pos, atan2, starts, k - 1);
      var (front, u) := Walks(halves, pos, atan2, starts[..k - 1], {});
      var h := starts[k - 1];
      assert starts[..k] == starts[..k - 1] + [h] && h in starts;
      if h !in u {
        OneWalk(halves, pos, atan2, u, h);
        var (loop, u') := Walk(halves, pos, atan2, u + {h}, [h.0], h.0, h.1);
        assert WalkAt(halves, pos, atan2, starts, k - 1) == Some((loop, u'));
        assert !GivenUp(halves, pos, atan2, starts, k - 1);
        forall x | x in u' ensures Walked(front + [loop], x) { WalkedMore(front, loop, x); }
      }
    }
  }

  lemma {:induction false} NothingUsed()
    ensures Balanced({})
  {
    forall v: nat ensures |From({}, v)| == |Into({}, v)| { assert From({}, v) == Into({}, v) == {}; }
  }

  /** The first walk given up was cut off for its length: it had consumed two more half-edges than
      there are vertices. */
  lemma {:induction false} GivenUpForLength(halves: set<Half>, pos: seq<Pt>, atan2: (real, real) -> real, starts: seq<Half>, k: nat)
    requires InPlane(halves, pos) && BothWays(halves) && (forall h <- starts :: h in halves) && k < |starts|
    requires GivenUp(halves, pos, atan2, starts, k) && forall j: nat :: j < k ==> !GivenUp(halves, pos, atan2, starts, j)
    ensures (forall h <- starts[..k] :: h in halves)
      && |WalkAt(halves, pos, atan2, starts, k).value.1| == |Walks(halves, pos, atan2, starts[..k], {}).1| + |pos| + 2
  {
    hide InPlane, Balanced, Walk, Trail, Walked, BothWays;
    WalksShare(halves, pos, atan2, starts, k);
    var u := Walks(halves, pos, atan2, starts[..k], {}).1;
    assert starts[k] in starts;
    OneWalk(halves, pos, atan2, u, starts[k]);
  }

  /** No later walk takes what has been consumed. */
  lemma {:induction false} LaterWalks(halves: set<Half>, pos: seq<Pt>, atan2: (real, real) -> real, starts: seq<Half>, k: nat, m: nat, h: Half)
    requires InPlane(halves, pos) && (forall h <- starts :: h in halves) && k <= m <= |starts|
    ensures (forall h <- starts[..k] :: h in halves) && (forall h <- starts[..m] :: h in halves)
    ensures var (loops, u) := Walks(halves, pos, atan2, starts[..k], {});
      var (more, u') := Walks(halves, pos, atan2, starts[..m], {});
      u <= u' && (h in u && Walked(more, h) ==> Walked(loops, h))
  {
    hide InPlane, Walk, Trail, Walked, Consumed;
    assert forall h <- starts[..k] :: h in starts;
    assert forall h <- starts[..m] :: h in starts;
    if k < m {
      LaterWalks(halves, pos, atan2, starts, k, m - 1, h);
      WalksLast(halves, pos, atan2, starts, m - 1);
      var (front, u') := Walks(halves, pos, atan2, starts[..m - 1], {});
      var x := starts[m - 1];
      assert x in starts;
      if x !in u' {
        WalksInside(halves, pos, atan2, starts[..m - 1], {});
        StartInPlane(halves, pos, x);
        FirstStep(x, u');
        WalkCloses(halves, pos, atan2, u', u' + {x}, [x.0], x.0, x.1);
        var (loop, u'') := Walk(halves, pos, atan2, u' + {x}, [x.0], x.0, x.1);
        WalkedMore(front, loop, h);
        if loop != [] && h in Trail(loop, loop[0]) { ConsumedNew(Trail(loop, loop[0]), u', u'', h); }
      }
    }
  }

  lemma {:induction false} ConsumedNew(trail: seq<Half>, before: set<Half>, used: set<Half>, h: Half)
    requires Consumed(trail, before, used) && h in trail
    ensures h in used && h !in before
  {
  }

  /** The closed walks take every kept half-edge if and only if no walk is given up. */
  lemma {:induction false} AllWalkedIff(halves: set<Half>, pos: seq<Pt>, atan2: (real, real) -> real, starts: seq<Half>)
    requires InPlane(halves, pos) && BothWays(halves) && forall h :: h in starts <==> h in halves
    ensures (forall h <- halves :: Walked(Walks(halves, pos, atan2, starts, {}).0, h))
      <==> forall k: nat :: k < |starts| ==> !GivenUp(halves, pos, atan2, starts, k)
  {
    hide InPlane, Walk, Trail, Walked, Consumed, BothWays, Balanced;
    assert starts[..|starts|] == starts;
    if forall k: nat :: k < |starts| ==> !GivenUp(halves, pos, atan2, starts, k) {
      WalksShare(halves, pos, atan2, starts, |starts|);
    }
    forall k: nat | k < |starts| && GivenUp(halves, pos, atan2, starts, k)
      ensures starts[k] in halves && !Walked(Walks(halves, pos, atan2, starts, {}).0, starts[k])
    {
      assert starts[k] in starts;
      LostStart(halves, pos, atan2, starts, k);
    }
  }

  /** A walk given up loses the half-edge it started from. */
  lemma {:induction false} LostStart(halves: set<Half>, pos: seq<Pt>, atan2: (real, real) -> real, starts: seq<Half>, k: nat)
    requires InPlane(halves, pos) && (forall h <- starts :: h in halves) && k < |starts| && GivenUp(halves, pos, atan2, starts, k)
    ensures !Walked(Walks(halves, pos, atan2, starts, {}).0, starts[k])
  {
    hide InPlane, Walk, Trail, Walked, Consumed;
    assert starts[..|starts|] == starts && starts[k] in starts;
    var h := starts[k];
    WalksLast(halves, pos, atan2, starts, k);
    LaterWalks(halves, pos, atan2, starts, k + 1, |starts|, h);
    var (front, u) := Walks(halves, pos, atan2, starts[..k], {});
    WalksInside(halves, pos, atan2, starts[..k], {});
    StartInPlane(halves, pos, h);
    FirstStep(h, u);
    WalkCloses(halves, pos, atan2, u, u + {h}, [h.0], h.0, h.1);
    WalksApart(halves, pos, atan2, starts[..k], {});
    if Walked(front, h) { WalkedUsed(front, {}, u, h); }
  }

  lemma {:induction false} WalkedUsed(loops: seq<seq<nat>>, before: set<Half>, used: set<Half>, h: Half)
    requires Apart(loops, before, used) && Walked(loops, h)
    ensures h in used
  {
    hide Trail;
  }

  // ---------------------------------------------------------------- two edges at every vertex

  /** Another half-edge than back leaves where `h` comes to. */
  ghost predicate Continues(halves: set<Half>, h: Half) { exists w: nat :: w != h.0 && (h.1, w) in halves }

  predicate Fork(halves: set<Half>, v: nat, a: nat, b: nat, c: nat) { (v, a) in halves && (v, b) in halves && (v, c) in halves }

  /** Every edge goes on by exactly one other edge at either end. */
  ghost predicate TwoEach(halves: set<Half>) {
    && (forall h {:trigger Continues(halves, h)} :: h in halves ==> Continues(halves, h))
    && forall v, a, b, c {:trigger Fork(halves, v, a, b, c)} :: Fork(halves, v, a, b, c) ==> a == b || b == c || a == c
  }

  lemma {:induction false} SomeOther(halves: set<Half>, u: nat, v: nat) returns (w: nat)
    requires TwoEach(halves) && (u, v) in halves
    ensures w != u && (v, w) in halves
  {
    var h: Half := (u, v);
    assert Continues(halves, h);
    w :| w != u && (v, w) in halves;
  }

  lemma {:induction false} NoThird(halves: set<Half>, v: nat, a: nat, b: nat, c: nat)
    requires TwoEach(halves) && (v, a) in halves && (v, b) in halves && (v, c) in halves
    ensures a == b || b == c || a == c
  {
    assert Fork(halves, v, a, b, c);
  }

  lemma {:induction false} BackToo(halves: set<Half>, u: nat, v: nat)
    requires BothWays(halves) && (u, v) in halves
    ensures (v, u) in halves
  {
    var h: Half := (u, v);
    assert (h.1, h.0) in halves;
  }

  /** Half-edges that follow each other are used together. */
  ghost predicate Followed(halves: set<Half>, used: set<Half>) {
    forall h <- halves, g <- halves :: h.1 == g.0 && g.1 != h.0 ==> (h in used <==> g in used)
  }

  /** A walk under way has come along different vertices by edges that are kept. */
  ghost predicate Path(halves: set<Half>, loop: seq<nat>, cur: nat) {
    && loop != [] && NoRepeats(loop) && cur !in loop[1..] && (loop[|loop| - 1], cur) in halves
    && forall i, j :: 0 <= i && i + 1 == j < |loop| ==> (loop[i], loop[j]) in halves
  }

  lemma {:induction false} PathApart(halves: set<Half>, loop: seq<nat>, cur: nat)
    requires Path(halves, loop, cur)
    ensures NoRepeats(loop) && (loop[|loop| - 1], cur) in halves && (cur in loop ==> cur == loop[0])
  {
    assert loop == [loop[0]] + loop[1..];
  }

  lemma {:induction false} PathStarts(halves: set<Half>, h: Half)
    requires h in halves && h.0 != h.1
    ensures Path(halves, [h.0], h.1)
  {
  }

  lemma {:induction false} PathStep(halves: set<Half>, loop: seq<nat>, cur: nat, i: nat)
    requires Path(halves, loop, cur) && i < |loop|
    ensures (loop[i], Onward(loop, cur, i)) in halves
  {
  }

  /** The vertex after the `i`th of a walk that has come to `end`. */
  function Onward(loop: seq<nat>, end: nat, i: nat): nat
    requires i < |loop|
  {
    if i + 1 < |loop| then loop[i + 1] else end
  }

  lemma {:induction false} TrailAt(loop: seq<nat>, end: nat, i: nat)
    requires i < |loop|
    ensures |Trail(loop, end)| == |loop| && Trail(loop, end)[i] == (loop[i], Onward(loop, end, i))
  {
    var n := |loop| - 1;
    if n > 0 { TrailAt(loop[..n], loop[n], if i < n then i else 0); }
  }

  lemma {:induction false} TrailHas(loop: seq<nat>, end: nat, h: Half) returns (i: nat)
    requires h in Trail(loop, end)
    ensures i < |loop| && h == (loop[i], Onward(loop, end, i))
  {
    var t := Trail(loop, end);
    var k: nat :| k < |t| && t[k] == h;
    if loop != [] { TrailAt(loop, end, 0); }
    i := k;
    TrailAt(loop, end, i);
  }

  lemma {:induction false} InTrail(loop: seq<nat>, end: nat, i: nat)
    requires i < |loop|
    ensures (loop[i], Onward(loop, end, i)) in Trail(loop, end)
  {
    TrailAt(loop, end, i);
    assert Trail(loop, end)[i] in Trail(loop, end);
  }

  /** The one edge to go on by leads to a vertex not come along yet, or home. */
  lemma {:induction false} OnwardNew(halves: set<Half>, loop: seq<nat>, cur: nat, w: nat)
    requires BothWays(halves) && TwoEach(halves) && Path(halves, loop, cur) && cur !in loop
    requires (cur, w) in halves && w != loop[|loop| - 1] && w != cur
    ensures Path(halves, loop + [cur], w)
  {
    hide BothWays, TwoEach;
    BackToo(halves, cur, w);
    forall i: nat | 0 < i < |loop| ensures loop[i] != w {
      if loop[i] == w { NotInside(halves, loop, cur, i); }
    }
    PathMore(halves, loop, cur, w);
  }

  lemma {:induction false} NotInside(halves: set<Half>, loop: seq<nat>, cur: nat, i: nat)
    requires BothWays(halves) && TwoEach(halves) && Path(halves, loop, cur) && cur !in loop && 0 < i < |loop|
    requires (loop[i], cur) in halves
    ensures i == |loop| - 1
  {
    hide BothWays, TwoEach;
    if i + 1 < |loop| {
      var j, k := i - 1, i + 1;
      PathStep(halves, loop, cur, j);
      PathStep(halves, loop, cur, i);
      assert loop[j] in loop && loop[k] in loop && loop[j] != loop[k];
      hide Path;
      BackToo(halves, loop[j], loop[i]);
      NoThird(halves, loop[i], loop[j], loop[k], cur);
    }
  }

  lemma {:induction false} PathMore(halves: set<Half>, loop: seq<nat>, cur: nat, w: nat)
    requires Path(halves, loop, cur) && cur !in loop && (cur, w) in halves && w != cur && forall i: nat :: 0 < i < |loop| ==> loop[i] != w
    ensures Path(halves, loop + [cur], w)
  {
    var more := loop + [cur];
    assert more[1..] == loop[1..] + [cur];
    forall i, j | 0 <= i && i + 1 == j < |more| ensures (more[i], more[j]) in halves {
      if j < |loop| { assert (loop[i], loop[j]) in halves; }
    }
  }

  lemma {:induction false} OnlyOnward(halves: set<Half>, pos: seq<Pt>, atan2: (real, real) -> real, used: set<Half>, prev: nat, cur: nat, w: nat)
    requires InPlane(halves, pos) && BothWays(halves) && TwoEach(halves) && prev < |pos| && cur < |pos|
    requires (prev, cur) in halves && Open(halves, used, cur, w) && w != prev
    ensures NextOf(halves, pos, atan2, used, prev, cur) == Some(w)
  {
    hide TurnTo, BothWays, TwoEach;
    StartInPlane(halves, pos, (cur, w));
    BackToo(halves, prev, cur);
    forall m: nat | Open(halves, used, cur, m) && m != prev ensures m == w { NoThird(halves, cur, prev, w, m); }
    hide InPlane;
    OnlyBest(halves, pos, atan2, used, prev, cur, w);
  }

  lemma {:induction false} OnlyBest(halves: set<Half>, pos: seq<Pt>, atan2: (real, real) -> real, used: set<Half>, prev: nat, cur: nat, w: nat)
    requires InPlane(halves, pos) && prev < |pos| && cur < |pos| && w < |pos| && Open(halves, used, cur, w) && w != prev
    requires forall m: nat :: Open(halves, used, cur, m) && m != prev ==> m == w
    ensures NextOf(halves, pos, atan2, used, prev, cur) == Some(w)
  {
    hide TurnTo, InPlane, Open;
    assert Ahead(pos, atan2, prev, cur, w, w);
    assert IsBest(halves, pos, atan2, used, prev, cur, w);
  }

  lemma {:induction false} FewDistinct(loop: seq<nat>, n: nat)
    requires NoRepeats(loop) && forall v <- loop :: v < n
    ensures |loop| <= n
  {
    var s := Distinct(loop);
    FewBelow(s, n);
  }

  function Distinct(loop: seq<nat>): (s: set<nat>)
    requires NoRepeats(loop)
    ensures |s| == |loop| && forall v :: v in s <==> v in loop
  {
    if loop == [] then {}
    else
      var front := loop[..|loop| - 1];
      assert loop == front + [loop[|loop| - 1]] && loop[|loop| - 1] !in front;
      Distinct(front) + {loop[|loop| - 1]}
  }

  /** What follows a half-edge of a walk round different vertices is of the walk too. */
  lemma {:induction false} FollowerOn(halves: set<Half>, loop: seq<nat>, h: Half, g: Half)
    requires BothWays(halves) && TwoEach(halves) && loop != [] && Path(halves, loop, loop[0]) && |loop| >= 3
    requires h in halves && g in halves && h.1 == g.0 && g.1 != h.0 && h in Trail(loop, loop[0])
    ensures g in Trail(loop, loop[0])
  {
    hide BothWays, TwoEach, Trail, Path, Onward, NoRepeats;
    PathApart(halves, loop, loop[0]);
    var i := TrailHas(loop, loop[0], h);
    var j: nat := if i + 1 < |loop| then i + 1 else 0;
    PathStep(halves, loop, loop[0], j);
    TwoOn(loop, i, j);
    BackToo(halves, h.0, h.1);
    NoThird(halves, h.1, h.0, g.1, Onward(loop, loop[0], j));
    InTrail(loop, loop[0], j);
  }

  lemma {:induction false} TwoOn(loop: seq<nat>, i: nat, j: nat)
    requires NoRepeats(loop) && |loop| >= 3 && i < |loop| && j == if i + 1 < |loop| then i + 1 else 0
    ensures Onward(loop, loop[0], j) != loop[i] && Onward(loop, loop[0], i) == loop[j]
  {
  }

  /** ... and so is what it follows. */
  lemma {:induction false} FollowedOn(halves: set<Half>, loop: seq<nat>, h: Half, g: Half)
    requires BothWays(halves) && TwoEach(halves) && loop != [] && Path(halves, loop, loop[0]) && |loop| >= 3
    requires h in halves && g in halves && h.1 == g.0 && g.1 != h.0 && g in Trail(loop, loop[0])
    ensures h in Trail(loop, loop[0])
  {
    hide BothWays, TwoEach, Trail, Path, Onward, NoRepeats;
    PathApart(halves, loop, loop[0]);
    var j := TrailHas(loop, loop[0], g);
    var i: nat := if j > 0 then j - 1 else |loop| - 1;
    PathStep(halves, loop, loop[0], i);
    TwoOn(loop, i, j);
    BackToo(halves, loop[i], g.0);
    BackToo(halves, h.0, h.1);
    NoThird(halves, g.0, h.0, g.1, loop[i]);
    InTrail(loop, loop[0], i);
  }

  lemma {:induction false} UsedFollowed(halves: set<Half>, before: set<Half>, used: set<Half>, loop: seq<nat>)
    requires BothWays(halves) && TwoEach(halves) && loop != [] && Path(halves, loop, loop[0]) && |loop| >= 3
    requires Followed(halves, before) && forall h :: h in used <==> h in before || h in Trail(loop, loop[0])
    ensures Followed(halves, used)
  {
    hide TwoEach, BothWays, Path, Trail;
    forall h, g | h in halves && g in halves && h.1 == g.0 && g.1 != h.0 ensures h in used <==> g in used {
      if h in Trail(loop, loop[0]) { FollowerOn(halves, loop, h, g); }
      if g in Trail(loop, loop[0]) { FollowedOn(halves, loop, h, g); }
    }
  }

  /** With two edges at every vertex a walk goes round different vertices and comes home. */
  lemma {:induction false} RoundHome(halves: set<Half>, pos: seq<Pt>, atan2: (real, real) -> real, before: set<Half>, used: set<Half>,
                                     loop: seq<nat>, prev: nat, cur: nat)
    requires Walkable(halves, pos, used) && BothWays(halves) && TwoEach(halves) && Followed(halves, before)
    requires loop != [] && Path(halves, loop, cur) && prev == loop[|loop| - 1] && (cur == loop[0] ==> |loop| >= 3)
    requires prev < |pos| && cur < |pos| && (forall v <- loop :: v < |pos|) && (prev, cur) !in before
    requires forall h :: h in used <==> h in before || h in Trail(loop, cur)
    ensures var (r, u) := Walk(halves, pos, atan2, used, loop, prev, cur); r != [] && Followed(halves, u)
    decreases |halves - used|
  {
    hide BothWays, TwoEach, Followed, Trail, NextOf, Path, InPlane;
    if cur == loop[0] {
      UsedFollowed(halves, before, used, loop);
    } else {
      var w := GoesOnBy(halves, before, used, loop, prev, cur);
      StartInPlane(halves, pos, (cur, w));
      OnlyOnward(halves, pos, atan2, used, prev, cur, w);
      OnwardNew(halves, loop, cur, w);
      PathShort(halves, loop + [cur], w, |pos|);
      Shrinks(halves, used, (cur, w));
      TrailMore(loop, cur, w);
      RoundHome(halves, pos, atan2, before, used + {(cur, w)}, loop + [cur], cur, w);
    }
  }

  lemma {:induction false} PathShort(halves: set<Half>, loop: seq<nat>, cur: nat, n: nat)
    requires Path(halves, loop, cur) && forall v <- loop :: v < n
    ensures |loop| <= n
  {
    FewDistinct(loop, n);
  }

  lemma {:induction false} GoesOnBy(halves: set<Half>, before: set<Half>, used: set<Half>, loop: seq<nat>, prev: nat, cur: nat) returns (w: nat)
    requires TwoEach(halves) && Followed(halves, before) && loop != [] && Path(halves, loop, cur) && prev == loop[|loop| - 1] && cur != loop[0]
    requires (prev, cur) !in before && forall h :: h in used <==> h in before || h in Trail(loop, cur)
    ensures (prev, cur) in halves && cur !in loop && Open(halves, used, cur, w) && w != prev && (cur, w) !in before
  {
    hide TwoEach, Trail, Path, Followed;
    PathApart(halves, loop, cur);
    w := SomeOther(halves, prev, cur);
    FollowedAt(halves, before, prev, cur, w);
    if (cur, w) in Trail(loop, cur) { var i := TrailHas(loop, cur, (cur, w)); }
  }

  lemma {:induction false} FollowedAt(halves: set<Half>, used: set<Half>, u: nat, v: nat, w: nat)
    requires Followed(halves, used) && (u, v) in halves && (v, w) in halves && w != u
    ensures (u, v) in used <==> (v, w) in used
  {
    var h: Half, g: Half := (u, v), (v, w);
    assert h in used <==> g in used;
  }

  /** With two edges at every vertex no walk is given up. */
  lemma {:induction false} TwoEachHome(halves: set<Half>, pos: seq<Pt>, atan2: (real, real) -> real, starts: seq<Half>, k: nat)
    requires InPlane(halves, pos) && BothWays(halves) && TwoEach(halves) && (forall h <- starts :: h in halves) && k <= |starts|
    ensures forall h <- starts[..k] :: h in halves
    ensures Followed(halves, Walks(halves, pos, atan2, starts[..k], {}).1)
    ensures forall j: nat :: j < k ==> !GivenUp(halves, pos, atan2, starts, j)
  {
    hide BothWays, TwoEach, Trail, Walk, InPlane, Followed;
    assert forall h <- starts[..k] :: h in starts;
    if k == 0 {
      NoneFollowed(halves);
    } else {
      TwoEachHome(halves, pos, atan2, starts, k - 1);
      WalksLast(halves, pos, atan2, starts, k - 1);
      WalksInside(halves, pos, atan2, starts[..k - 1], {});
      var u := Walks(halves, pos, atan2, starts[..k - 1], {}).1;
      var h := starts[k - 1];
      assert h in starts;
      if h !in u { OneRound(halves, pos, atan2, u, h); }
    }
  }

  lemma {:induction false} NoneFollowed(halves: set<Half>)
    ensures Followed(halves, {})
  {
  }

  lemma {:induction false} OneRound(halves: set<Half>, pos: seq<Pt>, atan2: (real, real) -> real, used: set<Half>, h: Half)
    requires Walkable(halves, pos, used) && BothWays(halves) && TwoEach(halves) && Followed(halves, used) && h in halves && h !in used
    ensures h.0 < |pos| && h.1 < |pos| && used + {h} <= halves
    ensures var (r, u) := Walk(halves, pos, atan2, used + {h}, [h.0], h.0, h.1); r != [] && Followed(halves, u)
  {
    hide BothWays, TwoEach, Followed, Walk, InPlane, Trail, Path;
    StartInPlane(halves, pos, h);
    FirstTrail(h);
    PathStarts(halves, h);
    RoundHome(halves, pos, atan2, used, used + {h}, [h.0], h.0, h.1);
  }

  /** So where every kept edge goes on by exactly one other at either end, the closed walks take
      every kept half-edge. */
  lemma {:induction false} TwoEachWalked(halves: set<Half>, pos: seq<Pt>, atan2: (real, real) -> real, starts: seq<Half>)
    requires InPlane(halves, pos) && BothWays(halves) && TwoEach(halves) && forall h :: h in starts <==> h in halves
    ensures forall h <- halves :: Walked(Walks(halves, pos, atan2, starts, {}).0, h)
  {
    hide *;
    TwoEachHome(halves, pos, atan2, starts, |starts|);
    AllWalkedIff(halves, pos, atan2, starts);
  }

  /** What stitching keeps runs both ways. */
  lemma {:induction false} KeptBothWays(segs: seq<Seg>, pos: seq<Pt>, keep: nat -> bool)
    ensures BothWays(Kept(segs, pos, keep))
  {
    forall h | h in Kept(segs, pos, keep) ensures (h.1, h.0) in Kept(segs, pos, keep) {
      TimesEitherWay(segs, Weld(pos[h.0]), Weld(pos[h.1]));
      assert KeptEdge(segs, pos, keep, h.1, h.0);
    }
  }

  /** Stitching takes every kept half-edge, in one closed walk each, if and only if it gives up no
      walk; the rings are the outlines among those walks. Where every kept edge goes on by exactly one
      other at either end it gives up none. */
  lemma {:induction false} StitchedShares(segs: seq<Seg>, keep: nat -> bool, atan2: (real, real) -> real, rings: seq<seq<Pt>>)
    returns (starts: seq<Half>, loops: seq<seq<nat>>)
    requires Stitched(segs, keep, atan2, rings)
    ensures var pos := WeldAll(segs).pos;
      var halves := Kept(segs, pos, keep);
      && InPlane(halves, pos) && (forall h :: h in starts <==> h in halves) && AllInPos(pos, loops) && Apart(loops, {}, halves)
      && (forall r :: r in rings <==> Outline(r) && exists k :: 0 <= k < |loops| && Points(pos, loops[k]) == r)
      && ((forall h <- halves :: Walked(loops, h)) <==> forall k: nat :: k < |starts| ==> !GivenUp(halves, pos, atan2, starts, k))
      && (TwoEach(halves) ==> forall h <- halves :: Walked(loops, h))
  {
    starts, loops := RingsAreWalks(segs, keep, atan2, rings);
    var pos := WeldAll(segs).pos;
    var halves := Kept(segs, pos, keep);
    hide *;
    KeptBothWays(segs, pos, keep);
    AllWalkedIff(halves, pos, atan2, starts);
    if TwoEach(halves) { TwoEachWalked(halves, pos, atan2, starts); }
  }
}
