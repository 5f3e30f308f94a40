// The extruded solid's shell, and exactly when it is a closed manifold.
module GeoShell {
  import opened GeoTriangulate
  import opened GeoManifold

  // ---------------------------------------------------------------- flat index lists

  /** The triangles of a flat index list, a trailing partial one ignored. */
  function Tris(flat: seq<nat>): (ts: seq<Tri>)
    ensures |ts| == |flat| / 3
  {
    seq(|flat| / 3, k requires 0 <= k < |flat| / 3 => Tri(flat[3 * k], flat[3 * k + 1], flat[3 * k + 2]))
  }

  lemma {:induction false} TrisAppend(flat: seq<nat>, a: nat, b: nat, c: nat)
    requires |flat| % 3 == 0
    ensures Tris(flat + [a, b, c]) == Tris(flat) + [Tri(a, b, c)]
  {
    var more := flat + [a, b, c];
    forall k | 0 <= k < |flat| / 3 ensures Tris(more)[k] == Tris(flat)[k] { }
  }

  // ---------------------------------------------------------------- the shell

  function Succ(n: nat, i: nat): nat { if i + 1 == n then 0 else i + 1 }

  /** The side walls of the first `k` profile edges: two triangles each. */
  function Walls(n: nat, k: nat): seq<Tri> {
    if k == 0 then []
    else
      var i, j := k - 1, Succ(n, k - 1);
      Walls(n, k - 1) + [Tri(i, j, n + j)] + [Tri(i, n + j, n + i)]
  }

  /** The bottom cap, reversed, and the top cap, shifted, of a triangulated profile. */
  function Caps(n: nat, cap: seq<Tri>): seq<Tri> {
    if cap == [] then []
    else
      var t := cap[|cap| - 1];
      Caps(n, cap[..|cap| - 1]) + [Tri(t.a, t.c, t.b)] + [Tri(n + t.a, n + t.b, n + t.c)]
  }

  lemma {:induction false} CapsLast(n: nat, cap: seq<Tri>)
    requires cap != []
    ensures var t := cap[|cap| - 1];
      Caps(n, cap) == Caps(n, cap[..|cap| - 1]) + [Tri(t.a, t.c, t.b)] + [Tri(n + t.a, n + t.b, n + t.c)]
  {
  }

  function Shell(n: nat, cap: seq<Tri>): seq<Tri> { Walls(n, n) + Caps(n, cap) }

  /** The wall that walks a directed edge, or `n` when none does. */
  function Owner(n: nat, e: Edge): nat {
    var (u, v) := e;
    if u < n && v < n then (if v == Succ(n, u) then u else n)
    else if u < n then
      if v == n + u then (if u == 0 then n - 1 else u - 1) else if v == n + Succ(n, u) then u else n
    else if v < n then (if u == n + Succ(n, v) || u == n + v then v else n)
    else if v < 2 * n && u == n + Succ(n, v - n) then v - n else n
  }

  lemma {:induction false} SingleCount(t: Tri, e: Edge)
    ensures TrisCount([t], e) == TriCount(t, e)
  {
    assert [t][..0] == [];
  }

  lemma {:induction false} OneWall(n: nat, i: nat, e: Edge)
    requires n >= 3 && i < n
    ensures var j := Succ(n, i);
      TriCount(Tri(i, j, n + j), e) + TriCount(Tri(i, n + j, n + i), e) == if Owner(n, e) == i then 1 else 0
  {
  }

  lemma {:induction false} TwoMore(ts: seq<Tri>, p: Tri, q: Tri, e: Edge)
    ensures TrisCount(ts + [p] + [q], e) == TrisCount(ts, e) + TriCount(p, e) + TriCount(q, e)
  {
    TrisCountAppend(ts + [p], [q], e);
    TrisCountAppend(ts, [p], e);
    SingleCount(p, e);
    SingleCount(q, e);
  }

  /** Every directed edge is walked by at most one wall, once. */
  lemma {:induction false} WallsCount(n: nat, k: nat, e: Edge)
    requires n >= 3 && k <= n
    ensures TrisCount(Walls(n, k), e) == if Owner(n, e) < k then 1 else 0
  {
    hide TrisCount, TriCount, Owner;
    if k == 0 {
      NoTris(e);
    } else {
      var i, j := k - 1, Succ(n, k - 1);
      WallsCount(n, k - 1, e);
      TwoMore(Walls(n, k - 1), Tri(i, j, n + j), Tri(i, n + j, n + i), e);
      OneWall(n, i, e);
    }
  }

  lemma {:induction false} NoTris(e: Edge)
    ensures TrisCount([], e) == 0
  {
  }

  function CapsEdge(n: nat, cap: seq<Tri>, e: Edge): nat {
    if e.0 < n && e.1 < n then TrisCount(cap, Rev(e))
    else if e.0 >= n && e.1 >= n then TrisCount(cap, (e.0 - n, e.1 - n))
    else 0
  }

  lemma {:induction false} OneCap(n: nat, t: Tri, e: Edge)
    requires t.a < n && t.b < n && t.c < n
    ensures TriCount(Tri(t.a, t.c, t.b), e) + TriCount(Tri(n + t.a, n + t.b, n + t.c), e) ==
      if e.0 < n && e.1 < n then TriCount(t, Rev(e))
      else if e.0 >= n && e.1 >= n then TriCount(t, (e.0 - n, e.1 - n))
      else 0
  {
  }

  lemma {:induction false} CapsCount(n: nat, cap: seq<Tri>, e: Edge)
    requires forall t <- cap :: t.a < n && t.b < n && t.c < n
    ensures TrisCount(Caps(n, cap), e) == CapsEdge(n, cap, e)
  {
    hide TriCount;
    if cap != [] {
      var t, front := cap[|cap| - 1], cap[..|cap| - 1];
      CapsCount(n, front, e);
      TwoMore(Caps(n, front), Tri(t.a, t.c, t.b), Tri(n + t.a, n + t.b, n + t.c), e);
      assert t in cap;
      OneCap(n, t, e);
    }
  }

  /** How often the shell walks a directed edge. */
  lemma {:induction false} ShellCount(n: nat, cap: seq<Tri>, e: Edge)
    requires n >= 3 && forall t <- cap :: t.a < n && t.b < n && t.c < n
    ensures TrisCount(Shell(n, cap), e) == (if Owner(n, e) < n then 1 else 0) + CapsEdge(n, cap, e)
  {
    TrisCountAppend(Walls(n, n), Caps(n, cap), e);
    WallsCount(n, n, e);
    CapsCount(n, cap, e);
  }

  /** Every directed edge at most once, and its reverse exactly as often. */
  ghost predicate Balanced(ts: seq<Tri>) {
    forall e: Edge :: TrisCount(ts, e) <= 1 && TrisCount(ts, e) == TrisCount(ts, Rev(e))
  }

  lemma {:induction false} IdentityLoop(n: nat, e: Edge)
    requires n >= 3
    ensures LoopCount(Identity(n), e) == if e.0 < n && e.1 == Succ(n, e.0) then 1 else 0
  {
    LoopCountAt(Identity(n), e);
    if e.0 < n && e.1 == Succ(n, e.0) {
      assert NextOf(Identity(n), e.0) == e.1;
    }
  }

  /** A cap over the whole profile closes the shell. */
  lemma {:induction false} CapClosesShell(n: nat, cap: seq<Tri>)
    requires n >= 3 && (forall t <- cap :: t.a < n && t.b < n && t.c < n)
    requires IsCap(Identity(n), cap)
    ensures Balanced(Shell(n, cap))
  {
    hide TrisCount, LoopCount, Shell;
    forall e: Edge ensures TrisCount(Shell(n, cap), e) <= 1 && TrisCount(Shell(n, cap), e) == TrisCount(Shell(n, cap), Rev(e)) {
      ShellCount(n, cap, e);
      ShellCount(n, cap, Rev(e));
      if e.0 < n && e.1 < n {
        IdentityLoop(n, e);
        IdentityLoop(n, Rev(e));
        assert CapEdge(Identity(n), cap, e) && CapEdge(Identity(n), cap, Rev(e));
      } else if e.0 >= n && e.1 >= n {
        var f := (e.0 - n, e.1 - n);
        IdentityLoop(n, f);
        IdentityLoop(n, Rev(f));
        assert CapEdge(Identity(n), cap, f) && CapEdge(Identity(n), cap, Rev(f));
      }
    }
  }

  // ---------------------------------------------------------------- when it does not close

  lemma {:induction false} MissingVertex(s: seq<nat>, n: nat) returns (w: nat)
    requires Distinct(s) && |s| < n
    ensures w < n && w !in s
  {
    if n - 1 !in s {
      w := n - 1;
    } else {
      var i :| 0 <= i < |s| && s[i] == n - 1;
      RemovedDistinct(s, i);
      w := MissingVertex(RemoveAt(s, i), n - 1);
    }
  }

  /** A run's output starts with its first ear. */
  lemma {:induction false} EmittedStep(poly: seq<Pt>, start: seq<nat>)
    requires InRange(poly, start) && |start| > 3
    ensures var i := FirstEar(poly, start, 0);
      if i < |start| then InRange(poly, RemoveAt(start, i)) &&
        Emitted(poly, start) == [Corner(start, i)] + Emitted(poly, RemoveAt(start, i)) && Clip(poly, start).1 == Clip(poly, RemoveAt(start, i)).1
      else Emitted(poly, start) == [] && Clip(poly, start).1 == start
  {
    var i := FirstEar(poly, start, 0);
    if i < |start| { RemovedInRange(poly, start, i); }
    hide FirstEar;
  }

  /** The run's triangles only use the starting loop's vertices. */
  lemma {:induction false} EmittedFromStart(poly: seq<Pt>, start: seq<nat>)
    requires InRange(poly, start)
    ensures forall t <- Emitted(poly, start) :: t.a in start && t.b in start && t.c in start
    ensures forall v <- Clip(poly, start).1 :: v in start
    decreases |start|
  {
    if |start| > 3 {
      EmittedStep(poly, start);
      hide Clip, FirstEar, Emitted;
      var i := FirstEar(poly, start, 0);
      if i < |start| {
        EmittedFromStart(poly, RemoveAt(start, i));
        assert forall v <- RemoveAt(start, i) :: v in start;
      }
    }
  }

  lemma {:induction false} AbsentUncounted(ts: seq<Tri>, s: seq<nat>, e: Edge)
    requires forall t <- ts :: t.a in s && t.b in s && t.c in s
    requires e.0 !in s
    ensures TrisCount(ts, e) == 0
  {
    if ts != [] {
      assert ts[|ts| - 1] in ts;
      AbsentUncounted(ts[..|ts| - 1], s, e);
    }
  }

  /** A cap that drops a profile vertex leaves that vertex's wall open. */
  lemma {:induction false} DroppedStaysOpen(n: nat, cap: seq<Tri>, start: seq<nat>)
    requires n >= 3 && Distinct(start) && |start| < n
    requires forall t <- cap :: t.a < n && t.b < n && t.c < n && t.a in start && t.b in start && t.c in start
    ensures !Balanced(Shell(n, cap))
  {
    var w := MissingVertex(start, n);
    var e := (w, Succ(n, w));
    ShellCount(n, cap, e);
    ShellCount(n, cap, Rev(e));
    AbsentUncounted(cap, start, e);
  }

  /** Edge bookkeeping for a run, completed or stalled. */
  lemma {:induction false} RunTotals(poly: seq<Pt>, start: seq<nat>, e: Edge)
    requires InRange(poly, start) && Distinct(start) && |start| >= 3
    ensures var r := Clip(poly, start);
      EdgeOk(start, r.0, r.1, e) && Distinct(r.1) && forall v <- r.1 :: v in start
  {
    EdgeInvStart(start);
    ClipKeepsEdges(poly, start, [], start);
    assert [] + Clip(poly, start).0 == Clip(poly, start).0;
  }

  /** A stalled run leaves an edge of its remaining loop unmatched. */
  lemma {:induction false} StalledStaysOpen(poly: seq<Pt>, n: nat)
    requires n == |poly| >= 3 && !Completed(poly, Identity(n))
    ensures !Balanced(Shell(n, Emitted(poly, Identity(n))))
  {
    var start := Identity(n);
    var (ears, rest) := Clip(poly, start);
    StalledLoop(poly, start);
    var e := (rest[0], rest[1]);
    RunTotals(poly, start, e);
    RunTotals(poly, start, Rev(e));
    assert NextOf(rest, 0) == e.1;
    LoopCountAt(rest, e);
    LoopCountAt(rest, Rev(e));
    IdentityLoop(n, e);
    IdentityLoop(n, Rev(e));
    assert rest[0] in rest && rest[1] in rest;
    ShellCount(n, ears, e);
    ShellCount(n, ears, Rev(e));
  }

  lemma {:induction false} StalledLoop(poly: seq<Pt>, loop: seq<nat>)
    requires InRange(poly, loop) && |loop| >= 3 && !Completed(poly, loop)
    ensures |Clip(poly, loop).1| >= 4
    decreases |loop|
  {
    if |loop| > 3 && FirstEar(poly, loop, 0) < |loop| {
      RemovedInRange(poly, loop, FirstEar(poly, loop, 0));
      StalledLoop(poly, RemoveAt(loop, FirstEar(poly, loop, 0)));
    }
  }

  /** Clipping the reversed profile winds the caps against the walls. */
  lemma {:induction false} ReversedStaysOpen(poly: seq<Pt>, n: nat)
    requires n == |poly| >= 3
    ensures InRange(poly, Reversed(Identity(n)))
    ensures !Balanced(Shell(n, Emitted(poly, Reversed(Identity(n)))))
  {
    var start := Reversed(Identity(n));
    assert Distinct(start);
    var r := Clip(poly, start);
    var cap := Emitted(poly, start);
    var e := (1, 0);
    assert start[n - 2] == 1 && NextOf(start, n - 2) == 0;
    LoopCountAt(start, e);
    RunTotals(poly, start, e);
    RunTotals(poly, start, Rev(e));
    EmittedTotals(poly, start, e);
    EmittedTotals(poly, start, Rev(e));
    ShellCount(n, cap, e);
    ShellCount(n, cap, Rev(e));
  }

  /** The output counts an edge at most as often as ears and remaining loop together. */
  lemma {:induction false} EmittedTotals(poly: seq<Pt>, start: seq<nat>, e: Edge)
    requires InRange(poly, start)
    ensures var r := Clip(poly, start); TrisCount(Emitted(poly, start), e) <= Total(r.0, r.1, e)
  {
    var (ears, rest) := Clip(poly, start);
    if |rest| == 3 {
      var last := Tri(rest[0], rest[1], rest[2]);
      TriangleLoop(rest, e);
      TrisCountAppend(ears, [last], e);
      SingleCount(last, e);
    }
  }

  /** Exactly when an extruded profile's shell is balanced: the profile is clean, it is not
      clockwise, and clipping comes down to one triangle. */
  lemma {:induction false} ShellBalancedIff(poly: seq<Pt>, eps: real)
    requires |poly| >= 3
    ensures var n, start := |poly|, Start(poly, eps);
      Balanced(Shell(n, if |start| < 3 then [] else Emitted(poly, start))) <==>
        Clean(poly, eps) && LoopShoe(poly, Identity(n)) >= 0.0 && Completed(poly, start)
  {
    var n, start := |poly|, Start(poly, eps);
    StartLoop(poly, eps);
    hide Start, Clean, Completed, Emitted, LoopShoe, Balanced, Shell;
    var cap := if |start| < 3 then [] else Emitted(poly, start);
    if |start| >= 3 { EmittedFromStart(poly, start); }
    if |start| < n {
      DroppedStaysOpen(n, cap, start);
    } else if LoopShoe(poly, Identity(n)) < 0.0 {
      ReversedStaysOpen(poly, n);
    } else if !Completed(poly, start) {
      StalledStaysOpen(poly, n);
    } else {
      CompletedIsCap(poly, start);
      CapClosesShell(n, cap);
    }
  }
}
