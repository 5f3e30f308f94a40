// The directed-edge structure ear clipping keeps, the extruded shell built from it, the
// closed-manifold test, and the volume that test licenses.
module GeoManifold {
  import opened GeoTriangulate

  type Edge = (nat, nat)

  function Rev(e: Edge): Edge { (e.1, e.0) }

  function One(e: Edge, f: Edge): nat { if e == f then 1 else 0 }

  // ---------------------------------------------------------------- counting edges

  function PathCount(s: seq<nat>, e: Edge): nat {
    if |s| <= 1 then 0 else PathCount(s[..|s| - 1], e) + One((s[|s| - 2], s[|s| - 1]), e)
  }

  /** How often the directed edge `e` is walked going round a closed loop. */
  function LoopCount(s: seq<nat>, e: Edge): nat {
    if s == [] then 0 else PathCount(s, e) + One((s[|s| - 1], s[0]), e)
  }

  function TriCount(t: Tri, e: Edge): nat { One((t.a, t.b), e) + One((t.b, t.c), e) + One((t.c, t.a), e) }

  /** How often triangles walk the directed edge `e`. */
  function TrisCount(ts: seq<Tri>, e: Edge): nat {
    if ts == [] then 0 else TrisCount(ts[..|ts| - 1], e) + TriCount(ts[|ts| - 1], e)
  }

  lemma {:induction false} TrisCountAppend(a: seq<Tri>, b: seq<Tri>, e: Edge)
    ensures TrisCount(a + b, e) == TrisCount(a, e) + TrisCount(b, e)
  {
    if b == [] {
      assert a + b == a;
    } else {
      assert (a + b)[..|a + b| - 1] == a + b[..|b| - 1];
      TrisCountAppend(a, b[..|b| - 1], e);
    }
  }

  lemma {:induction false} PathCountJoin(a: seq<nat>, b: seq<nat>, e: Edge)
    requires a != [] && b != []
    ensures PathCount(a + b, e) == PathCount(a, e) + One((a[|a| - 1], b[0]), e) + PathCount(b, e)
  {
    var ab := a + b;
    if |b| == 1 {
      assert ab[..|ab| - 1] == a;
    } else {
      assert ab[..|ab| - 1] == a + b[..|b| - 1];
      PathCountJoin(a, b[..|b| - 1], e);
    }
  }

  /** Cutting off a corner replaces its two edges by the chord. */
  lemma {:induction false} CornerCount(loop: seq<nat>, i: nat, e: Edge)
    requires |loop| >= 3 && i < |loop|
    ensures var t := Corner(loop, i);
      LoopCount(RemoveAt(loop, i), e) + One((t.a, t.b), e) + One((t.b, t.c), e) == LoopCount(loop, e) + One((t.a, t.c), e)
  {
    var l, r := loop[..i], loop[i + 1..];
    assert loop == l + ([loop[i]] + r);
    if i == 0 {
      assert loop == [loop[0]] + r && RemoveAt(loop, i) == r;
      PathCountJoin([loop[0]], r, e);
    } else if r == [] {
      assert loop == l + [loop[i]] && RemoveAt(loop, i) == l;
      PathCountJoin(l, [loop[i]], e);
    } else {
      PathCountJoin(l, [loop[i]] + r, e);
      PathCountJoin([loop[i]], r, e);
      PathCountJoin(l, r, e);
    }
  }

  /** Along distinct vertices every edge is walked at most once: from a vertex to the next. */
  lemma {:induction false} PathCountAt(s: seq<nat>, e: Edge)
    requires Distinct(s)
    ensures PathCount(s, e) == if exists k :: 0 <= k < |s| - 1 && s[k] == e.0 && s[k + 1] == e.1 then 1 else 0
  {
    if |s| > 1 {
      var t := s[..|s| - 1];
      PathCountAt(t, e);
      if k :| 0 <= k < |s| - 1 && s[k] == e.0 && s[k + 1] == e.1 {
        assert k < |t| - 1 ==> t[k] == e.0 && t[k + 1] == e.1;
      }
      if k :| 0 <= k < |t| - 1 && t[k] == e.0 && t[k + 1] == e.1 {
        assert s[k] == e.0 && s[k + 1] == e.1;
      }
    }
  }

  ghost predicate Follows(s: seq<nat>, e: Edge) {
    exists k :: 0 <= k < |s| && s[k] == e.0 && NextOf(s, k) == e.1
  }

  lemma {:induction false} LoopCountAt(s: seq<nat>, e: Edge)
    requires Distinct(s) && |s| >= 2
    ensures LoopCount(s, e) == if Follows(s, e) then 1 else 0
  {
    PathCountAt(s, e);
    if k :| 0 <= k < |s| - 1 && s[k] == e.0 && s[k + 1] == e.1 {
      assert NextOf(s, k) == e.1;
    }
    if (s[|s| - 1], s[0]) == e {
      assert NextOf(s, |s| - 1) == e.1;
    }
    if k :| 0 <= k < |s| && s[k] == e.0 && NextOf(s, k) == e.1 {
      if k < |s| - 1 { assert s[k + 1] == e.1; }
    }
  }

  // ---------------------------------------------------------------- the clipping invariant

  function Total(ts: seq<Tri>, rest: seq<nat>, e: Edge): nat { TrisCount(ts, e) + LoopCount(rest, e) }

  /** What clipping keeps about a directed edge, counted over the emitted triangles and the
      remaining loop together: never twice; a starting-loop edge once and unreversed; any
      other only along with its reverse; and never joining remaining vertices that are not
      neighbours in the remaining loop. */
  ghost predicate EdgeOk(start: seq<nat>, ts: seq<Tri>, rest: seq<nat>, e: Edge) {
    && Total(ts, rest, e) <= 1
    && (Total(ts, rest, e) == 1 ==> e.0 in start && e.1 in start && e.0 != e.1)
    && (LoopCount(start, e) > 0 ==> Total(ts, rest, e) == 1 && Total(ts, rest, Rev(e)) == 0)
    && (Total(ts, rest, e) == 1 && LoopCount(start, e) == 0 && LoopCount(start, Rev(e)) == 0 ==> Total(ts, rest, Rev(e)) == 1)
    && (Total(ts, rest, e) == 1 && e.0 in rest && e.1 in rest ==> LoopCount(rest, e) > 0 || LoopCount(rest, Rev(e)) > 0)
  }

  ghost predicate EdgeInv(start: seq<nat>, ts: seq<Tri>, rest: seq<nat>) {
    forall e: Edge :: EdgeOk(start, ts, rest, e)
  }

  lemma {:induction false} EdgeInvStart(start: seq<nat>)
    requires Distinct(start) && |start| >= 3
    ensures EdgeInv(start, [], start)
  {
    forall e: Edge ensures EdgeOk(start, [], start, e) {
      LoopCountAt(start, e);
      LoopCountAt(start, Rev(e));
    }
  }

  /** The chord of a corner joins two vertices that are not neighbours. */
  lemma {:induction false} ChordIsNew(loop: seq<nat>, i: nat)
    requires Distinct(loop) && |loop| >= 4 && i < |loop|
    ensures var t := Corner(loop, i); LoopCount(loop, (t.a, t.c)) == 0 && LoopCount(loop, (t.c, t.a)) == 0
    ensures var t := Corner(loop, i); t.a != t.b && t.b != t.c && t.a != t.c && t.a in loop && t.b in loop && t.c in loop
  {
    var t := Corner(loop, i);
    LoopCountAt(loop, (t.a, t.c));
    LoopCountAt(loop, (t.c, t.a));
  }

  lemma {:induction false} RemovedDistinct(loop: seq<nat>, i: nat)
    requires Distinct(loop) && i < |loop|
    ensures Distinct(RemoveAt(loop, i))
    ensures forall v :: v in RemoveAt(loop, i) <==> v in loop && v != loop[i]
  {
    var r := RemoveAt(loop, i);
    forall v ensures v in r <==> v in loop && v != loop[i] {
      if v in loop && v != loop[i] {
        var k :| 0 <= k < |loop| && loop[k] == v;
        assert v == r[if k < i then k else k - 1];
      }
    }
  }

  /** One more triangle on one corner fewer: every edge keeps its count, but for the chord,
      which appears once each way. */
  lemma {:induction false} TotalStep(ts: seq<Tri>, rest: seq<nat>, i: nat, e: Edge)
    requires |rest| >= 3 && i < |rest|
    ensures var t := Corner(rest, i);
      Total(ts + [t], RemoveAt(rest, i), e) == Total(ts, rest, e) + One((t.a, t.c), e) + One((t.c, t.a), e)
  {
    CornerCount(rest, i, e);
    TrisCountAppend(ts, [Corner(rest, i)], e);
    assert TrisCount([Corner(rest, i)], e) == TriCount(Corner(rest, i), e) by {
      assert [Corner(rest, i)][..0] == [];
    }
  }

  /** Clipping one corner keeps the invariant. */
  lemma {:induction false} EdgeInvStep(start: seq<nat>, ts: seq<Tri>, rest: seq<nat>, i: nat)
    requires Distinct(rest) && |rest| >= 4 && i < |rest| && EdgeInv(start, ts, rest)
    requires forall v <- rest :: v in start
    ensures EdgeInv(start, ts + [Corner(rest, i)], RemoveAt(rest, i))
  {
    var t, rest' := Corner(rest, i), RemoveAt(rest, i);
    ChordIsNew(rest, i);
    RemovedDistinct(rest, i);
    hide Total, LoopCount;
    assert EdgeOk(start, ts, rest, (t.a, t.c)) && EdgeOk(start, ts, rest, (t.c, t.a));
    forall e: Edge ensures EdgeOk(start, ts + [t], rest', e) {
      assert EdgeOk(start, ts, rest, e) && EdgeOk(start, ts, rest, Rev(e));
      TotalStep(ts, rest, i, e);
      TotalStep(ts, rest, i, Rev(e));
      CornerCount(rest, i, e);
      CornerCount(rest, i, Rev(e));
    }
  }

  /** The invariant holds along the whole run. */
  lemma {:induction false} ClipKeepsEdges(poly: seq<Pt>, start: seq<nat>, ts: seq<Tri>, rest: seq<nat>)
    requires InRange(poly, rest) && Distinct(rest) && (forall v <- rest :: v in start)
    requires EdgeInv(start, ts, rest)
    ensures EdgeInv(start, ts + Clip(poly, rest).0, Clip(poly, rest).1)
    ensures Distinct(Clip(poly, rest).1) && forall v <- Clip(poly, rest).1 :: v in start
    decreases |rest|
  {
    hide EdgeInv;
    var r := Clip(poly, rest);
    if r.0 == [] {
      assert ts + r.0 == ts;
    } else {
      var i := FirstEar(poly, rest, 0);
      var t, rest' := Corner(rest, i), RemoveAt(rest, i);
      RemovedInRange(poly, rest, i);
      RemovedDistinct(rest, i);
      EdgeInvStep(start, ts, rest, i);
      ClipKeepsEdges(poly, start, ts + [t], rest');
      assert ts + [t] + Clip(poly, rest').0 == ts + r.0;
    }
  }

  /** A cap over `start`: every directed edge at most once, the loop's edges once and
      unreversed, and every inner edge together with its reverse. */
  ghost predicate CapEdge(start: seq<nat>, ts: seq<Tri>, e: Edge) {
    && TrisCount(ts, e) <= 1
    && (TrisCount(ts, e) == 1 ==> e.0 in start && e.1 in start && e.0 != e.1)
    && (LoopCount(start, e) > 0 ==> TrisCount(ts, e) == 1 && TrisCount(ts, Rev(e)) == 0)
    && (TrisCount(ts, e) == 1 && LoopCount(start, e) == 0 ==> TrisCount(ts, Rev(e)) == 1)
  }

  ghost predicate IsCap(start: seq<nat>, ts: seq<Tri>) {
    forall e: Edge :: CapEdge(start, ts, e)
  }

  lemma {:induction false} TriangleLoop(s: seq<nat>, e: Edge)
    requires |s| == 3
    ensures LoopCount(s, e) == TriCount(Tri(s[0], s[1], s[2]), e)
  {
    assert s[..2][..1] == s[..1];
    assert PathCount(s[..1], e) == 0;
    assert PathCount(s[..2], e) == One((s[0], s[1]), e);
  }

  /** A completed run emits a cap. */
  lemma {:induction false} CompletedIsCap(poly: seq<Pt>, start: seq<nat>)
    requires InRange(poly, start) && Distinct(start) && |start| >= 3 && Completed(poly, start)
    ensures IsCap(start, Emitted(poly, start))
  {
    EdgeInvStart(start);
    ClipKeepsEdges(poly, start, [], start);
    var (ears, rest) := Clip(poly, start);
    assert [] + ears == ears;
    var last := Tri(rest[0], rest[1], rest[2]);
    forall e: Edge ensures TrisCount(Emitted(poly, start), e) == Total(ears, rest, e) {
      TriangleLoop(rest, e);
      TrisCountAppend(ears, [last], e);
      assert [last][..0] == [];
    }
    forall e: Edge ensures CapEdge(start, Emitted(poly, start), e) {
      assert EdgeOk(start, ears, rest, e) && EdgeOk(start, ears, rest, Rev(e));
      LoopCountAt(start, Rev(e));
    }
  }
}
