// Cutting edges where they meet: the grid-accelerated scan against the all-pairs one, and
// sub-edges no other edge crosses.
module PlanarSplit {
  import opened GeoTriangulate
  import opened PlanarGrid
  import opened PlanarBoundary
  import opened Sorting

  datatype Edge = Edge(a: Pt, b: Pt, tri: nat)

  const PARAM_EPS: real := 0.000000000001

  function Lerp(e: Edge, t: real): Pt { Pt(e.a.x + t * (e.b.x - e.a.x), e.a.y + t * (e.b.y - e.a.y)) }

  function Dir(e: Edge): Pt { Pt(e.b.x - e.a.x, e.b.y - e.a.y) }

  function Diff(p: Pt, q: Pt): Pt { Pt(p.x - q.x, p.y - q.y) }

  /** The cross product of two directions. */
  function Wedge(p: Pt, q: Pt): real { p.x * q.y - p.y * q.x }

  function Inner(p: Pt, q: Pt): real { p.x * q.x + p.y * q.y }

  predicate Point(e: Edge) { e.a == e.b }

  function BoxOf(e: Edge): (b: Box)
    ensures Proper(b)
  {
    Box(Min(e.a.x, e.b.x), Min(e.a.y, e.b.y), Max(e.a.x, e.b.x), Max(e.a.y, e.b.y))
  }

  // ---------------------------------------------------------------- where two edges meet

  function Square(x: real): real { x * x }

  /** The squared length of a direction. */
  function Length2(d: Pt): real { Square(d.x) + Square(d.y) }

  /** A point's parameter along an edge. */
  function Param(e: Edge, p: Pt): real
    requires !Point(e)
  {
    LengthPositive(Dir(e));
    Inner(Diff(p, e.a), Dir(e)) / Length2(Dir(e))
  }

  lemma {:induction false} LengthPositive(d: Pt)
    requires d.x != 0.0 || d.y != 0.0
    ensures Length2(d) > 0.0
  {
    hide Square;
    SquareSign(d.x);
    SquareSign(d.y);
  }

  lemma {:induction false} SquareSign(x: real)
    ensures Square(x) >= 0.0 && (x != 0.0 ==> Square(x) > 0.0)
  {
    if x > 0.0 {
      PositiveProduct(x, x, Square(x));
    } else if x < 0.0 {
      assert Square(x) == -x * -x;
      PositiveProduct(-x, -x, Square(x));
    }
  }

  lemma {:induction false} PositiveProduct(a: real, b: real, s: real)
    requires a > 0.0 && b > 0.0 && s == a * b
    ensures s > 0.0
  {
  }

  predicate Strictly(t: real) { PARAM_EPS < t < 1.0 - PARAM_EPS }

  /** The end points of another edge strictly inside `e`, as parameters along it. */
  function Project(e: Edge, p: Pt, q: Pt): seq<real> {
    if Point(e) then []
    else
      (if Strictly(Param(e, p)) then [Param(e, p)] else []) + (if Strictly(Param(e, q)) then [Param(e, q)] else [])
  }

  /** The parameters at which two edges meet, along each. */
  function CrossParams(a: Edge, b: Edge): (seq<real>, seq<real>) {
    var d1, d2, off := Dir(a), Dir(b), Diff(b.a, a.a);
    var den := Wedge(d1, d2);
    if den != 0.0 then
      var t, u := Wedge(off, d2) / den, Wedge(off, d1) / den;
      if t < 0.0 || t > 1.0 || u < 0.0 || u > 1.0 then ([], []) else ([t], [u])
    else if Wedge(off, d1) != 0.0 then ([], [])
    else (Project(a, b.a, b.b), Project(b, a.a, a.b))
  }

  predicate Parallel(a: Edge, b: Edge) { Wedge(Dir(a), Dir(b)) == 0.0 }

  // ---------------------------------------------------------------- Cramer's rule

  lemma {:induction false} CramerAxis(d1: Pt, d2: Pt, o: Pt)
    ensures Wedge(o, d2) * d1.x == o.x * Wedge(d1, d2) + Wedge(o, d1) * d2.x
    ensures Wedge(o, d2) * d1.y == o.y * Wedge(d1, d2) + Wedge(o, d1) * d2.y
  {
  }

  lemma {:induction false} DivideOut(t: real, d: real, o: real, den: real, u: real, e: real)
    requires den != 0.0 && t * d == o * den + u * e
    ensures (t / den) * d == o + (u / den) * e
  {
    var s, v := t / den, u / den;
    assert t == s * den && u == v * den;
    assert s * den * d == o * den + v * den * e;
    Cancel(s * d, o + v * e, den);
  }

  lemma {:induction false} Cancel(a: real, b: real, c: real)
    requires c != 0.0 && a * c == b * c
    ensures a == b
  {
    assert (a - b) * c == 0.0;
  }

  /** The parameters name one point. */
  lemma {:induction false} ParamsMeet(a: Edge, b: Edge)
    requires !Parallel(a, b)
    ensures var d1, d2, off := Dir(a), Dir(b), Diff(b.a, a.a);
      Lerp(a, Wedge(off, d2) / Wedge(d1, d2)) == Lerp(b, Wedge(off, d1) / Wedge(d1, d2))
  {
    var d1, d2, off := Dir(a), Dir(b), Diff(b.a, a.a);
    CramerAxis(d1, d2, off);
    var den, t, u := Wedge(d1, d2), Wedge(off, d2), Wedge(off, d1);
    hide Wedge;
    DivideOut(t, d1.x, off.x, den, u, d2.x);
    DivideOut(t, d1.y, off.y, den, u, d2.y);
  }

  /** Whatever point two non-parallel edges share, it is the one the parameters name. */
  lemma {:induction false} MeetingIsParams(a: Edge, b: Edge, t: real, u: real)
    requires !Parallel(a, b) && Lerp(a, t) == Lerp(b, u)
    ensures var d1, d2, off := Dir(a), Dir(b), Diff(b.a, a.a);
      t == Wedge(off, d2) / Wedge(d1, d2) && u == Wedge(off, d1) / Wedge(d1, d2)
  {
    var d1, d2, off := Dir(a), Dir(b), Diff(b.a, a.a);
    assert t * d1.x == off.x + u * d2.x && t * d1.y == off.y + u * d2.y;
    WedgeBoth(d1, d2, off, t, u);
    var den := Wedge(d1, d2);
    hide Wedge;
    Quotient(t, den, Wedge(off, d2));
    Quotient(u, den, Wedge(off, d1));
  }

  lemma {:induction false} Quotient(t: real, den: real, v: real)
    requires den != 0.0 && t * den == v
    ensures t == v / den
  {
    Cancel(t, v / den, den);
  }

  lemma {:induction false} WedgeBoth(d1: Pt, d2: Pt, o: Pt, t: real, u: real)
    requires t * d1.x == o.x + u * d2.x && t * d1.y == o.y + u * d2.y
    ensures t * Wedge(d1, d2) == Wedge(o, d2) && u * Wedge(d1, d2) == Wedge(o, d1)
  {
    calc {
      t * Wedge(d1, d2);
      t * d1.x * d2.y - t * d1.y * d2.x;
      (o.x + u * d2.x) * d2.y - (o.y + u * d2.y) * d2.x;
      Wedge(o, d2);
    }
    calc {
      u * Wedge(d1, d2);
      d1.x * (u * d2.y) - d1.y * (u * d2.x);
      d1.x * (t * d1.y - o.y) - d1.y * (t * d1.x - o.x);
      Wedge(o, d1);
    }
  }

  // ---------------------------------------------------------------- meeting edges have overlapping boxes

  predicate InBox(p: Pt, b: Box) { b.x0 <= p.x <= b.x1 && b.y0 <= p.y <= b.y1 }

  lemma {:induction false} Between(a: real, b: real, t: real)
    requires 0.0 <= t <= 1.0
    ensures Min(a, b) <= a + t * (b - a) <= Max(a, b)
  {
    var d := b - a;
    if d >= 0.0 {
      Grow(t, d);
    } else {
      Grow(t, -d);
      assert t * -d == -(t * d);
    }
  }

  lemma {:induction false} Grow(t: real, d: real)
    requires 0.0 <= t <= 1.0 && d >= 0.0
    ensures 0.0 <= t * d <= d
  {
    assert (1.0 - t) * d >= 0.0;
  }

  lemma {:induction false} LerpInBox(e: Edge, t: real)
    requires 0.0 <= t <= 1.0
    ensures InBox(Lerp(e, t), BoxOf(e))
  {
    Between(e.a.x, e.b.x, t);
    Between(e.a.y, e.b.y, t);
  }

  lemma {:induction false} EndsInBox(e: Edge)
    ensures InBox(e.a, BoxOf(e)) && InBox(e.b, BoxOf(e))
  {
  }

  lemma {:induction false} SharedPoint(p: Pt, a: Box, b: Box)
    requires InBox(p, a) && InBox(p, b)
    ensures Overlap(a, b)
  {
  }

  /** A point on an edge's line is at its own parameter. */
  lemma {:induction false} OnLine(e: Edge, p: Pt)
    requires !Point(e) && Wedge(Diff(p, e.a), Dir(e)) == 0.0
    ensures Lerp(e, Param(e, p)) == p
  {
    hide Inner, Length2, Wedge, Lerp, Param;
    var q, d, t := Diff(p, e.a), Dir(e), Param(e, p);
    ParamIs(e, p);
    OnAxis(q, d);
    OnParam(t, Length2(d), Inner(q, d), d.x, q.x);
    OnParam(t, Length2(d), Inner(q, d), d.y, q.y);
    LerpAt(e, p, t);
  }

  lemma {:induction false} ParamIs(e: Edge, p: Pt)
    requires !Point(e)
    ensures Length2(Dir(e)) > 0.0 && Param(e, p) * Length2(Dir(e)) == Inner(Diff(p, e.a), Dir(e))
  {
    hide Inner, Length2;
    LengthPositive(Dir(e));
    Undo(Inner(Diff(p, e.a), Dir(e)), Length2(Dir(e)));
  }

  lemma {:induction false} LerpAt(e: Edge, p: Pt, t: real)
    requires t * Dir(e).x == p.x - e.a.x && t * Dir(e).y == p.y - e.a.y
    ensures Lerp(e, t) == p
  {
  }

  lemma {:induction false} Undo(v: real, n: real)
    requires n != 0.0
    ensures (v / n) * n == v
  {
  }

  lemma {:induction false} OnParam(t: real, n: real, i: real, d: real, q: real)
    requires n != 0.0 && t * n == i && i * d == n * q
    ensures t * d == q
  {
    assert (t * d) * n == (t * n) * d == q * n;
    Cancel(t * d, q, n);
  }

  lemma {:induction false} OnAxis(q: Pt, d: Pt)
    requires Wedge(q, d) == 0.0
    ensures Inner(q, d) * d.x == Length2(d) * q.x && Inner(q, d) * d.y == Length2(d) * q.y
  {
    OnAxes(q.x, q.y, d.x, d.y);
  }

  lemma {:induction false} OnAxes(qx: real, qy: real, dx: real, dy: real)
    requires qx * dy - qy * dx == 0.0
    ensures (qx * dx + qy * dy) * dx == (dx * dx + dy * dy) * qx
    ensures (qx * dx + qy * dy) * dy == (dx * dx + dy * dy) * qy
  {
    calc {
      (qx * dx + qy * dy) * dx;
      qx * dx * dx + (qy * dx) * dy;
      qx * dx * dx + (qx * dy) * dy;
      (dx * dx + dy * dy) * qx;
    }
    calc {
      (qx * dx + qy * dy) * dy;
      (qx * dy) * dx + qy * dy * dy;
      (qy * dx) * dx + qy * dy * dy;
      (dx * dx + dy * dy) * qy;
    }
  }

  lemma {:induction false} ProjectInside(e: Edge, p: Pt, box: Box)
    requires !Point(e) && Wedge(Diff(p, e.a), Dir(e)) == 0.0 && Strictly(Param(e, p)) && InBox(p, box)
    ensures Overlap(BoxOf(e), box)
  {
    OnLine(e, p);
    LerpInBox(e, Param(e, p));
    SharedPoint(p, BoxOf(e), box);
  }

  /** A lower edge that is a single point, off the other edge's line as it may be, is still
      projected onto that edge: the one pair whose parameters do not mean a meeting. */
  predicate StrayPair(a: Edge, b: Edge) {
    Point(a) && !Point(b) && Strictly(Param(b, a.a))
  }

  lemma {:induction false} PointPair(a: Edge, b: Edge)
    requires Point(a)
    ensures Parallel(a, b) && Wedge(Diff(b.a, a.a), Dir(a)) == 0.0
    ensures CrossParams(a, b) == ([], Project(b, a.a, a.a))
    ensures CrossParams(a, b) != ([], []) <==> StrayPair(a, b)
  {
    assert Dir(a) == Pt(0.0, 0.0);
    NoDirection(Dir(b));
    NoDirection(Diff(b.a, a.a));
    hide Wedge, Param, Strictly;
    var s := Project(b, a.a, a.a);
    assert s != [] <==> StrayPair(a, b);
    assert CrossParams(a, b) == ([], s);
  }

  lemma {:induction false} NoDirection(d: Pt)
    ensures Wedge(Pt(0.0, 0.0), d) == 0.0 && Wedge(d, Pt(0.0, 0.0)) == 0.0
  {
  }

  lemma {:induction false} WedgeLine(d1: Pt, d2: Pt, o: Pt)
    requires Wedge(o, d1) == 0.0 && Wedge(d1, d2) == 0.0 && (d1.x != 0.0 || d1.y != 0.0)
    ensures Wedge(o, d2) == 0.0
  {
    var w := Wedge(o, d2);
    assert d1.x * w == o.x * Wedge(d1, d2) - d2.x * Wedge(o, d1);
    assert d1.y * w == o.y * Wedge(d1, d2) - d2.y * Wedge(o, d1);
    hide Wedge;
    if d1.x != 0.0 { ZeroFactor(d1.x, w); } else { ZeroFactor(d1.y, w); }
  }

  lemma {:induction false} ZeroFactor(a: real, w: real)
    requires a != 0.0 && a * w == 0.0
    ensures w == 0.0
  {
  }

  /** Collinear edges: each end point lies on the other's line. */
  lemma {:induction false} CollinearEnds(a: Edge, b: Edge)
    requires Parallel(a, b) && Wedge(Diff(b.a, a.a), Dir(a)) == 0.0 && !Point(a)
    ensures Wedge(Diff(b.a, a.a), Dir(a)) == 0.0 && Wedge(Diff(b.b, a.a), Dir(a)) == 0.0
    ensures Wedge(Diff(a.a, b.a), Dir(b)) == 0.0 && Wedge(Diff(a.b, b.a), Dir(b)) == 0.0
  {
    var d1, d2, o := Dir(a), Dir(b), Diff(b.a, a.a);
    assert d1.x != 0.0 || d1.y != 0.0;
    WedgeLine(d1, d2, o);
    assert Wedge(Diff(b.b, a.a), d1) == Wedge(o, d1) - Wedge(d1, d2);
    assert Wedge(Diff(a.a, b.a), d2) == -Wedge(o, d2);
    assert Wedge(Diff(a.b, b.a), d2) == Wedge(d1, d2) - Wedge(o, d2);
  }

  /** Exactly when parameters can appear between edges whose boxes lie apart: never, but for
      the stray pair. */
  lemma {:induction false} ApartMeetsOnlyStray(a: Edge, b: Edge)
    requires !Overlap(BoxOf(a), BoxOf(b))
    ensures CrossParams(a, b) != ([], []) <==> StrayPair(a, b)
  {
    if Point(a) {
      PointPair(a, b);
    } else {
      if CrossParams(a, b) != ([], []) { MeetingOverlaps(a, b); }
    }
  }

  lemma {:induction false} MeetingOverlaps(a: Edge, b: Edge)
    requires !Point(a) && CrossParams(a, b) != ([], [])
    ensures Overlap(BoxOf(a), BoxOf(b))
  {
    var d1, d2, off := Dir(a), Dir(b), Diff(b.a, a.a);
    if !Parallel(a, b) {
      var t, u := Wedge(off, d2) / Wedge(d1, d2), Wedge(off, d1) / Wedge(d1, d2);
      ParamsMeet(a, b);
      LerpInBox(a, t);
      LerpInBox(b, u);
      SharedPoint(Lerp(a, t), BoxOf(a), BoxOf(b));
    } else {
      CollinearEnds(a, b);
      EndsInBox(a);
      EndsInBox(b);
      hide Wedge, Param, BoxOf;
      if Project(a, b.a, b.b) != [] {
        ProjectInside(a, if Strictly(Param(a, b.a)) then b.a else b.b, BoxOf(b));
      } else {
        ProjectInside(b, if Strictly(Param(b, a.a)) then a.a else a.b, BoxOf(a));
      }
    }
  }

  // ---------------------------------------------------------------- the edges of a union

  type Triangle = (Pt, Pt, Pt)

  /** Wound counter-clockwise, its corners on three different weld keys. */
  predicate Whole(t: Triangle) {
    Weld(t.0) != Weld(t.1) && Weld(t.1) != Weld(t.2) && Weld(t.0) != Weld(t.2) && Cross(t.0, t.1, t.2) > 0.0
  }

  /** Adds a triangle wound counter-clockwise, unless it covers nothing at the weld quantum. */
  method AppendProjected(dst: seq<Triangle>, a: Pt, b: Pt, c: Pt) returns (out: seq<Triangle>)
    requires forall t <- dst :: Whole(t)
    ensures forall t <- out :: Whole(t)
    ensures out == dst || out == dst + [(a, b, c)] || out == dst + [(a, c, b)]
    ensures out == dst <==> !Whole((a, b, c)) && !Whole((a, c, b))
  {
    var ka, kb, kc := Weld(a), Weld(b), Weld(c);
    CrossSwapped(a, b, c);
    hide Weld, Cross;
    if ka == kb || kb == kc || ka == kc {
      return dst;
    }
    var s := Cross(a, b, c);
    if s == 0.0 {
      return dst;
    }
    out := dst + [if s < 0.0 then (a, c, b) else (a, b, c)];
  }

  lemma {:induction false} CrossSwapped(a: Pt, b: Pt, c: Pt)
    ensures Cross(a, c, b) == -Cross(a, b, c)
  {
  }

  /** The directed edges of the triangles. Those of whole triangles all have some length. */
  method UnionEdges(tris: seq<Triangle>) returns (edges: seq<Edge>)
    ensures |edges| == 3 * |tris|
    ensures forall i :: 0 <= i < |tris| ==>
      && edges[3 * i] == Edge(tris[i].0, tris[i].1, i) && edges[3 * i + 1] == Edge(tris[i].1, tris[i].2, i)
      && edges[3 * i + 2] == Edge(tris[i].2, tris[i].0, i)
    ensures (forall t <- tris :: Whole(t)) ==> Lengthy(edges)
  {
    hide Weld, Cross;
    edges := [];
    for i := 0 to |tris|
      invariant |edges| == 3 * i
      invariant forall k :: 0 <= k < i ==>
        && edges[3 * k] == Edge(tris[k].0, tris[k].1, k) && edges[3 * k + 1] == Edge(tris[k].1, tris[k].2, k)
        && edges[3 * k + 2] == Edge(tris[k].2, tris[k].0, k)
      invariant (forall t <- tris :: Whole(t)) ==> Lengthy(edges)
    {
      var t := tris[i];
      assert t in tris;
      edges := edges + [Edge(t.0, t.1, i), Edge(t.1, t.2, i), Edge(t.2, t.0, i)];
    }
  }

  // ---------------------------------------------------------------- the scan

  /** Where edge `j` cuts edge `i`, the lower-numbered edge taken first. */
  function PairCuts(edges: seq<Edge>, i: nat, j: nat): seq<real>
    requires i < |edges| && j < |edges|
  {
    if i < j then CrossParams(edges[i], edges[j]).0 else CrossParams(edges[j], edges[i]).1
  }

  /** The all-pairs scan: some other edge cuts edge `i` at `t`. */
  ghost predicate CutBy(edges: seq<Edge>, i: nat, t: real)
    requires i < |edges|
  {
    exists j: nat :: j < |edges| && j != i && t in PairCuts(edges, i, j)
  }

  predicate BoxesMeet(edges: seq<Edge>, i: nat, j: nat)
    requires i < |edges| && j < |edges|
  {
    Overlap(BoxOf(edges[i]), BoxOf(edges[j]))
  }

  /** The cuts hold whatever the pair's parameters are. */
  predicate Scanned(edges: seq<Edge>, cuts: seq<seq<real>>, i: nat, j: nat)
    requires i < |edges| == |cuts| && j < |edges|
  {
    && (forall t <- PairCuts(edges, i, j) :: t in cuts[i])
    && (forall t <- PairCuts(edges, j, i) :: t in cuts[j])
  }

  ghost predicate Genuine(edges: seq<Edge>, cuts: seq<seq<real>>)
    requires |edges| == |cuts|
  {
    forall i: nat, t: real :: i < |cuts| && t in cuts[i] ==> 0.0 <= t <= 1.0 && CutBy(edges, i, t)
  }

  ghost predicate MoreCuts(was: seq<seq<real>>, now: seq<seq<real>>) {
    |was| == |now| && forall i :: 0 <= i < |was| ==> was[i] <= now[i]
  }

  lemma {:induction false} ScannedKept(edges: seq<Edge>, was: seq<seq<real>>, now: seq<seq<real>>, i: nat, j: nat)
    requires i < |edges| == |was| && j < |edges| && MoreCuts(was, now) && Scanned(edges, was, i, j)
    ensures Scanned(edges, now, i, j)
  {
    hide PairCuts;
    forall t | t in PairCuts(edges, i, j) ensures t in now[i] { StillCut(was[i], now[i], t); }
    forall t | t in PairCuts(edges, j, i) ensures t in now[j] { StillCut(was[j], now[j], t); }
  }

  lemma {:induction false} StillCut(was: seq<real>, now: seq<real>, t: real)
    requires was <= now && t in was
    ensures t in now
  {
    var k :| 0 <= k < |was| && was[k] == t;
    assert now[k] == t;
  }

  lemma {:induction false} ParamsInside(a: Edge, b: Edge)
    ensures forall t <- CrossParams(a, b).0 :: 0.0 <= t <= 1.0
    ensures forall t <- CrossParams(a, b).1 :: 0.0 <= t <= 1.0
  {
    hide Wedge, Param;
  }

  /** Adds one pair's parameters to both edges' cuts. */
  method CutPair(edges: seq<Edge>, cuts: seq<seq<real>>, i: nat, j: nat) returns (more: seq<seq<real>>)
    requires i < j < |edges| == |cuts| && Genuine(edges, cuts)
    ensures |more| == |cuts| && Genuine(edges, more) && MoreCuts(cuts, more) && Scanned(edges, more, i, j)
  {
    hide CrossParams;
    ParamsInside(edges[i], edges[j]);
    var (ti, tj) := CrossParams(edges[i], edges[j]);
    more := cuts[i := cuts[i] + ti];
    more := more[j := more[j] + tj];
    forall k: nat, t: real | k < |more| && t in more[k] ensures 0.0 <= t <= 1.0 && CutBy(edges, k, t) {
      if t !in cuts[k] {
        if k == i { assert t in PairCuts(edges, i, j); } else { assert t in PairCuts(edges, j, i); }
      }
    }
  }

  /** Every edge has two different ends. */
  predicate Lengthy(edges: seq<Edge>) {
    forall i :: 0 <= i < |edges| ==> !Point(edges[i])
  }

  /** Every edge's cuts, found through the grid. Whatever pair's boxes meet is scanned, and
      for edges of some length the cuts are exactly the all-pairs scan's. */
  method FindCuts(edges: seq<Edge>, axis: nat) returns (cuts: seq<seq<real>>)
    requires axis > 0
    ensures |cuts| == |edges| && Genuine(edges, cuts)
    ensures forall i: nat, j: nat :: i < j < |edges| && BoxesMeet(edges, i, j) ==> Scanned(edges, cuts, i, j)
    ensures Lengthy(edges) ==> forall i: nat, t: real :: i < |edges| ==> (t in cuts[i] <==> CutBy(edges, i, t))
  {
    hide Genuine, Scanned, MoreCuts, BoxOf, Overlap, Lengthy, CutBy;
    var boxes := seq(|edges|, i requires 0 <= i < |edges| => BoxOf(edges[i]));
    var grid := new Grid(boxes, axis);
    cuts := seq(|edges|, _ => []);
    NoCuts(edges);
    for i := 0 to |edges|
      invariant grid.Valid() && grid.boxes == boxes && |cuts| == |edges| && Genuine(edges, cuts)
      invariant forall p: nat, q: nat :: p < i && p < q < |edges| && BoxesMeet(edges, p, q) ==> Scanned(edges, cuts, p, q)
    {
      var found := grid.Query(boxes[i]);
      ghost var was := cuts;
      SameCuts(cuts);
      assert forall m :: 0 <= m < |found| ==> found[m] in found;
      for k := 0 to |found|
        invariant grid.Valid() && grid.boxes == boxes
        invariant |cuts| == |edges| && Genuine(edges, cuts) && MoreCuts(was, cuts)
        invariant forall m :: 0 <= m < |found| ==> found[m] < |edges|
        invariant forall m :: 0 <= m < k && found[m] > i ==> Scanned(edges, cuts, i, found[m])
      {
        var j := found[k];
        assert j in found;
        if j > i {
          ghost var before := cuts;
          cuts := CutPair(edges, cuts, i, j);
          CutsChain(was, before, cuts);
          forall m | 0 <= m < k && found[m] > i ensures Scanned(edges, cuts, i, found[m]) {
            assert found[m] in found;
            ScannedKept(edges, before, cuts, i, found[m]);
          }
        }
      }
      forall p: nat, q: nat | p < i + 1 && p < q < |edges| && BoxesMeet(edges, p, q) ensures Scanned(edges, cuts, p, q) {
        if p < i {
          ScannedKept(edges, was, cuts, p, q);
        } else {
          MeetBothWays(boxes[q], boxes[i]);
          assert q in found;
        }
      }
    }
    if Lengthy(edges) {
      forall i: nat, t: real | i < |edges| ensures t in cuts[i] <==> CutBy(edges, i, t) { AllPairs(edges, cuts, i, t); }
    }
  }

  lemma {:induction false} MeetBothWays(a: Box, b: Box)
    ensures Overlap(a, b) == Overlap(b, a)
  {
  }

  lemma {:induction false} NoCuts(edges: seq<Edge>)
    ensures Genuine(edges, seq(|edges|, _ => []))
  {
  }

  lemma {:induction false} SameCuts(cuts: seq<seq<real>>)
    ensures MoreCuts(cuts, cuts)
  {
  }

  lemma {:induction false} CutsChain(a: seq<seq<real>>, b: seq<seq<real>>, c: seq<seq<real>>)
    requires MoreCuts(a, b) && MoreCuts(b, c)
    ensures MoreCuts(a, c)
  {
  }

  /** Pairs the grid never tests would have added nothing. */
  lemma {:induction false} AllPairs(edges: seq<Edge>, cuts: seq<seq<real>>, i: nat, t: real)
    requires |cuts| == |edges| && Genuine(edges, cuts) && Lengthy(edges) && i < |edges|
    requires forall p: nat, q: nat :: p < q < |edges| && BoxesMeet(edges, p, q) ==> Scanned(edges, cuts, p, q)
    ensures t in cuts[i] <==> CutBy(edges, i, t)
  {
    hide CrossParams, BoxOf, Overlap, Param;
    if CutBy(edges, i, t) {
      var j: nat :| j < |edges| && j != i && t in PairCuts(edges, i, j);
      var p, q := if i < j then i else j, if i < j then j else i;
      if !BoxesMeet(edges, p, q) { ApartMeetsOnlyStray(edges[p], edges[q]); }
      assert Scanned(edges, cuts, p, q);
    }
  }

  // ---------------------------------------------------------------- the pieces

  predicate RealLe(a: real, b: real) { a <= b }

  datatype Span = Span(edge: nat, lo: real, hi: real)

  function Piece(edges: seq<Edge>, s: Span): Edge
    requires s.edge < |edges|
  {
    Edge(Lerp(edges[s.edge], s.lo), Lerp(edges[s.edge], s.hi), edges[s.edge].tri)
  }

  /** No edge at an angle to `i` has a point in common with its stretch strictly between. */
  ghost predicate Clear(edges: seq<Edge>, i: nat, lo: real, hi: real)
    requires i < |edges|
  {
    forall j: nat, t: real, u: real {:trigger Lerp(edges[i], t), Lerp(edges[j], u)} ::
      j < |edges| && j != i && !Parallel(edges[i], edges[j]) && lo < t < hi && 0.0 <= u <= 1.0 ==> Lerp(edges[i], t) != Lerp(edges[j], u)
  }

  /** Both edges have some length and lie on one line. */
  predicate Collinear(e: Edge, f: Edge) {
    !Point(e) && !Point(f) && Parallel(e, f) && Wedge(Diff(f.a, e.a), Dir(e)) == 0.0
  }

  /** No end of an edge on the same line lies strictly between, except within the parameter
      tolerance of edge `i`'s own ends. */
  ghost predicate EndsClear(edges: seq<Edge>, i: nat, lo: real, hi: real)
    requires i < |edges|
  {
    forall j: nat :: j < |edges| && j != i && Collinear(edges[i], edges[j]) ==>
      NotBetween(edges[i], edges[j].a, lo, hi) && NotBetween(edges[i], edges[j].b, lo, hi)
  }

  ghost predicate NotBetween(e: Edge, p: Pt, lo: real, hi: real) {
    forall t {:trigger Lerp(e, t)} :: lo < t < hi && 0.000000000001 < t < 0.999999999999 ==> Lerp(e, t) != p
  }

  /** The parameter found for a point of the edge is the one it lies at. */
  lemma {:induction false} ParamOfLerp(e: Edge, t: real)
    requires !Point(e)
    ensures Param(e, Lerp(e, t)) == t
  {
    hide Param, Length2;
    var p, d := Lerp(e, t), Dir(e);
    ParamIs(e, p);
    Stretched(t, d.x, d.y, Diff(p, e.a).x, Diff(p, e.a).y);
    LengthParts(d);
    hide Inner, Lerp;
    Cancel(Param(e, p), t, Length2(d));
  }

  lemma {:induction false} LengthParts(d: Pt)
    ensures Length2(d) == d.x * d.x + d.y * d.y
  {
  }

  lemma {:induction false} Stretched(t: real, x: real, y: real, u: real, v: real)
    requires u == t * x && v == t * y
    ensures u * x + v * y == t * (x * x + y * y)
  {
  }

  lemma {:induction false} EndApart(e: Edge, p: Pt, lo: real, hi: real)
    requires !Point(e) && (Strictly(Param(e, p)) ==> Param(e, p) <= lo || hi <= Param(e, p))
    ensures NotBetween(e, p, lo, hi)
  {
    hide Param, Lerp;
    forall t | lo < t < hi && 0.000000000001 < t < 0.999999999999 ensures Lerp(e, t) != p {
      ParamOfLerp(e, t);
    }
  }

  lemma {:induction false} CollinearTurned(e: Edge, f: Edge)
    requires Collinear(e, f)
    ensures Collinear(f, e)
  {
    CollinearEnds(e, f);
  }

  /** A collinear edge's end strictly inside an edge cuts it there. */
  lemma {:induction false} EndIsCut(edges: seq<Edge>, cuts: seq<seq<real>>, i: nat, j: nat, p: Pt)
    requires i < |edges| == |cuts| && j < |edges| && i != j && Collinear(edges[i], edges[j])
    requires forall p: nat, q: nat :: p < q < |edges| && BoxesMeet(edges, p, q) ==> Scanned(edges, cuts, p, q)
    requires (p == edges[j].a || p == edges[j].b) && Strictly(Param(edges[i], p))
    ensures Param(edges[i], p) in cuts[i]
  {
    var e, f := edges[i], edges[j];
    CollinearEnds(e, f);
    CollinearTurned(e, f);
    EndsInBox(f);
    ProjectInside(e, p, BoxOf(f));
    TurnedParallel(e, f);
    MeetBothWays(BoxOf(e), BoxOf(f));
    hide Wedge, BoxOf, InBox, Overlap, Param, Strictly, Inner;
    assert Param(e, p) in Project(e, f.a, f.b);
    var lower, upper := if i < j then i else j, if i < j then j else i;
    assert BoxesMeet(edges, lower, upper);
    assert Param(e, p) in PairCuts(edges, i, j);
    assert Scanned(edges, cuts, lower, upper);
  }

  lemma {:induction false} MeetingIsCut(edges: seq<Edge>, cuts: seq<seq<real>>, i: nat, j: nat, t: real, u: real)
    requires i < |edges| == |cuts| && j < |edges| && i != j && !Parallel(edges[i], edges[j])
    requires forall p: nat, q: nat :: p < q < |edges| && BoxesMeet(edges, p, q) ==> Scanned(edges, cuts, p, q)
    requires 0.0 <= t <= 1.0 && 0.0 <= u <= 1.0 && Lerp(edges[i], t) == Lerp(edges[j], u)
    ensures t in cuts[i]
  {
    var p, q := if i < j then i else j, if i < j then j else i;
    TurnedParallel(edges[i], edges[j]);
    MeetingIsParams(edges[p], edges[q], if i < j then t else u, if i < j then u else t);
    LerpInBox(edges[i], t);
    LerpInBox(edges[j], u);
    SharedPoint(Lerp(edges[i], t), BoxOf(edges[p]), BoxOf(edges[q]));
    hide Wedge, BoxOf, Lerp, InBox, Overlap;
    assert BoxesMeet(edges, p, q);
    assert CrossParams(edges[p], edges[q]) == ([if i < j then t else u], [if i < j then u else t]);
    assert t in PairCuts(edges, i, j);
  }

  lemma {:induction false} TurnedParallel(a: Edge, b: Edge)
    ensures Parallel(a, b) == Parallel(b, a)
  {
  }

  /** Between consecutive cuts, nothing at an angle meets an edge, and nothing on its line ends. */
  lemma {:induction false} NothingBetween(edges: seq<Edge>, cuts: seq<seq<real>>, i: nat, lo: real, hi: real)
    requires i < |edges| == |cuts| && 0.0 <= lo && hi <= 1.0
    requires forall p: nat, q: nat :: p < q < |edges| && BoxesMeet(edges, p, q) ==> Scanned(edges, cuts, p, q)
    requires forall c <- cuts[i] :: c <= lo || hi <= c
    ensures Clear(edges, i, lo, hi) && EndsClear(edges, i, lo, hi)
  {
    hide Lerp, Parallel, Scanned, BoxesMeet, Param, Strictly, Wedge, NotBetween;
    forall j: nat | j < |edges| && j != i && Collinear(edges[i], edges[j])
      ensures NotBetween(edges[i], edges[j].a, lo, hi) && NotBetween(edges[i], edges[j].b, lo, hi)
    {
      if Strictly(Param(edges[i], edges[j].a)) { EndIsCut(edges, cuts, i, j, edges[j].a); }
      if Strictly(Param(edges[i], edges[j].b)) { EndIsCut(edges, cuts, i, j, edges[j].b); }
      EndApart(edges[i], edges[j].a, lo, hi);
      EndApart(edges[i], edges[j].b, lo, hi);
    }
    forall j: nat, t: real, u: real {:trigger Lerp(edges[i], t), Lerp(edges[j], u)} |
      j < |edges| && j != i && !Parallel(edges[i], edges[j]) && lo < t < hi && 0.0 <= u <= 1.0
      ensures Lerp(edges[i], t) != Lerp(edges[j], u)
    {
      if Lerp(edges[i], t) == Lerp(edges[j], u) { MeetingIsCut(edges, cuts, i, j, t, u); }
    }
  }

  /** Edge `f` cuts `e` at `t`: at an angle where they meet, along one line where `f` ends inside
      `e`, further than the tolerance from its ends. */
  ghost predicate Cuts(e: Edge, f: Edge, t: real) {
    if !Parallel(e, f) then 0.0 <= t <= 1.0 && exists u :: 0.0 <= u <= 1.0 && Lerp(e, t) == Lerp(f, u)
    else Collinear(e, f) && 0.000000000001 < t < 0.999999999999 && (Lerp(e, t) == f.a || Lerp(e, t) == f.b)
  }

  lemma {:induction false} ProjectExact(e: Edge, p: Pt, q: Pt, t: real)
    requires !Point(e) && Wedge(Diff(p, e.a), Dir(e)) == 0.0 && Wedge(Diff(q, e.a), Dir(e)) == 0.0
    ensures t in Project(e, p, q) <==> 0.000000000001 < t < 0.999999999999 && (Lerp(e, t) == p || Lerp(e, t) == q)
  {
    OnLine(e, p);
    OnLine(e, q);
    ParamOfLerp(e, t);
    hide Param, Lerp, Wedge;
  }

  lemma {:induction false} AngledCuts(e: Edge, f: Edge, t: real)
    requires !Parallel(e, f)
    ensures t in CrossParams(e, f).0 <==> Cuts(e, f, t)
    ensures t in CrossParams(e, f).1 <==> Cuts(f, e, t)
  {
    ParamsMeet(e, f);
    TurnedParallel(e, f);
    var d1, d2, off := Dir(e), Dir(f), Diff(f.a, e.a);
    var t0, u0 := Wedge(off, d2) / Wedge(d1, d2), Wedge(off, d1) / Wedge(d1, d2);
    forall u | Lerp(e, t) == Lerp(f, u) ensures t == t0 && u == u0 { MeetingIsParams(e, f, t, u); }
    forall u | Lerp(e, u) == Lerp(f, t) ensures u == t0 && t == u0 { MeetingIsParams(e, f, u, t); }
    hide Wedge, Lerp;
  }

  lemma {:induction false} AlignedCuts(e: Edge, f: Edge, t: real)
    requires Parallel(e, f) && !Point(e) && !Point(f)
    ensures t in CrossParams(e, f).0 <==> Cuts(e, f, t)
    ensures t in CrossParams(e, f).1 <==> Cuts(f, e, t)
  {
    TurnedParallel(e, f);
    if Collinear(e, f) {
      CollinearTurned(e, f);
      CollinearEnds(e, f);
      ProjectExact(e, f.a, f.b, t);
      ProjectExact(f, e.a, e.b, t);
    } else if Collinear(f, e) {
      CollinearTurned(f, e);
    }
    hide Wedge, Lerp, Project;
  }

  /** An edge is cut exactly where another edge meets it at an angle, or ends inside it on its
      line. */
  lemma {:induction false} CutByExact(edges: seq<Edge>, i: nat, t: real)
    requires Lengthy(edges) && i < |edges|
    ensures CutBy(edges, i, t) <==> exists j: nat :: j < |edges| && j != i && Cuts(edges[i], edges[j], t)
  {
    forall j: nat | j < |edges| && j != i ensures t in PairCuts(edges, i, j) <==> Cuts(edges[i], edges[j], t) {
      var p, q := if i < j then edges[i] else edges[j], if i < j then edges[j] else edges[i];
      if Parallel(p, q) { AlignedCuts(p, q, t); } else { AngledCuts(p, q, t); }
      hide Cuts, CrossParams, Parallel;
    }
    hide Cuts, PairCuts;
  }

  /** Where an edge may be cut: its ends, and wherever another edge cuts it. */
  ghost predicate Mark(edges: seq<Edge>, i: nat, t: real)
    requires i < |edges|
  {
    t == 0.0 || t == 1.0 || CutBy(edges, i, t)
  }

  ghost predicate SpanOk(edges: seq<Edge>, s: Span) {
    && s.edge < |edges| && 0.0 <= s.lo < s.hi <= 1.0 && s.hi - s.lo > PARAM_EPS
    && Mark(edges, s.edge, s.lo) && Mark(edges, s.edge, s.hi)
    && Clear(edges, s.edge, s.lo, s.hi) && EndsClear(edges, s.edge, s.lo, s.hi)
  }

  /** Parameter `t` of edge `i` is on a piece, or between two cuts too close to make one. */
  ghost predicate Kept(edges: seq<Edge>, spans: seq<Span>, i: nat, t: real)
    requires i < |edges|
  {
    || (exists k :: 0 <= k < |spans| && spans[k].edge == i && spans[k].lo <= t <= spans[k].hi)
    || (exists lo, hi :: lo <= t <= hi <= lo + PARAM_EPS && Mark(edges, i, lo) && Mark(edges, i, hi))
  }

  /** The sorted split parameters of an edge. */
  ghost predicate Stops(edges: seq<Edge>, cuts: seq<real>, i: nat, ps: seq<real>)
    requires i < |edges|
  {
    && |ps| >= 2 && ps[0] == 0.0 && ps[|ps| - 1] == 1.0 && Sorted(ps, RealLe)
    && (forall c <- cuts :: c in ps)
    && (forall k :: 0 <= k < |ps| ==> Mark(edges, i, ps[k]) && 0.0 <= ps[k] <= 1.0)
  }

  lemma {:induction false} StopsSorted(edges: seq<Edge>, cuts: seq<seq<real>>, i: nat, ps: seq<real>)
    requires i < |edges| == |cuts| && Genuine(edges, cuts)
    requires Sorted(ps, RealLe) && multiset(ps) == multiset([0.0, 1.0] + cuts[i])
    ensures Stops(edges, cuts[i], i, ps)
  {
    var s := [0.0, 1.0] + cuts[i];
    forall c | c in s ensures c in ps { SameMembers(ps, s, c); }
    assert s[0] in ps && s[1] in ps;
    forall k | 0 <= k < |ps| ensures Mark(edges, i, ps[k]) && 0.0 <= ps[k] <= 1.0 {
      SameMembers(ps, s, ps[k]);
      assert ps[k] == 0.0 || ps[k] == 1.0 || ps[k] in cuts[i];
    }
    forall c | c in cuts[i] ensures c in ps {
      var m :| 0 <= m < |cuts[i]| && cuts[i][m] == c;
      assert s[m + 2] == c;
    }
    var a :| 0 <= a < |ps| && ps[a] == 0.0;
    var b :| 0 <= b < |ps| && ps[b] == 1.0;
  }

  /** A stretch between consecutive stops is a sound span. */
  lemma {:induction false} StretchOk(edges: seq<Edge>, cuts: seq<seq<real>>, i: nat, ps: seq<real>, k: nat)
    requires i < |edges| == |cuts| && Stops(edges, cuts[i], i, ps) && k + 1 < |ps|
    requires forall p: nat, q: nat :: p < q < |edges| && BoxesMeet(edges, p, q) ==> Scanned(edges, cuts, p, q)
    requires ps[k + 1] - ps[k] > PARAM_EPS
    ensures SpanOk(edges, Span(i, ps[k], ps[k + 1]))
  {
    hide Scanned, BoxesMeet, Mark;
    forall c | c in cuts[i] ensures c <= ps[k] || ps[k + 1] <= c {
      var m :| 0 <= m < |ps| && ps[m] == c;
    }
    NothingBetween(edges, cuts, i, ps[k], ps[k + 1]);
    hide Clear, EndsClear;
  }

  /** Up to stop `k`, everything on the edge is kept. */
  ghost predicate KeptTo(edges: seq<Edge>, spans: seq<Span>, i: nat, end: real)
    requires i < |edges|
  {
    forall t: real {:trigger Kept(edges, spans, i, t)} :: 0.0 <= t <= end ==> Kept(edges, spans, i, t)
  }

  lemma {:induction false} KeptMore(edges: seq<Edge>, spans: seq<Span>, more: seq<Span>, i: nat, end: real)
    requires i < |edges| && KeptTo(edges, spans, i, end) && spans <= more
    ensures KeptTo(edges, more, i, end)
  {
    forall t: real | 0.0 <= t <= end ensures Kept(edges, more, i, t) {
      assert Kept(edges, spans, i, t);
      if k :| 0 <= k < |spans| && spans[k].edge == i && spans[k].lo <= t <= spans[k].hi {
        assert more[k] == spans[k];
      }
    }
  }

  lemma {:induction false} KeptStep(edges: seq<Edge>, spans: seq<Span>, more: seq<Span>, i: nat, lo: real, hi: real)
    requires i < |edges| && KeptTo(edges, spans, i, lo) && lo <= hi && Mark(edges, i, lo) && Mark(edges, i, hi)
    requires more == if hi - lo <= PARAM_EPS then spans else spans + [Span(i, lo, hi)]
    ensures KeptTo(edges, more, i, hi)
  {
    KeptMore(edges, spans, more, i, lo);
    hide Mark;
    forall t: real | 0.0 <= t <= hi ensures Kept(edges, more, i, t) {
      if t > lo && hi - lo > PARAM_EPS { assert more[|spans|] == Span(i, lo, hi); }
    }
  }

  /** In edge order, and along each edge in order without overlap. */
  predicate InTurn(spans: seq<Span>) {
    forall k, m :: 0 <= k < m < |spans| ==> After(spans[k], spans[m])
  }

  predicate After(s: Span, t: Span) { s.edge < t.edge || (s.edge == t.edge && s.hi <= t.lo) }

  /** Every span so far ends before parameter `at` of edge `i`. */
  predicate EndedBy(spans: seq<Span>, i: nat, at: real) {
    forall k :: 0 <= k < |spans| ==> spans[k].edge < i || (spans[k].edge == i && spans[k].hi <= at)
  }

  lemma {:induction false} NextSpan(spans: seq<Span>, i: nat, lo: real, hi: real)
    requires InTurn(spans) && EndedBy(spans, i, lo) && lo <= hi
    ensures InTurn(spans + [Span(i, lo, hi)]) && EndedBy(spans + [Span(i, lo, hi)], i, hi) && EndedBy(spans, i, hi)
  {
  }

  /** What cutting gives: sound pieces in turn, and nothing of an edge lost but stretches
      between two cuts too close together to make a piece. */
  ghost predicate CutInto(edges: seq<Edge>, out: seq<Edge>, spans: seq<Span>) {
    && |out| == |spans| && InTurn(spans)
    && (forall k :: 0 <= k < |out| ==> SpanOk(edges, spans[k]) && out[k] == Piece(edges, spans[k]))
    && (forall i: nat :: i < |edges| ==> KeptTo(edges, spans, i, 1.0))
  }

  /** Cuts every edge wherever another meets it. No edge at an angle crosses an emitted piece
      between its ends, no edge on its line ends there, pieces end only at ends or cuts, they
      come in turn without overlap, and whatever is not on a piece lies between two cuts too
      close together to make one. */
  method SplitAtIntersections(edges: seq<Edge>, axis: nat) returns (out: seq<Edge>)
    requires axis > 0
    ensures exists spans :: CutInto(edges, out, spans)
  {
    hide Genuine, Scanned, BoxesMeet, Clear, Mark, KeptTo, Lengthy, CutBy, Lerp, SpanOk, InTurn, EndedBy;
    var cuts := FindCuts(edges, axis);
    out := [];
    ghost var spans: seq<Span> := [];
    NoSpans();
    for i := 0 to |edges|
      invariant |out| == |spans| && InTurn(spans) && EndedBy(spans, i, 0.0)
      invariant forall k :: 0 <= k < |out| ==> SpanOk(edges, spans[k]) && spans[k].edge < |edges| && out[k] == Piece(edges, spans[k])
      invariant forall j: nat :: j < i ==> KeptTo(edges, spans, j, 1.0)
    {
      var ps := Sort([0.0, 1.0] + cuts[i], RealLe);
      StopsSorted(edges, cuts, i, ps);
      ghost var before := spans;
      StartKept(edges, spans, i);
      for k := 0 to |ps| - 1
        invariant |out| == |spans| && before <= spans && InTurn(spans) && EndedBy(spans, i, ps[k])
        invariant forall m :: 0 <= m < |out| ==> SpanOk(edges, spans[m]) && spans[m].edge < |edges| && out[m] == Piece(edges, spans[m])
        invariant KeptTo(edges, spans, i, ps[k])
      {
        ghost var was := spans;
        NextSpan(spans, i, ps[k], ps[k + 1]);
        if ps[k + 1] - ps[k] > PARAM_EPS {
          StretchOk(edges, cuts, i, ps, k);
          out := out + [Edge(Lerp(edges[i], ps[k]), Lerp(edges[i], ps[k + 1]), edges[i].tri)];
          spans := spans + [Span(i, ps[k], ps[k + 1])];
        }
        KeptStep(edges, was, spans, i, ps[k], ps[k + 1]);
      }
      NextEdge(spans, i);
      forall j: nat | j < i ensures KeptTo(edges, spans, j, 1.0) { KeptMore(edges, before, spans, j, 1.0); }
    }
    assert CutInto(edges, out, spans);
  }

  lemma {:induction false} NoSpans()
    ensures InTurn([]) && EndedBy([], 0, 0.0)
  {
  }

  lemma {:induction false} NextEdge(spans: seq<Span>, i: nat)
    requires EndedBy(spans, i, 1.0)
    ensures EndedBy(spans, i + 1, 0.0)
  {
  }

  lemma {:induction false} StartKept(edges: seq<Edge>, spans: seq<Span>, i: nat)
    requires i < |edges|
    ensures KeptTo(edges, spans, i, 0.0)
  {
    assert Mark(edges, i, 0.0);
  }
}
