// Decomposing a ring set by a vertical sweep: what the trapezoids cover is the ring set's
// even-odd fill.
module PlanarSweep {
  import opened Common
  import opened GeoTriangulate
  import opened Sorting
  import Split = PlanarSplit

  type Ring = seq<Pt>
  type Triangle = (Pt, Pt, Pt)

  /** A ring edge that is not vertical, from left to right. */
  datatype SweepEdge = SweepEdge(x0: real, y0: real, x1: real, y1: real)

  predicate Wide(e: SweepEdge) { e.x0 < e.x1 }

  /** An edge's height at `x`. */
  function YAt(e: SweepEdge, x: real): real
    requires Wide(e)
  {
    e.y0 + (e.y1 - e.y0) * (x - e.x0) / (e.x1 - e.x0)
  }

  /** A height `s` of the way from `l` to `h`. */
  function Mix(l: real, h: real, s: real): real { l + (h - l) * s }

  // ---------------------------------------------------------------- the edges

  /** The edge from `a` to `b`, unless vertical. */
  function EdgeOf(a: Pt, b: Pt): (es: seq<SweepEdge>)
    ensures forall e <- es :: Wide(e)
  {
    if a.x == b.x then [] else if a.x > b.x then [SweepEdge(b.x, b.y, a.x, a.y)] else [SweepEdge(a.x, a.y, b.x, b.y)]
  }

  function Next(r: Ring, i: nat): Pt
    requires i < |r|
  {
    r[(i + 1) % |r|]
  }

  /** The edges leaving a ring's first `k` points. */
  function RingEdges(r: Ring, k: nat): (es: seq<SweepEdge>)
    requires k <= |r|
    ensures forall e <- es :: Wide(e)
  {
    if k == 0 then [] else RingEdges(r, k - 1) + EdgeOf(r[k - 1], Next(r, k - 1))
  }

  function EdgesOf(rings: seq<Ring>): (es: seq<SweepEdge>)
    ensures forall e <- es :: Wide(e)
  {
    if rings == [] then [] else EdgesOf(rings[..|rings| - 1]) + RingEdges(rings[|rings| - 1], |rings[|rings| - 1]|)
  }

  /** `x` is some ring point's. */
  predicate VertexX(rings: seq<Ring>, x: real) {
    exists k, i :: 0 <= k < |rings| && 0 <= i < |rings[k]| && rings[k][i].x == x
  }

  // ---------------------------------------------------------------- even-odd fill

  predicate Under(e: SweepEdge, p: Pt)
    requires Wide(e)
  {
    e.x0 < p.x < e.x1 && YAt(e, p.x) < p.y
  }

  /** The edges a ray straight down from `p` crosses. */
  function CrossingsBelow(es: seq<SweepEdge>, p: Pt): nat
    requires forall e <- es :: Wide(e)
  {
    if es == [] then 0
    else
      var last := es[|es| - 1];
      assert last in es && forall e <- es[..|es| - 1] :: e in es;
      CrossingsBelow(es[..|es| - 1], p) + if Under(last, p) then 1 else 0
  }

  /** Inside by the even-odd rule. */
  predicate Filled(rings: seq<Ring>, p: Pt) { CrossingsBelow(EdgesOf(rings), p) % 2 == 1 }

  /** Off every edge, and over no vertex. */
  ghost predicate Clear(rings: seq<Ring>, p: Pt) {
    && !VertexX(rings, p.x)
    && forall e <- EdgesOf(rings) :: e.x0 < p.x < e.x1 ==> YAt(e, p.x) != p.y
  }

  /** Both edges span the stretch, and one starts below the other and ends above it. */
  ghost predicate Swaps(e: SweepEdge, f: SweepEdge, x: real, x': real)
    requires Wide(e) && Wide(f)
  {
    Spans(e, x, x') && Spans(f, x, x') && YAt(e, x) < YAt(f, x) && YAt(e, x') > YAt(f, x')
  }

  /** No two edges cross inside a slab. */
  ghost predicate Uncrossed(rings: seq<Ring>) {
    forall e <- EdgesOf(rings), f <- EdgesOf(rings), x: real, x': real :: SlabOf(rings, x, x') ==> !Swaps(e, f, x, x')
  }

  // ---------------------------------------------------------------- slabs

  predicate Spans(e: SweepEdge, x0: real, x1: real) { e.x0 <= x0 && e.x1 >= x1 }

  /** The edges spanning a slab. */
  function Spanning(es: seq<SweepEdge>, x0: real, x1: real): (r: seq<SweepEdge>)
    ensures forall e <- r :: e in es && Spans(e, x0, x1)
    ensures forall e <- es :: Spans(e, x0, x1) ==> e in r
  {
    if es == [] then []
    else
      var front := Spanning(es[..|es| - 1], x0, x1);
      if Spans(es[|es| - 1], x0, x1) then front + [es[|es| - 1]] else front
  }

  lemma {:induction false} SpanningAppend(a: seq<SweepEdge>, b: seq<SweepEdge>, x0: real, x1: real)
    ensures Spanning(a + b, x0, x1) == Spanning(a, x0, x1) + Spanning(b, x0, x1)
  {
    if b == [] {
      assert a + b == a;
    } else {
      assert (a + b)[..|a + b| - 1] == a + b[..|b| - 1];
      SpanningAppend(a, b[..|b| - 1], x0, x1);
    }
  }

  /** No ring point lies strictly inside the slab. */
  ghost predicate Empty(r: Ring, x0: real, x1: real) {
    forall i :: 0 <= i < |r| ==> r[i].x <= x0 || r[i].x >= x1
  }

  lemma {:induction false} EdgeSpans(a: Pt, b: Pt, x0: real, x1: real)
    requires x0 < x1 && (a.x <= x0 || a.x >= x1) && (b.x <= x0 || b.x >= x1)
    ensures |Spanning(EdgeOf(a, b), x0, x1)| == if (a.x <= x0) == (b.x <= x0) then 0 else 1
  {
    var es := EdgeOf(a, b);
    if es != [] { assert es[..0] == []; }
  }

  lemma {:induction false} SpanCount(a: seq<SweepEdge>, b: seq<SweepEdge>, x0: real, x1: real)
    ensures |Spanning(a + b, x0, x1)| == |Spanning(a, x0, x1)| + |Spanning(b, x0, x1)|
  {
    SpanningAppend(a, b, x0, x1);
  }

  lemma {:induction false} NoSpans(x0: real, x1: real)
    ensures |Spanning([], x0, x1)| == 0
  {
  }

  lemma {:induction false} RingStep(r: Ring, k: nat)
    requires 0 < k <= |r|
    ensures RingEdges(r, k) == RingEdges(r, k - 1) + EdgeOf(r[k - 1], r[k % |r|])
  {
  }

  lemma {:induction false} RingStart(r: Ring)
    ensures RingEdges(r, 0) == []
  {
  }

  lemma {:induction false} Wraps(k: nat, n: nat)
    requires 0 < k <= n
    ensures (k - 1) % n == k - 1 && k % n < n
  {
  }

  /** Walking a ring switches sides of a slab once per spanning edge. */
  lemma {:induction false} RingParity(r: Ring, k: nat, x0: real, x1: real)
    requires 0 < |r| && k <= |r| && x0 < x1 && Empty(r, x0, x1)
    ensures |Spanning(RingEdges(r, k), x0, x1)| % 2 == if (r[0].x <= x0) == (r[k % |r|].x <= x0) then 0 else 1
  {
    hide Spanning, RingEdges, EdgeOf;
    if k == 0 {
      RingStart(r);
      NoSpans(x0, x1);
    } else {
      var a, b := r[k - 1], r[k % |r|];
      RingParity(r, k - 1, x0, x1);
      Wraps(k, |r|);
      RingStep(r, k);
      EdgeSpans(a, b, x0, x1);
      SpanCount(RingEdges(r, k - 1), EdgeOf(a, b), x0, x1);
    }
  }

  lemma {:induction false} EdgesLast(rings: seq<Ring>)
    ensures rings == [] ==> EdgesOf(rings) == []
    ensures rings != [] ==> EdgesOf(rings) == EdgesOf(rings[..|rings| - 1]) + RingEdges(rings[|rings| - 1], |rings[|rings| - 1]|)
  {
  }

  /** Every slab is spanned by an even number of edges. */
  lemma {:induction false} SlabEven(rings: seq<Ring>, x0: real, x1: real)
    requires x0 < x1 && forall k :: 0 <= k < |rings| ==> Empty(rings[k], x0, x1)
    ensures |Spanning(EdgesOf(rings), x0, x1)| % 2 == 0
  {
    hide Spanning, RingEdges, EdgesOf;
    EdgesLast(rings);
    NoSpans(x0, x1);
    if rings != [] {
      var front, r := rings[..|rings| - 1], rings[|rings| - 1];
      SlabEven(front, x0, x1);
      SpanCount(EdgesOf(front), RingEdges(r, |r|), x0, x1);
      if r == [] { RingStart(r); } else { RingParity(r, |r|, x0, x1); }
    }
  }

  // ---------------------------------------------------------------- crossings in order

  /** One crossing of a slab: the edge's heights at the middle and at both sides. */
  datatype Crossing = Crossing(mid: real, lo: real, hi: real)

  predicate Before(a: Crossing, b: Crossing) {
    if a.mid != b.mid then a.mid < b.mid else if a.lo != b.lo then a.lo < b.lo else a.hi < b.hi
  }

  predicate CrossLe(a: Crossing, b: Crossing) { !Before(b, a) }

  predicate InOrder(cs: seq<Crossing>) { Sorted(cs, CrossLe) }

  /** How many crossings lie below a height, `s` of the way across. */
  function Lower(cs: seq<Crossing>, s: real, y: real): nat {
    if cs == [] then 0 else Lower(cs[..|cs| - 1], s, y) + if Mix(cs[|cs| - 1].lo, cs[|cs| - 1].hi, s) < y then 1 else 0
  }

  lemma {:induction false} LowerAppend(a: seq<Crossing>, b: seq<Crossing>, s: real, y: real)
    ensures Lower(a + b, s, y) == Lower(a, s, y) + Lower(b, s, y)
  {
    if b == [] {
      assert a + b == a;
    } else {
      assert (a + b)[..|a + b| - 1] == a + b[..|b| - 1];
      LowerAppend(a, b[..|b| - 1], s, y);
      hide Mix;
    }
  }

  /** The same crossings in another order. */
  ghost predicate Reordered(a: seq<Crossing>, b: seq<Crossing>) {
    && |a| == |b| && (forall c :: c in a <==> c in b)
    && (forall s, y {:trigger Lower(a, s, y)} :: Lower(a, s, y) == Lower(b, s, y))
  }

  lemma {:induction false} LowerWithout(cs: seq<Crossing>, j: nat, s: real, y: real)
    requires j < |cs|
    ensures Lower(cs, s, y) == Lower(cs[..j] + cs[j + 1..], s, y) + Lower([cs[j]], s, y)
  {
    var l, m, r := cs[..j], [cs[j]], cs[j + 1..];
    assert cs == l + (m + r);
    LowerAppend(l, m + r, s, y);
    LowerAppend(m, r, s, y);
    LowerAppend(l, r, s, y);
  }

  lemma {:induction false} WithoutAt(b: seq<Crossing>, j: nat)
    requires j < |b|
    ensures multiset(b[..j] + b[j + 1..]) == multiset(b) - multiset{b[j]}
  {
    assert b == b[..j] + [b[j]] + b[j + 1..];
  }

  lemma {:induction false} LowerSame(a: seq<Crossing>, b: seq<Crossing>, s: real, y: real)
    requires multiset(a) == multiset(b)
    ensures Lower(a, s, y) == Lower(b, s, y)
    decreases |a|
  {
    hide Lower;
    SameLength(a, b);
    if a != [] {
      var n := |a| - 1;
      SameMembers(a, b, a[n]);
      var j :| 0 <= j < |b| && b[j] == a[n];
      WithoutLast(a);
      WithoutAt(b, j);
      LowerSame(a[..n], b[..j] + b[j + 1..], s, y);
      LowerWithout(a, n, s, y);
      LowerWithout(b, j, s, y);
      assert a[..n] + a[n + 1..] == a[..n];
    }
  }

  lemma {:induction false} CrossOrder()
    ensures TotalOrder(CrossLe)
  {
  }

  method SortCrossings(cs: seq<Crossing>) returns (r: seq<Crossing>)
    ensures InOrder(r) && Reordered(r, cs)
  {
    CrossOrder();
    r := Sort(cs, CrossLe);
    SameLength(r, cs);
    forall c ensures c in r <==> c in cs { SameMembers(r, cs, c); }
    forall s, y ensures Lower(r, s, y) == Lower(cs, s, y) { LowerSame(r, cs, s, y); }
  }

  /** Edges that do not cross come out in order at both sides of the slab. */
  predicate Stacked(cs: seq<Crossing>) {
    forall i, j :: 0 <= i < j < |cs| ==> cs[i].lo <= cs[j].lo && cs[i].hi <= cs[j].hi
  }

  predicate Twisted(a: Crossing, b: Crossing) { a.lo < b.lo && a.hi > b.hi }

  lemma {:induction false} OrderStacks(cs: seq<Crossing>)
    requires InOrder(cs) && (forall c <- cs :: c.mid == Mix(c.lo, c.hi, 0.5))
    requires forall a <- cs, b <- cs :: !Twisted(a, b)
    ensures Stacked(cs)
  {
    forall i, j | 0 <= i < j < |cs| ensures cs[i].lo <= cs[j].lo && cs[i].hi <= cs[j].hi {
      var a, b := cs[i], cs[j];
      assert a in cs && b in cs && !Before(b, a) && !Twisted(a, b) && !Twisted(b, a);
      assert a.mid == Mix(a.lo, a.hi, 0.5) && b.mid == Mix(b.lo, b.hi, 0.5);
    }
  }

  // ---------------------------------------------------------------- trapezoids

  /** Some of three values is at most `v`, and some at least. */
  predicate Within(a: real, b: real, c: real, v: real) {
    (a <= v || b <= v || c <= v) && (a >= v || b >= v || c >= v)
  }

  /** The closed counter-clockwise triangle contains the point. */
  predicate Covers(t: Triangle, p: Pt) {
    && Cross(t.0, t.1, p) >= 0.0 && Cross(t.1, t.2, p) >= 0.0 && Cross(t.2, t.0, p) >= 0.0
    && Within(t.0.x, t.1.x, t.2.x, p.x) && Within(t.0.y, t.1.y, t.2.y, p.y)
  }

  predicate Covered(ts: seq<Triangle>, p: Pt) { exists k :: 0 <= k < |ts| && Covers(ts[k], p) }

  lemma {:induction false} CrossLine(x0: real, x1: real, l: real, h: real, s: real, p: Pt)
    requires p.x == x0 + s * (x1 - x0)
    ensures Cross(Pt(x0, l), Pt(x1, h), p) == (x1 - x0) * (p.y - Mix(l, h, s))
  {
    var w := x1 - x0;
    assert p.x - x0 == s * w;
    assert (h - l) * (s * w) == w * ((h - l) * s);
  }

  lemma {:induction false} SignOf(w: real, d: real)
    requires w > 0.0
    ensures w * d >= 0.0 <==> d >= 0.0
    ensures w * d <= 0.0 <==> d <= 0.0
  {
    if d > 0.0 {
      Split.PositiveProduct(w, d, w * d);
    } else if d < 0.0 {
      Split.PositiveProduct(w, -d, w * -d);
      assert w * -d == -(w * d);
    }
  }

  lemma {:induction false} Product(a: real, b: real)
    requires a >= 0.0 && b >= 0.0
    ensures a * b >= 0.0
  {
  }

  lemma {:induction false} MixMonotone(l: real, h: real, l': real, h': real, s: real)
    requires 0.0 <= s <= 1.0 && l <= l' && h <= h'
    ensures Mix(l, h, s) <= Mix(l', h', s)
  {
    Product(s, h' - h);
    Product(1.0 - s, l' - l);
    assert Mix(l', h', s) - Mix(l, h, s) == s * (h' - h) + (1.0 - s) * (l' - l);
  }

  lemma {:induction false} MixBetween(l: real, h: real, s: real)
    requires 0.0 <= s <= 1.0
    ensures l <= h ==> l <= Mix(l, h, s) <= h
    ensures h <= l ==> h <= Mix(l, h, s) <= l
  {
    if l <= h {
      MixMonotone(l, l, l, h, s);
      MixMonotone(l, h, h, h, s);
      MixSame(l, s);
      MixSame(h, s);
    } else {
      MixMonotone(h, h, l, h, s);
      MixMonotone(l, h, l, l, s);
      MixSame(l, s);
      MixSame(h, s);
    }
  }

  lemma {:induction false} MixSame(l: real, s: real)
    ensures Mix(l, l, s) == l
  {
  }

  lemma {:induction false} CrossTurned(a: Pt, c: Pt, p: Pt)
    ensures Cross(c, a, p) == -Cross(a, c, p)
  {
  }

  /** A vertical side, walked up on the right or down on the left, keeps the slab inside. */
  lemma {:induction false} CrossSide(x: real, lo: real, hi: real, p: Pt)
    requires lo <= hi
    ensures p.x <= x ==> Cross(Pt(x, lo), Pt(x, hi), p) >= 0.0
    ensures p.x >= x ==> Cross(Pt(x, hi), Pt(x, lo), p) >= 0.0
  {
    if p.x <= x {
      Product(hi - lo, x - p.x);
      assert Cross(Pt(x, lo), Pt(x, hi), p) == (hi - lo) * (x - p.x);
    }
    if p.x >= x {
      Product(hi - lo, p.x - x);
      assert Cross(Pt(x, hi), Pt(x, lo), p) == (hi - lo) * (p.x - x);
    }
  }

  function LowerHalf(x0: real, x1: real, l: Crossing, h: Crossing): Triangle {
    (Pt(x0, l.lo), Pt(x1, l.hi), Pt(x1, h.hi))
  }

  function UpperHalf(x0: real, x1: real, l: Crossing, h: Crossing): Triangle {
    (Pt(x0, l.lo), Pt(x1, h.hi), Pt(x0, h.lo))
  }

  /** Left of a line across the slab is above it. */
  lemma {:induction false} AboveLine(x0: real, x1: real, l: real, h: real, s: real, p: Pt)
    requires x0 < x1 && p.x == x0 + s * (x1 - x0)
    ensures Cross(Pt(x0, l), Pt(x1, h), p) >= 0.0 <==> p.y >= Mix(l, h, s)
    ensures Cross(Pt(x1, h), Pt(x0, l), p) >= 0.0 <==> p.y <= Mix(l, h, s)
  {
    hide Cross, Mix;
    CrossLine(x0, x1, l, h, s, p);
    SignOf(x1 - x0, p.y - Mix(l, h, s));
    CrossTurned(Pt(x0, l), Pt(x1, h), p);
  }

  lemma {:induction false} LowerHalfCovers(x0: real, x1: real, l: Crossing, h: Crossing, s: real, p: Pt)
    requires x0 < x1 && 0.0 < s < 1.0 && p.x == x0 + s * (x1 - x0) && x0 <= p.x <= x1 && l.hi <= h.hi
    ensures Covers(LowerHalf(x0, x1, l, h), p) <==> Mix(l.lo, l.hi, s) <= p.y <= Mix(l.lo, h.hi, s)
  {
    hide Cross, Mix;
    AboveLine(x0, x1, l.lo, l.hi, s, p);
    AboveLine(x0, x1, l.lo, h.hi, s, p);
    CrossSide(x1, l.hi, h.hi, p);
    MixBetween(l.lo, l.hi, s);
    MixBetween(l.lo, h.hi, s);
  }

  lemma {:induction false} UpperHalfCovers(x0: real, x1: real, l: Crossing, h: Crossing, s: real, p: Pt)
    requires x0 < x1 && 0.0 < s < 1.0 && p.x == x0 + s * (x1 - x0) && x0 <= p.x <= x1 && l.lo <= h.lo
    ensures Covers(UpperHalf(x0, x1, l, h), p) <==> Mix(l.lo, h.hi, s) <= p.y <= Mix(h.lo, h.hi, s)
  {
    hide Cross, Mix;
    AboveLine(x0, x1, l.lo, h.hi, s, p);
    AboveLine(x0, x1, h.lo, h.hi, s, p);
    CrossSide(x0, l.lo, h.lo, p);
    MixBetween(l.lo, h.hi, s);
    MixBetween(h.lo, h.hi, s);
  }

  /** Both halves of a trapezoid together cover exactly what lies between its edges. */
  lemma {:induction false} TrapezoidCovers(x0: real, x1: real, l: Crossing, h: Crossing, s: real, p: Pt)
    requires x0 < x1 && 0.0 < s < 1.0 && p.x == x0 + s * (x1 - x0)
    requires l.lo <= h.lo && l.hi <= h.hi
    ensures Covers(LowerHalf(x0, x1, l, h), p) || Covers(UpperHalf(x0, x1, l, h), p)
       <==> Mix(l.lo, l.hi, s) <= p.y <= Mix(h.lo, h.hi, s)
  {
    hide Covers, Mix;
    InsideSlab(x0, x1, s);
    LowerHalfCovers(x0, x1, l, h, s, p);
    UpperHalfCovers(x0, x1, l, h, s, p);
    MixMonotone(l.lo, l.hi, l.lo, h.hi, s);
    MixMonotone(l.lo, h.hi, h.lo, h.hi, s);
  }

  lemma {:induction false} InsideSlab(x0: real, x1: real, s: real)
    requires x0 < x1 && 0.0 < s < 1.0
    ensures x0 <= x0 + s * (x1 - x0) <= x1
  {
    var w := x1 - x0;
    Product(s, w);
    Product(1.0 - s, w);
    assert (1.0 - s) * w == w - s * w;
  }

  /** A slab's triangles: two for each of its first `n` pairs of crossings. */
  function Pieces(cs: seq<Crossing>, x0: real, x1: real, n: nat): seq<Triangle>
    requires 2 * n <= |cs|
  {
    if n == 0 then []
    else
      var l, h := cs[2 * n - 2], cs[2 * n - 1];
      Pieces(cs, x0, x1, n - 1) + [LowerHalf(x0, x1, l, h), UpperHalf(x0, x1, l, h)]
  }

  predicate InPair(cs: seq<Crossing>, s: real, y: real, i: nat)
    requires 2 * i + 1 < |cs|
  {
    Mix(cs[2 * i].lo, cs[2 * i].hi, s) <= y <= Mix(cs[2 * i + 1].lo, cs[2 * i + 1].hi, s)
  }

  lemma {:induction false} PiecesCover(cs: seq<Crossing>, x0: real, x1: real, n: nat, s: real, p: Pt)
    requires 2 * n <= |cs| && Stacked(cs) && x0 < x1 && 0.0 < s < 1.0 && p.x == x0 + s * (x1 - x0)
    ensures Covered(Pieces(cs, x0, x1, n), p) <==> exists i: nat :: 2 * i + 1 < 2 * n && InPair(cs, s, p.y, i)
  {
    hide Covers, Mix, LowerHalf, UpperHalf;
    if n > 0 {
      var front := Pieces(cs, x0, x1, n - 1);
      var l, h := cs[2 * n - 2], cs[2 * n - 1];
      PiecesCover(cs, x0, x1, n - 1, s, p);
      TrapezoidCovers(x0, x1, l, h, s, p);
      CoveredMore(front, LowerHalf(x0, x1, l, h), UpperHalf(x0, x1, l, h), p);
      assert InPair(cs, s, p.y, n - 1) <==> Covers(LowerHalf(x0, x1, l, h), p) || Covers(UpperHalf(x0, x1, l, h), p);
      if i: nat :| 2 * i + 1 < 2 * n && InPair(cs, s, p.y, i) {
        assert i == n - 1 || 2 * i + 1 < 2 * (n - 1);
      }
    }
  }

  lemma {:induction false} CoveredMore(ts: seq<Triangle>, a: Triangle, b: Triangle, p: Pt)
    ensures Covered(ts + [a, b], p) <==> Covered(ts, p) || Covers(a, p) || Covers(b, p)
  {
    hide Covers;
    var all := ts + [a, b];
    if k :| 0 <= k < |ts| && Covers(ts[k], p) { assert all[k] == ts[k]; }
    assert all[|ts|] == a && all[|ts| + 1] == b;
  }

  lemma {:induction false} CoveredJoin(a: seq<Triangle>, b: seq<Triangle>, p: Pt)
    ensures Covered(a + b, p) <==> Covered(a, p) || Covered(b, p)
  {
    hide Covers;
    var all := a + b;
    if k :| 0 <= k < |a| && Covers(a[k], p) { assert all[k] == a[k]; }
    if k :| 0 <= k < |b| && Covers(b[k], p) { assert all[|a| + k] == b[k]; }
    if k :| 0 <= k < |all| && Covers(all[k], p) { assert if k < |a| then all[k] == a[k] else all[k] == b[k - |a|]; }
  }

  /** A slab's pieces stay inside it. */
  lemma {:induction false} PiecesInside(cs: seq<Crossing>, x0: real, x1: real, n: nat, p: Pt)
    requires 2 * n <= |cs| && x0 <= x1 && Covered(Pieces(cs, x0, x1, n), p)
    ensures x0 <= p.x <= x1
  {
    if n > 0 {
      var l, h := cs[2 * n - 2], cs[2 * n - 1];
      CoveredMore(Pieces(cs, x0, x1, n - 1), LowerHalf(x0, x1, l, h), UpperHalf(x0, x1, l, h), p);
      hide Covered, Cross;
      if Covered(Pieces(cs, x0, x1, n - 1), p) { PiecesInside(cs, x0, x1, n - 1, p); }
    }
  }

  // ---------------------------------------------------------------- pairing is parity

  /** Stacked crossings below a height are the first ones. */
  lemma {:induction false} LowerIsPrefix(cs: seq<Crossing>, s: real, y: real)
    requires Stacked(cs) && 0.0 < s < 1.0
    ensures Lower(cs, s, y) <= |cs|
    ensures forall k :: 0 <= k < |cs| ==> (Mix(cs[k].lo, cs[k].hi, s) < y <==> k < Lower(cs, s, y))
  {
    hide Mix;
    if cs != [] {
      var front, last := cs[..|cs| - 1], cs[|cs| - 1];
      LowerIsPrefix(front, s, y);
      forall k | 0 <= k < |front| ensures Mix(cs[k].lo, cs[k].hi, s) <= Mix(last.lo, last.hi, s) {
        MixMonotone(cs[k].lo, cs[k].hi, last.lo, last.hi, s);
      }
      forall k | 0 <= k < |cs| ensures Mix(cs[k].lo, cs[k].hi, s) < y <==> k < Lower(cs, s, y) {
        if k < |front| { assert front[k] == cs[k]; }
        if |front| > 0 { assert front[|front| - 1] == cs[|front| - 1]; }
      }
    }
  }

  /** Off the edges, being inside some pair is having an odd number of crossings below. */
  lemma {:induction false} PairsAreOdd(cs: seq<Crossing>, s: real, y: real)
    requires Stacked(cs) && |cs| % 2 == 0 && 0.0 < s < 1.0
    requires forall k :: 0 <= k < |cs| ==> Mix(cs[k].lo, cs[k].hi, s) != y
    ensures (exists i: nat :: 2 * i + 1 < |cs| && InPair(cs, s, y, i)) <==> Lower(cs, s, y) % 2 == 1
  {
    hide InPair, Lower, Mix, Stacked;
    var n := Lower(cs, s, y);
    LowerIsPrefix(cs, s, y);
    forall i: nat | 2 * i + 1 < |cs| ensures InPair(cs, s, y, i) <==> n == 2 * i + 1 { InPairIs(cs, s, y, i); }
    if n % 2 == 1 {
      var i := n / 2;
      assert n == 2 * i + 1 && InPair(cs, s, y, i);
    }
  }

  /** A height is inside one pair: the one its last crossing below opens. */
  lemma {:induction false} InPairIs(cs: seq<Crossing>, s: real, y: real, i: nat)
    requires Stacked(cs) && 0.0 < s < 1.0 && 2 * i + 1 < |cs|
    requires forall k :: 0 <= k < |cs| ==> Mix(cs[k].lo, cs[k].hi, s) != y
    ensures InPair(cs, s, y, i) <==> Lower(cs, s, y) == 2 * i + 1
  {
    LowerIsPrefix(cs, s, y);
    hide Mix, Lower, Stacked;
    var k, l := 2 * i, 2 * i + 1;
    assert Mix(cs[k].lo, cs[k].hi, s) < y <==> k < Lower(cs, s, y);
    assert Mix(cs[l].lo, cs[l].hi, s) < y <==> l < Lower(cs, s, y);
  }

  // ---------------------------------------------------------------- an edge across a slab

  lemma {:induction false} AtRatio(e: SweepEdge, x: real)
    requires Wide(e)
    ensures YAt(e, x) == e.y0 + ((e.y1 - e.y0) / (e.x1 - e.x0)) * (x - e.x0)
  {
    var n, d, u := e.y1 - e.y0, e.x1 - e.x0, x - e.x0;
    var m := n / d;
    assert n == m * d;
    assert n * u == (m * u) * d;
    Split.Quotient(m * u, d, n * u);
  }

  /** An edge is linear across a slab. */
  lemma {:induction false} AtMix(e: SweepEdge, x0: real, x1: real, s: real)
    requires Wide(e)
    ensures YAt(e, x0 + s * (x1 - x0)) == Mix(YAt(e, x0), YAt(e, x1), s)
  {
    var m, u, w := (e.y1 - e.y0) / (e.x1 - e.x0), x0 - e.x0, x1 - x0;
    AtRatio(e, x0);
    AtRatio(e, x1);
    AtRatio(e, x0 + s * (x1 - x0));
    hide YAt;
    assert m * (u + s * w) == m * u + (m * (u + w) - m * u) * s;
  }

  /** An edge's crossing of a slab. */
  function CrossOf(e: SweepEdge, x0: real, x1: real): Crossing
    requires Wide(e)
  {
    Crossing(YAt(e, x0 + (x1 - x0) / 2.0), YAt(e, x0), YAt(e, x1))
  }

  function CrossList(es: seq<SweepEdge>, x0: real, x1: real): (cs: seq<Crossing>)
    requires forall e <- es :: Wide(e)
    ensures |cs| == |es|
    ensures forall k :: 0 <= k < |es| ==> cs[k] == CrossOf(es[k], x0, x1)
  {
    seq(|es|, k requires 0 <= k < |es| => CrossOf(es[k], x0, x1))
  }

  lemma {:induction false} CrossOfMid(e: SweepEdge, x0: real, x1: real)
    requires Wide(e)
    ensures CrossOf(e, x0, x1).mid == Mix(CrossOf(e, x0, x1).lo, CrossOf(e, x0, x1).hi, 0.5)
  {
    assert x0 + 0.5 * (x1 - x0) == x0 + (x1 - x0) / 2.0;
    AtMix(e, x0, x1, 0.5);
    hide YAt, Mix;
  }

  /** No ring point is strictly inside the slab. */
  ghost predicate SlabOf(rings: seq<Ring>, x0: real, x1: real) {
    x0 < x1 && forall k :: 0 <= k < |rings| ==> Empty(rings[k], x0, x1)
  }

  lemma {:induction false} RingEdgesAtVertices(r: Ring, k: nat, x0: real, x1: real)
    requires k <= |r| && Empty(r, x0, x1)
    ensures forall e <- RingEdges(r, k) :: (e.x0 <= x0 || e.x0 >= x1) && (e.x1 <= x0 || e.x1 >= x1)
  {
    if k > 0 {
      RingEdgesAtVertices(r, k - 1, x0, x1);
      assert Next(r, k - 1) == r[k % |r|];
    }
  }

  lemma {:induction false} EdgesAtVertices(rings: seq<Ring>, x0: real, x1: real)
    requires forall k :: 0 <= k < |rings| ==> Empty(rings[k], x0, x1)
    ensures forall e <- EdgesOf(rings) :: (e.x0 <= x0 || e.x0 >= x1) && (e.x1 <= x0 || e.x1 >= x1)
  {
    if rings != [] {
      EdgesAtVertices(rings[..|rings| - 1], x0, x1);
      RingEdgesAtVertices(rings[|rings| - 1], |rings[|rings| - 1]|, x0, x1);
      hide RingEdges;
    }
  }

  /** What a downward ray crosses is the spanning edges' crossings below the point. */
  lemma {:induction false} BelowIsLower(es: seq<SweepEdge>, x0: real, x1: real, s: real, p: Pt)
    requires forall e <- es :: Wide(e) && (e.x0 <= x0 || e.x0 >= x1) && (e.x1 <= x0 || e.x1 >= x1)
    requires x0 < p.x < x1 && p.x == x0 + s * (x1 - x0)
    ensures CrossingsBelow(es, p) == Lower(CrossList(Spanning(es, x0, x1), x0, x1), s, p.y)
  {
    hide YAt, Mix;
    if es != [] {
      var front, e := es[..|es| - 1], es[|es| - 1];
      assert e in es && forall f <- front :: f in es;
      BelowIsLower(front, x0, x1, s, p);
      AtMix(e, x0, x1, s);
      var cs := CrossList(Spanning(es, x0, x1), x0, x1);
      if Spans(e, x0, x1) { assert cs[..|cs| - 1] == CrossList(Spanning(front, x0, x1), x0, x1); }
    }
  }

  // ---------------------------------------------------------------- the sweep

  /** Inside a slab, off its edges, the slab's pieces cover exactly the even-odd fill. */
  lemma {:induction false} SlabFilled(rings: seq<Ring>, x0: real, x1: real, cs: seq<Crossing>, p: Pt)
    requires SlabOf(rings, x0, x1) && Uncrossed(rings) && Clear(rings, p) && x0 < p.x < x1
    requires InOrder(cs) && Reordered(cs, CrossList(Spanning(EdgesOf(rings), x0, x1), x0, x1))
    ensures |cs| % 2 == 0 && (Covered(Pieces(cs, x0, x1, |cs| / 2), p) <==> Filled(rings, p))
  {
    hide Empty, EdgesOf, Covered, Lower, YAt, Mix, Before, CrossingsBelow, Pieces, Uncrossed, InOrder, Stacked;
    var es, s := EdgesOf(rings), (p.x - x0) / (x1 - x0);
    var list := CrossList(Spanning(es, x0, x1), x0, x1);
    Fraction(p.x - x0, x1 - x0);
    SlabEven(rings, x0, x1);
    EdgesAtVertices(rings, x0, x1);
    BelowIsLower(es, x0, x1, s, p);
    SlabStacks(rings, x0, x1, cs);
    OffCrossings(rings, x0, x1, s, cs, p);
    PairsAreOdd(cs, s, p.y);
    PiecesCover(cs, x0, x1, |cs| / 2, s, p);
    assert Lower(cs, s, p.y) == Lower(list, s, p.y);
    assert |cs| / 2 * 2 == |cs|;
  }

  lemma {:induction false} OffCrossings(rings: seq<Ring>, x0: real, x1: real, s: real, cs: seq<Crossing>, p: Pt)
    requires Clear(rings, p) && x0 < p.x < x1 && p.x == x0 + s * (x1 - x0)
    requires Reordered(cs, CrossList(Spanning(EdgesOf(rings), x0, x1), x0, x1))
    ensures forall k :: 0 <= k < |cs| ==> Mix(cs[k].lo, cs[k].hi, s) != p.y
  {
    hide EdgesOf, Lower, YAt, Mix;
    var sp := Spanning(EdgesOf(rings), x0, x1);
    var list := CrossList(sp, x0, x1);
    forall k | 0 <= k < |cs| ensures Mix(cs[k].lo, cs[k].hi, s) != p.y {
      assert cs[k] in list;
      var m :| 0 <= m < |list| && list[m] == cs[k];
      assert sp[m] in sp;
      AtMix(sp[m], x0, x1, s);
    }
  }

  lemma {:induction false} Fraction(u: real, w: real)
    requires 0.0 < u < w
    ensures 0.0 < u / w < 1.0 && (u / w) * w == u
  {
    var s := u / w;
    assert s * w == u;
    if s <= 0.0 { Product(-s, w); }
    if s >= 1.0 { Product(s - 1.0, w); }
  }

  /** Uncrossed edges cross a slab stacked. */
  lemma {:induction false} SlabStacks(rings: seq<Ring>, x0: real, x1: real, cs: seq<Crossing>)
    requires Uncrossed(rings) && SlabOf(rings, x0, x1)
    requires InOrder(cs) && Reordered(cs, CrossList(Spanning(EdgesOf(rings), x0, x1), x0, x1))
    ensures Stacked(cs)
  {
    hide YAt, Mix, Lower, Before, EdgesOf, SlabOf;
    var sp := Spanning(EdgesOf(rings), x0, x1);
    var list := CrossList(sp, x0, x1);
    forall c | c in cs ensures exists e :: e in sp && c == CrossOf(e, x0, x1) {
      assert c in list;
      var m :| 0 <= m < |list| && list[m] == c;
      assert sp[m] in sp;
    }
    forall c | c in cs ensures c.mid == Mix(c.lo, c.hi, 0.5) {
      var e :| e in sp && c == CrossOf(e, x0, x1);
      CrossOfMid(e, x0, x1);
    }
    forall a, b | a in cs && b in cs ensures !Twisted(a, b) {
      var e :| e in sp && a == CrossOf(e, x0, x1);
      var f :| f in sp && b == CrossOf(f, x0, x1);
      assert !Swaps(e, f, x0, x1);
    }
    OrderStacks(cs);
  }

  predicate HasX(r: Ring, n: nat, x: real)
    requires n <= |r|
  {
    exists j :: 0 <= j < n && r[j].x == x
  }

  /** One ring's edges and new vertex xs. */
  method CollectRing(r: Ring, xs: seq<real>, seen: set<real>) returns (edges: seq<SweepEdge>, xs': seq<real>, seen': set<real>)
    requires (forall x :: x in xs <==> x in seen) && NoRepeats(xs)
    ensures edges == RingEdges(r, |r|) && NoRepeats(xs')
    ensures forall x :: x in xs' <==> x in seen'
    ensures forall x :: x in seen' <==> x in seen || HasX(r, |r|, x)
  {
    edges, xs', seen' := [], xs, seen;
    for i := 0 to |r|
      invariant edges == RingEdges(r, i)
      invariant (forall x :: x in xs' <==> x in seen') && NoRepeats(xs')
      invariant forall x :: x in seen' <==> x in seen || HasX(r, i, x)
    {
      var a, b := r[i], r[(i + 1) % |r|];
      HasMore(r, i);
      RingStep(r, i + 1);
      if a.x !in seen' {
        seen' := seen' + {a.x};
        xs' := xs' + [a.x];
      }
      edges := edges + EdgeOf(a, b);
    }
  }

  lemma {:induction false} HasMore(r: Ring, i: nat)
    requires i < |r|
    ensures forall x :: HasX(r, i + 1, x) <==> HasX(r, i, x) || x == r[i].x
  {
    forall x ensures HasX(r, i + 1, x) <==> HasX(r, i, x) || x == r[i].x {
      if x == r[i].x { assert r[i].x == x; }
    }
  }

  /** The ring edges, and every vertex x once, in first-seen order. */
  method Collect(rings: seq<Ring>) returns (edges: seq<SweepEdge>, xs: seq<real>)
    ensures edges == EdgesOf(rings)
    ensures (forall x :: x in xs <==> VertexX(rings, x)) && NoRepeats(xs)
  {
    hide RingEdges, VertexX, HasX;
    edges, xs := [], [];
    var seen: set<real> := {};
    NoVertices();
    for k := 0 to |rings|
      invariant edges == EdgesOf(rings[..k])
      invariant (forall x :: x in xs <==> x in seen) && NoRepeats(xs)
      invariant forall x :: x in seen <==> VertexX(rings[..k], x)
    {
      var more;
      more, xs, seen := CollectRing(rings[k], xs, seen);
      edges := edges + more;
      assert rings[..k + 1][..k] == rings[..k];
      EdgesLast(rings[..k + 1]);
      VertexMore(rings, k);
    }
    assert rings[..|rings|] == rings;
  }

  lemma {:induction false} NoVertices()
    ensures forall x :: !VertexX([], x)
  {
  }

  lemma {:induction false} VertexMore(rings: seq<Ring>, k: nat)
    requires k < |rings|
    ensures forall x :: VertexX(rings[..k + 1], x) <==> VertexX(rings[..k], x) || HasX(rings[k], |rings[k]|, x)
  {
    forall x ensures VertexX(rings[..k + 1], x) <==> VertexX(rings[..k], x) || HasX(rings[k], |rings[k]|, x) {
      var more := rings[..k + 1];
      if VertexX(more, x) {
        var m, i :| 0 <= m < |more| && 0 <= i < |more[m]| && more[m][i].x == x;
        if m < k { assert rings[..k][m][i].x == x; }
      }
      if VertexX(rings[..k], x) {
        var m, i :| 0 <= m < k && 0 <= i < |rings[..k][m]| && rings[..k][m][i].x == x;
        assert more[m][i].x == x;
      }
      if i :| 0 <= i < |rings[k]| && rings[k][i].x == x { assert more[k][i].x == x; }
    }
  }

  /** The crossings of a slab, in edge order. */
  method SlabCrossings(edges: seq<SweepEdge>, x0: real, x1: real) returns (cs: seq<Crossing>)
    requires forall e <- edges :: Wide(e)
    ensures cs == CrossList(Spanning(edges, x0, x1), x0, x1)
  {
    hide YAt;
    cs := [];
    for i := 0 to |edges|
      invariant cs == CrossList(Spanning(edges[..i], x0, x1), x0, x1)
    {
      var e := edges[i];
      assert edges[..i + 1][..i] == edges[..i];
      if e.x0 <= x0 && e.x1 >= x1 {
        cs := cs + [Crossing(YAt(e, x0 + (x1 - x0) / 2.0), YAt(e, x0), YAt(e, x1))];
      }
    }
    assert edges[..|edges|] == edges;
  }

  /** One slab: its spanning edges' crossings, sorted and paired from the bottom. */
  method SweepSlab(edges: seq<SweepEdge>, x0: real, x1: real) returns (out: seq<Triangle>, ghost cs: seq<Crossing>)
    requires forall e <- edges :: Wide(e)
    ensures InOrder(cs) && Reordered(cs, CrossList(Spanning(edges, x0, x1), x0, x1))
    ensures out == Pieces(cs, x0, x1, |cs| / 2)
  {
    hide InOrder, Reordered;
    var list := SlabCrossings(edges, x0, x1);
    var sorted := SortCrossings(list);
    cs := sorted;
    out := [];
    var i := 0;
    while i + 1 < |sorted|
      invariant i % 2 == 0 && i <= |sorted| && out == Pieces(sorted, x0, x1, i / 2)
    {
      var l, h := sorted[i], sorted[i + 1];
      out := out + [(Pt(x0, l.lo), Pt(x1, l.hi), Pt(x1, h.hi)), (Pt(x0, l.lo), Pt(x1, h.hi), Pt(x0, h.lo))];
      i := i + 2;
    }
  }

  /** Swept up to slab `s`: of the clear points, exactly the filled ones left of it are covered. */
  ghost predicate SweptTo(rings: seq<Ring>, out: seq<Triangle>, x: real) {
    forall p: Pt {:trigger Covered(out, p)} :: Clear(rings, p) ==> (Covered(out, p) <==> p.x < x && Filled(rings, p))
  }

  lemma {:induction false} RingEnds(r: Ring, k: nat)
    requires k <= |r|
    ensures forall e <- RingEdges(r, k) :: HasX(r, |r|, e.x0) && HasX(r, |r|, e.x1)
  {
    if k > 0 {
      RingEnds(r, k - 1);
      RingStep(r, k);
      hide RingEdges;
      assert HasX(r, |r|, r[k - 1].x) && HasX(r, |r|, r[k % |r|].x);
    }
  }

  lemma {:induction false} EdgeEnds(rings: seq<Ring>)
    ensures forall e <- EdgesOf(rings) :: VertexX(rings, e.x0) && VertexX(rings, e.x1)
  {
    EdgesLast(rings);
    if rings != [] {
      var k := |rings| - 1;
      EdgeEnds(rings[..k]);
      RingEnds(rings[k], |rings[k]|);
      VertexMore(rings, k);
      assert rings[..k + 1] == rings;
      hide RingEdges, EdgesOf, VertexX;
    }
  }

  lemma {:induction false} NothingBelow(es: seq<SweepEdge>, p: Pt)
    requires forall e <- es :: Wide(e) && (p.x <= e.x0 || p.x >= e.x1)
    ensures CrossingsBelow(es, p) == 0
  {
    hide YAt;
    if es != [] {
      assert es[|es| - 1] in es && forall e <- es[..|es| - 1] :: e in es;
      NothingBelow(es[..|es| - 1], p);
    }
  }

  /** Left of every vertex, and right of every vertex, nothing is filled. */
  lemma {:induction false} Outside(rings: seq<Ring>, p: Pt)
    requires (forall x :: VertexX(rings, x) ==> p.x <= x) || (forall x :: VertexX(rings, x) ==> x <= p.x)
    ensures !Filled(rings, p)
  {
    EdgeEnds(rings);
    hide EdgesOf, VertexX;
    NothingBelow(EdgesOf(rings), p);
  }

  lemma {:induction false} SweepStarts(rings: seq<Ring>, stops: seq<real>)
    requires |stops| > 0 && Sorted(stops, Split.RealLe) && forall x :: x in stops <==> VertexX(rings, x)
    ensures SweptTo(rings, [], stops[0])
  {
    hide VertexX, Filled;
    forall p: Pt | Clear(rings, p) ensures Covered([], p) <==> p.x < stops[0] && Filled(rings, p) {
      if p.x < stops[0] { Outside(rings, p); }
    }
  }

  lemma {:induction false} SweepGoesOn(rings: seq<Ring>, stops: seq<real>, s: nat, out: seq<Triangle>, cs: seq<Crossing>)
    requires s + 1 < |stops| && Sorted(stops, Split.RealLe) && forall x :: x in stops <==> VertexX(rings, x)
    requires Uncrossed(rings) && SweptTo(rings, out, stops[s])
    requires InOrder(cs) && Reordered(cs, CrossList(Spanning(EdgesOf(rings), stops[s], stops[s + 1]), stops[s], stops[s + 1]))
    ensures SweptTo(rings, out + Pieces(cs, stops[s], stops[s + 1], |cs| / 2), stops[s + 1])
  {
    hide Filled, Covered, EdgesOf, Uncrossed, InOrder, Reordered, Pieces;
    var x0, x1 := stops[s], stops[s + 1];
    var more := Pieces(cs, x0, x1, |cs| / 2);
    assert x0 in stops && x1 in stops;
    forall p: Pt | Clear(rings, p) ensures Covered(out + more, p) <==> p.x < x1 && Filled(rings, p) {
      assert Covered(out, p) <==> p.x < x0 && Filled(rings, p);
      CoveredJoin(out, more, p);
      assert p.x != x0 && p.x != x1;
      if x0 < p.x < x1 {
        NoVertexBetween(rings, stops, s);
        SlabFilled(rings, x0, x1, cs, p);
      } else if Covered(more, p) {
        PiecesInside(cs, x0, x1, |cs| / 2, p);
      }
    }
  }

  lemma {:induction false} NoVertexBetween(rings: seq<Ring>, stops: seq<real>, s: nat)
    requires s + 1 < |stops| && Sorted(stops, Split.RealLe) && forall x :: x in stops <==> VertexX(rings, x)
    requires stops[s] < stops[s + 1]
    ensures SlabOf(rings, stops[s], stops[s + 1])
  {
    forall k, i | 0 <= k < |rings| && 0 <= i < |rings[k]| ensures rings[k][i].x <= stops[s] || rings[k][i].x >= stops[s + 1] {
      assert VertexX(rings, rings[k][i].x);
      var m :| 0 <= m < |stops| && stops[m] == rings[k][i].x;
    }
  }

  lemma {:induction false} SweepEnds(rings: seq<Ring>, stops: seq<real>, out: seq<Triangle>)
    requires Sorted(stops, Split.RealLe) && forall x :: x in stops <==> VertexX(rings, x)
    requires |stops| > 0 ==> SweptTo(rings, out, stops[|stops| - 1])
    requires |stops| == 0 ==> out == []
    ensures forall p :: Clear(rings, p) ==> (Covered(out, p) <==> Filled(rings, p))
  {
    hide VertexX, Filled;
    forall p | Clear(rings, p) ensures Covered(out, p) <==> Filled(rings, p) {
      if |stops| == 0 {
        Outside(rings, p);
      } else {
        assert Covered(out, p) <==> p.x < stops[|stops| - 1] && Filled(rings, p);
        if p.x >= stops[|stops| - 1] { Outside(rings, p); }
      }
    }
  }

  // ---------------------------------------------------------------- the triangles do not overlap

  /** Inside a triangle, on none of its sides. */
  predicate Within3(t: Triangle, p: Pt) {
    Covers(t, p) && Cross(t.0, t.1, p) != 0.0 && Cross(t.1, t.2, p) != 0.0 && Cross(t.2, t.0, p) != 0.0
  }

  /** No point is inside two of the triangles. */
  ghost predicate Disjoint(ts: seq<Triangle>) {
    forall i, j, p {:trigger Within3(ts[i], p), Within3(ts[j], p)} :: 0 <= i < j < |ts| ==> !(Within3(ts[i], p) && Within3(ts[j], p))
  }

  /** How far across the slab a point is. */
  function Share(x0: real, x1: real, p: Pt): real
    requires x0 < x1
  {
    (p.x - x0) / (x1 - x0)
  }

  lemma {:induction false} ShareIs(x0: real, x1: real, p: Pt)
    requires x0 < x1
    ensures var s := Share(x0, x1, p);
      p.x == x0 + s * (x1 - x0) && (x0 <= p.x <= x1 ==> 0.0 <= s <= 1.0)
  {
    var s, w := Share(x0, x1, p), x1 - x0;
    assert s * w == p.x - x0;
    SignOf(w, s);
    SignOf(w, 1.0 - s);
    assert w * (1.0 - s) == w - w * s;
  }

  lemma {:induction false} StrictlyAbove(x0: real, x1: real, l: real, h: real, p: Pt)
    requires x0 < x1
    ensures var s := Share(x0, x1, p);
      && (Cross(Pt(x0, l), Pt(x1, h), p) > 0.0 ==> p.y > Mix(l, h, s))
      && (Cross(Pt(x1, h), Pt(x0, l), p) > 0.0 ==> p.y < Mix(l, h, s))
  {
    ShareIs(x0, x1, p);
    AboveLine(x0, x1, l, h, Share(x0, x1, p), p);
    CrossTurned(Pt(x0, l), Pt(x1, h), p);
  }

  /** The height of a crossing where a point stands. */
  function Height(c: Crossing, x0: real, x1: real, p: Pt): real
    requires x0 < x1
  {
    Mix(c.lo, c.hi, Share(x0, x1, p))
  }

  lemma {:induction false} HalvesApart(x0: real, x1: real, l: Crossing, h: Crossing, p: Pt)
    requires x0 < x1
    ensures !(Within3(LowerHalf(x0, x1, l, h), p) && Within3(UpperHalf(x0, x1, l, h), p))
  {
    CrossTurned(Pt(x0, l.lo), Pt(x1, h.hi), p);
    hide Cross;
  }

  /** Either half lies right of the slab's left side, left of its right side, and between the
      trapezoid's edges. */
  lemma {:induction false} HalfBetween(x0: real, x1: real, l: Crossing, h: Crossing, t: Triangle, p: Pt)
    requires x0 < x1 && l.lo <= h.lo && l.hi <= h.hi
    requires t == LowerHalf(x0, x1, l, h) || t == UpperHalf(x0, x1, l, h)
    requires Within3(t, p)
    ensures x0 < p.x <= x1 && Height(l, x0, x1, p) < p.y < Height(h, x0, x1, p)
  {
    var s := Share(x0, x1, p);
    ShareIs(x0, x1, p);
    assert x0 <= p.x <= x1;
    StrictlyAbove(x0, x1, l.lo, h.hi, p);
    MixOrder(l.lo, l.hi, l.lo, h.hi, s);
    MixOrder(l.lo, h.hi, h.lo, h.hi, s);
    StrictlyAbove(x0, x1, l.lo, l.hi, p);
    StrictlyAbove(x0, x1, h.lo, h.hi, p);
    hide Mix, Share;
    if t == LowerHalf(x0, x1, l, h) {
      if p.x == x0 { SideLeft(x0, x1, l.lo, l.hi, h.hi, p); }
    } else {
      assert Cross(Pt(x0, h.lo), Pt(x0, l.lo), p) == (h.lo - l.lo) * (p.x - x0);
    }
  }

  lemma {:induction false} SideLeft(x0: real, x1: real, l: real, h: real, k: real, p: Pt)
    requires p.x == x0 && x0 < x1
    ensures !(Cross(Pt(x0, l), Pt(x1, h), p) > 0.0 && Cross(Pt(x1, k), Pt(x0, l), p) > 0.0)
  {
    assert Cross(Pt(x0, l), Pt(x1, h), p) == (x1 - x0) * (p.y - l);
    assert Cross(Pt(x1, k), Pt(x0, l), p) == -((x1 - x0) * (p.y - l));
  }

  lemma {:induction false} MixOrder(a: real, b: real, c: real, d: real, s: real)
    requires a <= c && b <= d && 0.0 <= s <= 1.0
    ensures Mix(a, b, s) <= Mix(c, d, s)
  {
    assert Mix(a, b, s) == (1.0 - s) * a + s * b && Mix(c, d, s) == (1.0 - s) * c + s * d;
    Product(1.0 - s, c - a);
    Product(s, d - b);
    assert (1.0 - s) * (c - a) == (1.0 - s) * c - (1.0 - s) * a && s * (d - b) == s * d - s * b;
  }

  /** A slab's first pieces lie below the crossings after them, and apart from each other. */
  lemma {:induction false} PiecesApart(cs: seq<Crossing>, x0: real, x1: real, n: nat)
    requires 2 * n <= |cs| && Stacked(cs) && x0 < x1
    ensures |Pieces(cs, x0, x1, n)| == 2 * n && Disjoint(Pieces(cs, x0, x1, n))
    ensures forall i, p {:trigger Within3(Pieces(cs, x0, x1, n)[i], p)} :: 0 <= i < 2 * n && Within3(Pieces(cs, x0, x1, n)[i], p) ==>
      x0 < p.x <= x1 && p.y < Height(cs[2 * n - 1], x0, x1, p)
  {
    hide Within3, Height, LowerHalf, UpperHalf;
    if n > 0 {
      PiecesApart(cs, x0, x1, n - 1);
      var front, all := Pieces(cs, x0, x1, n - 1), Pieces(cs, x0, x1, n);
      var l, h := cs[2 * n - 2], cs[2 * n - 1];
      var a, b := LowerHalf(x0, x1, l, h), UpperHalf(x0, x1, l, h);
      assert all == front + [a, b] && forall k :: 0 <= k < |front| ==> all[k] == front[k];
      forall i, p | 0 <= i < 2 * n && Within3(all[i], p) ensures x0 < p.x <= x1 && p.y < Height(h, x0, x1, p) {
        if i < |front| {
          HeightsRise(cs, x0, x1, 2 * n - 3, 2 * n - 1, p);
        } else {
          HalfBetween(x0, x1, l, h, all[i], p);
        }
      }
      forall i, j, p | 0 <= i < j < |all| ensures !(Within3(all[i], p) && Within3(all[j], p)) {
        if j >= |front| && Within3(all[j], p) {
          HalfBetween(x0, x1, l, h, all[j], p);
          if i < |front| {
            HeightsRise(cs, x0, x1, 2 * n - 3, 2 * n - 2, p);
          } else {
            HalvesApart(x0, x1, l, h, p);
          }
        }
      }
    }
  }

  lemma {:induction false} HeightsRise(cs: seq<Crossing>, x0: real, x1: real, i: nat, j: nat, p: Pt)
    requires Stacked(cs) && i <= j < |cs| && x0 < x1 && x0 <= p.x <= x1
    ensures Height(cs[i], x0, x1, p) <= Height(cs[j], x0, x1, p)
  {
    ShareIs(x0, x1, p);
    if i < j { MixOrder(cs[i].lo, cs[i].hi, cs[j].lo, cs[j].hi, Share(x0, x1, p)); }
    hide Mix, Share;
  }

  /** Triangles apart from each other, all left of `x`. */
  ghost predicate ApartTo(ts: seq<Triangle>, x: real) {
    Disjoint(ts) && forall i, p {:trigger Within3(ts[i], p)} :: 0 <= i < |ts| && Within3(ts[i], p) ==> p.x <= x
  }

  lemma {:induction false} StopsRise(stops: seq<real>, xs: seq<real>)
    requires NoRepeats(xs) && multiset(stops) == multiset(xs) && Sorted(stops, Split.RealLe)
    ensures forall s :: 0 <= s && s + 1 < |stops| ==> stops[s] < stops[s + 1]
  {
    NoRepeatsKept(stops, xs);
  }

  lemma {:induction false} NoneApart(stops: seq<real>)
    ensures |stops| > 0 ==> ApartTo([], stops[0])
    ensures Disjoint([])
  {
  }

  lemma {:induction false} AllApart(stops: seq<real>, out: seq<Triangle>)
    requires if |stops| == 0 then out == [] else ApartTo(out, stops[|stops| - 1])
    ensures Disjoint(out)
  {
  }

  lemma {:induction false} ApartNext(rings: seq<Ring>, stops: seq<real>, s: nat, out: seq<Triangle>, cs: seq<Crossing>)
    requires s + 1 < |stops| && stops[s] < stops[s + 1] && Sorted(stops, Split.RealLe) && forall x :: x in stops <==> VertexX(rings, x)
    requires Uncrossed(rings) && ApartTo(out, stops[s])
    requires InOrder(cs) && Reordered(cs, CrossList(Spanning(EdgesOf(rings), stops[s], stops[s + 1]), stops[s], stops[s + 1]))
    ensures ApartTo(out + Pieces(cs, stops[s], stops[s + 1], |cs| / 2), stops[s + 1])
  {
    hide Within3, Uncrossed, EdgesOf, Reordered, InOrder, Height, VertexX, Stacked;
    var x0, x1 := stops[s], stops[s + 1];
    NoVertexBetween(rings, stops, s);
    SlabStacks(rings, x0, x1, cs);
    PiecesApart(cs, x0, x1, |cs| / 2);
    var more := Pieces(cs, x0, x1, |cs| / 2);
    var all := out + more;
    forall i, p | 0 <= i < |all| && Within3(all[i], p) ensures p.x <= x1 {
      assert if i < |out| then all[i] == out[i] else all[i] == more[i - |out|];
    }
    forall i, j, p | 0 <= i < j < |all| ensures !(Within3(all[i], p) && Within3(all[j], p)) {
      assert if i < |out| then all[i] == out[i] else all[i] == more[i - |out|];
      assert if j < |out| then all[j] == out[j] else all[j] == more[j - |out|];
    }
  }

  /** Decomposes a ring set. When no two edges cross inside a slab, the triangles cover a point clear of
      the edges exactly when it is inside by the even-odd rule, and no point is inside two of them. */
  method SweepRings(rings: seq<Ring>) returns (out: seq<Triangle>)
    ensures Uncrossed(rings) ==> forall p :: Clear(rings, p) ==> (Covered(out, p) <==> Filled(rings, p))
    ensures Uncrossed(rings) ==> Disjoint(out)
  {
    hide Disjoint, ApartTo, EdgesOf, Uncrossed, SweptTo, Filled, Covered, Clear, VertexX, InOrder, Reordered, Sorted;
    var edges, xs := Collect(rings);
    var stops := Sort(xs, Split.RealLe);
    forall x ensures x in stops <==> VertexX(rings, x) { SameMembers(stops, xs, x); }
    StopsRise(stops, xs);
    out := [];
    NoneApart(stops);
    if |stops| > 0 { SweepStarts(rings, stops); }
    var s := 0;
    while s + 1 < |stops|
      invariant |stops| > 0 ==> s < |stops| && (Uncrossed(rings) ==> SweptTo(rings, out, stops[s]) && ApartTo(out, stops[s]))
      invariant |stops| == 0 ==> out == []
    {
      var more;
      ghost var cs;
      more, cs := SweepSlab(edges, stops[s], stops[s + 1]);
      if Uncrossed(rings) {
        SweepGoesOn(rings, stops, s, out, cs);
        ApartNext(rings, stops, s, out, cs);
      }
      out := out + more;
      s := s + 1;
    }
    if Uncrossed(rings) {
      SweepEnds(rings, stops, out);
      AllApart(stops, out);
    }
  }
}
