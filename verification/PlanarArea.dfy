// A closed chain's area by vertical slabs: in each, the width times what the cuts at its middle
// measure. So a chain that winds more everywhere has more area.
module PlanarArea {
  import opened GeoTriangulate
  import opened PolyWinding
  import opened PolySimple
  import opened PlanarCuts
  import Volume = GeoVolume

  // ---------------------------------------------------------------- an edge's cut

  /** The height at which the line of `ab` passes the abscissa `m`. */
  function Height(a: Pt, b: Pt, m: real): real
    requires a.x != b.x
  {
    a.y + (m - a.x) / (b.x - a.x) * (b.y - a.y)
  }

  /** An edge's place on its line, as a portion. */
  lemma {:induction false} HeightMix(a: Pt, b: Pt, m: real) returns (t: real)
    requires a.x != b.x
    ensures Pt(m, Height(a, b, m)) == Mix(a, b, t) && t * (b.x - a.x) == m - a.x
  {
    t := (m - a.x) / (b.x - a.x);
    assert t * (b.x - a.x) == m - a.x;
  }

  /** A cut point is on its edge. */
  lemma {:induction false} HeightOn(a: Pt, b: Pt, m: real)
    requires a.x <= m < b.x || b.x <= m < a.x
    ensures On(a, b, Pt(m, Height(a, b, m)))
  {
    var t := HeightMix(a, b, m);
    hide Height, Mix;
    PortionIn(t, b.x - a.x, m - a.x);
    OnMix(a, b, t);
  }

  lemma {:induction false} PortionIn(t: real, u: real, v: real)
    requires t * u == v && u != 0.0 && (0.0 <= v <= u || u <= v <= 0.0)
    ensures 0.0 <= t <= 1.0
  {
    Signs(u, t);
    Signs(u, 1.0 - t);
    Signs(-u, -t);
    Signs(-u, t);
    Signs(-u, 1.0 - t);
    Signs(u, -t);
    Signs(u, t - 1.0);
    Signs(-u, t - 1.0);
    assert u * (1.0 - t) == u - v && -u * (1.0 - t) == v - u && -u * t == -v && u * (t - 1.0) == v - u && -u * (t - 1.0) == u - v;
  }

  /** How a point lies to an edge, in terms of heights. */
  lemma {:induction false} CrossHeight(a: Pt, b: Pt, m: real, y: real)
    requires a.x != b.x
    ensures Cross(a, b, Pt(m, y)) == (b.x - a.x) * (y - Height(a, b, m))
  {
    var t := HeightMix(a, b, m);
    var h := Height(a, b, m);
    assert h == a.y + t * (b.y - a.y);
    hide Height;
    CrossGap(b.x - a.x, b.y - a.y, m - a.x, y - a.y, t, y - h);
  }

  lemma {:induction false} CrossGap(u: real, v: real, w: real, z: real, t: real, g: real)
    requires t * u == w && g == z - t * v
    ensures u * z - v * w == u * g
  {
    assert u * (t * v) == v * (t * u);
  }

  function CutOf(a: Pt, b: Pt, m: real): (cs: seq<Cut>)
    ensures |cs| <= 1
  {
    if a.x <= m < b.x then [Cut(Height(a, b, m), 1)]
    else if b.x <= m < a.x then [Cut(Height(a, b, m), -1)]
    else []
  }

  /** One edge's cut counts at a point what the edge winds past it. */
  lemma {:induction false} CutWinds(a: Pt, b: Pt, m: real, y: real)
    ensures Beneath(CutOf(a, b, m), y) == Winds(a, b, Pt(m, y))
  {
    var cs := CutOf(a, b, m);
    if cs != [] {
      OneBelow(cs[0], y);
      CrossHeight(a, b, m, y);
      hide Height, Cross, Beneath;
      SideSign(b.x - a.x, y - cs[0].y, Cross(a, b, Pt(m, y)));
    } else {
      NoBelow(y);
    }
  }

  lemma {:induction false} NoBelow(y: real)
    ensures Beneath([], y) == 0
  {
  }

  lemma {:induction false} SideSign(u: real, g: real, c: real)
    requires c == u * g
    ensures u > 0.0 ==> (c > 0.0 <==> g > 0.0)
    ensures u < 0.0 ==> (c < 0.0 <==> g > 0.0)
  {
    Signs(u, g);
    Signs(-u, g);
    assert -u * g == -c;
  }

  lemma {:induction false} OneBelow(c: Cut, y: real)
    ensures Beneath([c], y) == (if c.y < y then c.d else 0) && Net([c]) == c.d && Moment([c]) == Weigh(c.d, c.y)
  {
    assert [c][..0] == [];
  }

  // ---------------------------------------------------------------- a chain's cuts

  /** The cuts of the first `n` edges of a closed chain. */
  function Cuts(s: seq<Pt>, m: real, n: nat): seq<Cut>
    requires n <= |s|
  {
    if n == 0 then [] else Cuts(s, m, n - 1) + CutOf(s[n - 1], After(s, n - 1), m)
  }

  lemma {:induction false} PathCuts(s: seq<Pt>, m: real, y: real, n: nat)
    requires n < |s|
    ensures Beneath(Cuts(s, m, n), y) == PathWinds(s[..n + 1], Pt(m, y))
  {
    hide Winds, CutOf;
    if n > 0 {
      var t := s[..n + 1];
      assert t[..n] == s[..n];
      PathCuts(s, m, y, n - 1);
      JoinCuts(Cuts(s, m, n - 1), CutOf(s[n - 1], After(s, n - 1), m), y);
      CutWinds(s[n - 1], After(s, n - 1), m, y);
      assert PathWinds(t, Pt(m, y)) == PathWinds(s[..n], Pt(m, y)) + Winds(s[n - 1], s[n], Pt(m, y));
    }
  }

  /** A chain's cuts count its winding. */
  lemma {:induction false} CutsWind(s: seq<Pt>, m: real, y: real)
    ensures Beneath(Cuts(s, m, |s|), y) == Winding(s, Pt(m, y))
  {
    hide Winds, CutOf;
    if s != [] {
      var n := |s| - 1;
      assert s[..n + 1] == s;
      PathCuts(s, m, y, n);
      JoinCuts(Cuts(s, m, n), CutOf(s[n], After(s, n), m), y);
      CutWinds(s[n], After(s, n), m, y);
    }
  }

  function RightOf(v: Pt, m: real): int { if v.x > m then 1 else 0 }

  lemma {:induction false} CutsNet(s: seq<Pt>, m: real, n: nat)
    requires n < |s|
    ensures Net(Cuts(s, m, n)) == RightOf(s[n], m) - RightOf(s[0], m)
  {
    hide CutOf;
    if n > 0 {
      CutsNet(s, m, n - 1);
      CutNet(s[n - 1], s[n], m);
      JoinCuts(Cuts(s, m, n - 1), CutOf(s[n - 1], s[n], m), 0.0);
    }
  }

  lemma {:induction false} CutNet(a: Pt, b: Pt, m: real)
    ensures Net(CutOf(a, b, m)) == RightOf(b, m) - RightOf(a, m)
  {
    var cs := CutOf(a, b, m);
    if cs != [] { OneBelow(cs[0], 0.0); }
  }

  /** A closed chain goes right as often as it goes left. */
  lemma {:induction false} CutsCancel(s: seq<Pt>, m: real)
    ensures Net(Cuts(s, m, |s|)) == 0
  {
    if s != [] {
      var n := |s| - 1;
      CutsNet(s, m, n);
      CutNet(s[n], s[0], m);
      JoinCuts(Cuts(s, m, n), CutOf(s[n], s[0], m), 0.0);
    }
  }

  /** Every cut is a point of an edge. */
  lemma {:induction false} CutsOn(s: seq<Pt>, m: real, n: nat, i: nat) returns (k: nat)
    requires n <= |s| && i < |Cuts(s, m, n)|
    ensures k < n && On(s[k], After(s, k), Pt(m, Cuts(s, m, n)[i].y)) && CutOf(s[k], After(s, k), m) == [Cuts(s, m, n)[i]]
  {
    var before := Cuts(s, m, n - 1);
    if i < |before| {
      k := CutsOn(s, m, n - 1, i);
    } else {
      k := n - 1;
      HeightOn(s[k], After(s, k), m);
    }
  }

  /** ... and every edge's cut is one of the chain's. */
  lemma {:induction false} CutsHave(s: seq<Pt>, m: real, n: nat, k: nat) returns (i: nat)
    requires k < n <= |s| && CutOf(s[k], After(s, k), m) != []
    ensures i < |Cuts(s, m, n)| && [Cuts(s, m, n)[i]] == CutOf(s[k], After(s, k), m)
  {
    if k == n - 1 { i := |Cuts(s, m, n - 1)|; } else { i := CutsHave(s, m, n - 1, k); }
  }

  lemma {:induction false} CutOn(a: Pt, b: Pt, m: real)
    requires CutOf(a, b, m) != []
    ensures On(a, b, Pt(m, CutOf(a, b, m)[0].y)) && CutOf(a, b, m)[0].d != 0
  {
    HeightOn(a, b, m);
  }

  /** An edge's point at an abscissa between its ends is its cut there. */
  lemma {:induction false} OnAcross(a: Pt, b: Pt, m: real, y: real)
    requires On(a, b, Pt(m, y)) && a.x != m && b.x != m
    ensures CutOf(a, b, m) != [] && CutOf(a, b, m)[0].y == y
  {
    var t :| 0.0 <= t <= 1.0 && Pt(m, y) == Mix(a, b, t);
    OnLine(a, b, Pt(m, y));
    StrictPortion(t, a.x, b.x, m);
    CrossHeight(a, b, m, y);
    Signs(b.x - a.x, y - Height(a, b, m));
    hide Height, Cross;
  }

  lemma {:induction false} StrictPortion(t: real, u: real, v: real, m: real)
    requires 0.0 <= t <= 1.0 && m == u + t * (v - u) && m != u && m != v
    ensures u < m < v || v < m < u
  {
    Signs(t, v - u);
    Signs(1.0 - t, v - u);
    assert (1.0 - t) * (v - u) == v - m;
    Signs(t, u - v);
    Signs(1.0 - t, u - v);
    assert t * (u - v) == u - m && (1.0 - t) * (u - v) == m - v;
  }

  // ---------------------------------------------------------------- lines through no vertex

  predicate Plain(s: seq<Pt>, m: real) { forall v <- s :: v.x != m }

  lemma {:induction false} OffFree(s: seq<Pt>, m: real, y: real)
    requires Plain(s, m) && Free(Cuts(s, m, |s|), y)
    ensures Off(s, Pt(m, y))
  {
    forall a, b | IsEdge(s, a, b) ensures !On(a, b, Pt(m, y)) {
      if On(a, b, Pt(m, y)) {
        var k: nat :| k < |s| && s[k] == a && After(s, k) == b;
        OnAcross(a, b, m, y);
        var i := CutsHave(s, m, |s|, k);
      }
    }
  }

  /** Between its vertices, a simple polygon's cuts are at different heights. */
  lemma {:induction false} CutsApart(s: seq<Pt>, m: real, n: nat)
    requires Simple(s) && Plain(s, m) && n <= |s|
    ensures forall i, j :: 0 <= i < j < |Cuts(s, m, n)| ==> Cuts(s, m, n)[i].y != Cuts(s, m, n)[j].y
  {
    if n > 0 {
      CutsApart(s, m, n - 1);
      var c, e := Cuts(s, m, n - 1), CutOf(s[n - 1], After(s, n - 1), m);
      hide CutOf;
      forall i | 0 <= i < |c| && e != [] ensures c[i].y != e[0].y {
        var k := CutsOn(s, m, n - 1, i);
        CutOn(s[n - 1], After(s, n - 1), m);
        EdgesApart(s, m, k, n - 1, c[i].y);
      }
    }
  }

  lemma {:induction false} EdgesApart(s: seq<Pt>, m: real, k: nat, l: nat, y: real)
    requires Simple(s) && Plain(s, m) && k < l < |s| && On(s[k], After(s, k), Pt(m, y))
    ensures !On(s[l], After(s, l), Pt(m, y))
  {
    EdgeAt(s, k);
    EdgeAt(s, l);
    assert s[k] in s && After(s, k) in s && s[k] != s[l];
  }

  // ---------------------------------------------------------------- slabs

  predicate Rising(xs: seq<real>) { forall i, j :: 0 <= i < j < |xs| ==> xs[i] < xs[j] }

  /** The abscissas of all vertices, among others. */
  ghost predicate AxisOf(xs: seq<real>, s: seq<Pt>) { Rising(xs) && xs != [] && forall v <- s :: v.x in xs }

  function Middle(xs: seq<real>, k: nat): real
    requires k + 1 < |xs|
  {
    (xs[k] + xs[k + 1]) / 2.0
  }

  lemma {:induction false} Inserted(xs: seq<real>, x: real) returns (r: seq<real>)
    requires Rising(xs)
    ensures Rising(r) && x in r && (forall u <- xs :: u in r) && forall u <- r :: u in xs || u == x
  {
    var n := |xs| - 1;
    if xs == [] || xs[n] < x {
      r := xs + [x];
    } else if xs[n] == x {
      r := xs;
    } else {
      var f := Inserted(xs[..n], x);
      r := f + [xs[n]];
      forall k | 0 <= k < |f| ensures f[k] < xs[n] { assert f[k] in xs[..n] || f[k] == x; }
      forall u | u in xs ensures u in r { assert u in xs[..n] || u == xs[n]; }
    }
  }

  /** All the vertices' abscissas, rising. */
  lemma {:induction false} Axis(s: seq<Pt>) returns (xs: seq<real>)
    requires s != []
    ensures AxisOf(xs, s)
  {
    var n := |s| - 1;
    var r: seq<real> := [];
    if n > 0 { r := Axis(s[..n]); }
    xs := Inserted(r, s[n].x);
    forall v | v in s ensures v.x in xs { assert v in s[..n] || v == s[n]; }
  }

  /** A slab's middle passes through no vertex. */
  lemma {:induction false} MiddlePlain(s: seq<Pt>, xs: seq<real>, k: nat)
    requires AxisOf(xs, s) && k + 1 < |xs|
    ensures Plain(s, Middle(xs, k))
  {
    forall v | v in s ensures v.x != Middle(xs, k) { NotInside(xs, k, v.x); }
  }

  /** An edge that is not upright spans a slab. */
  lemma {:induction false} Spanned(a: Pt, b: Pt, xs: seq<real>) returns (k: nat)
    requires Rising(xs) && a.x in xs && b.x in xs && a.x != b.x
    ensures k + 1 < |xs| && CutOf(a, b, Middle(xs, k)) != []
  {
    var x, z := if a.x < b.x then a.x else b.x, if a.x < b.x then b.x else a.x;
    k :| 0 <= k < |xs| && xs[k] == x;
    LastIsMost(xs, z);
    NotInside(xs, k, z);
  }

  /** A slab's share: its width by what lies between its cuts. */
  function Slice(w: real, f: real): real { w * -f }

  /** What the slabs up to `k` measure of the first `n` edges. */
  function SlabSum(s: seq<Pt>, xs: seq<real>, n: nat, k: nat): real
    requires n <= |s| && k < |xs|
  {
    if k == 0 then 0.0 else SlabSum(s, xs, n, k - 1) + Slice(xs[k] - xs[k - 1], Moment(Cuts(s, Middle(xs, k - 1), n)))
  }

  function EdgeSum(a: Pt, b: Pt, xs: seq<real>, k: nat): real
    requires k < |xs|
  {
    if k == 0 then 0.0 else EdgeSum(a, b, xs, k - 1) + Slice(xs[k] - xs[k - 1], Moment(CutOf(a, b, Middle(xs, k - 1))))
  }

  /** One more edge, measured over all slabs. */
  lemma {:induction false} SlabSumMore(s: seq<Pt>, xs: seq<real>, n: nat, k: nat)
    requires n < |s| && k < |xs|
    ensures SlabSum(s, xs, n + 1, k) == SlabSum(s, xs, n, k) + EdgeSum(s[n], After(s, n), xs, k)
  {
    hide Moment, CutOf, Slice, Net, Beneath, Middle, Cuts;
    if k > 0 {
      SlabSumMore(s, xs, n, k - 1);
      var m, w := Middle(xs, k - 1), xs[k] - xs[k - 1];
      MomentMore(s, m, n);
      SliceSum(w, Moment(Cuts(s, m, n)), Moment(CutOf(s[n], After(s, n), m)));
    }
  }

  lemma {:induction false} MomentMore(s: seq<Pt>, m: real, n: nat)
    requires n < |s|
    ensures Moment(Cuts(s, m, n + 1)) == Moment(Cuts(s, m, n)) + Moment(CutOf(s[n], After(s, n), m))
  {
    JoinCuts(Cuts(s, m, n), CutOf(s[n], After(s, n), m), 0.0);
    hide Moment, CutOf;
  }

  lemma {:induction false} SliceSum(w: real, f: real, g: real)
    ensures Slice(w, f + g) == Slice(w, f) + Slice(w, g) && Slice(w, 0.0) == 0.0
  {
  }

  lemma {:induction false} NoEdges(s: seq<Pt>, xs: seq<real>, k: nat)
    requires k < |xs|
    ensures SlabSum(s, xs, 0, k) == 0.0
  {
    if k > 0 {
      NoEdges(s, xs, k - 1);
      SliceSum(xs[k] - xs[k - 1], 0.0, 0.0);
    }
  }

  /** The area under the line of `ab` from `a` to the abscissa `x`. */
  function Swath(a: Pt, b: Pt, x: real): real
    requires a.x != b.x
  {
    (x - a.x) * (a.y + Height(a, b, x)) / 2.0
  }

  /** Up to the abscissa `x`, an edge that runs to the right. */
  function UpTo(a: Pt, b: Pt, x: real): real
    requires a.x < b.x
  {
    if x <= a.x then 0.0 else if x >= b.x then Swath(a, b, b.x) else Swath(a, b, x)
  }

  lemma {:induction false} SwathStep(a: Pt, b: Pt, u: real, v: real)
    requires a.x != b.x
    ensures Swath(a, b, v) - Swath(a, b, u) == (v - u) * Height(a, b, (u + v) / 2.0)
  {
    var t := HeightMix(a, b, u);
    var t' := HeightMix(a, b, v);
    var t'' := HeightMix(a, b, (u + v) / 2.0);
    var d, e := b.x - a.x, b.y - a.y;
    hide Height, Mix;
    SwathParts(d, e, u - a.x, v - a.x, t, t', t'', a.y, Height(a, b, u), Height(a, b, v), Height(a, b, (u + v) / 2.0));
  }

  lemma {:induction false} SwathParts(d: real, e: real, p: real, q: real, t: real, t': real, t'': real, y: real, f: real, g: real, h: real)
    requires d != 0.0 && t * d == p && t' * d == q && t'' * d == (p + q) / 2.0
    requires f == y + t * e && g == y + t' * e && h == y + t'' * e
    ensures q * (y + g) / 2.0 - p * (y + f) / 2.0 == (q - p) * h
  {
    assert t'' == (t + t') / 2.0 by { Signs(d, t'' - (t + t') / 2.0); assert d * (t'' - (t + t') / 2.0) == 0.0; }
    assert h == y + (t + t') / 2.0 * e;
    assert q * t == p * t' by { assert q * t == t' * d * t; assert p * t' == t * d * t'; }
    assert (q - p) * ((t + t') / 2.0 * e) == (q * t + q * t' - p * t - p * t') / 2.0 * e;
  }

  lemma {:induction false} HeightBack(a: Pt, b: Pt, m: real)
    requires a.x != b.x
    ensures Height(a, b, m) == Height(b, a, m)
  {
    var t := HeightMix(a, b, m);
    var t' := HeightMix(b, a, m);
    var u, v := b.x - a.x, b.y - a.y;
    var f, g := Height(a, b, m), Height(b, a, m);
    assert f == a.y + t * v && g == b.y + t' * (a.y - b.y);
    hide Height, Mix;
    BackParts(u, v, m - a.x, t, t', a.y, f, g);
  }

  lemma {:induction false} BackParts(u: real, v: real, w: real, t: real, t': real, y: real, f: real, g: real)
    requires u != 0.0 && t * u == w && t' * -u == w - u && f == y + t * v && g == y + v + t' * -v
    ensures f == g
  {
    assert u * (t + t' - 1.0) == 0.0;
    Signs(u, t + t' - 1.0);
    assert t' == 1.0 - t;
    assert t' * -v == -(v - t * v);
  }

  lemma {:induction false} HeightEnds(a: Pt, b: Pt)
    requires a.x != b.x
    ensures Height(a, b, a.x) == a.y && Height(a, b, b.x) == b.y
  {
    var t := HeightMix(a, b, a.x);
    var t' := HeightMix(a, b, b.x);
    Signs(b.x - a.x, t);
    Signs(b.x - a.x, t' - 1.0);
    assert (b.x - a.x) * (t' - 1.0) == 0.0;
    assert t == 0.0 && t' == 1.0;
  }

  /** A vertex abscissa is no inner one of a slab. */
  lemma {:induction false} NotInside(xs: seq<real>, k: nat, x: real)
    requires Rising(xs) && k + 1 < |xs| && x in xs
    ensures (x <= xs[k] || x >= xs[k + 1]) && xs[k] < Middle(xs, k) < xs[k + 1]
  {
    var j :| 0 <= j < |xs| && xs[j] == x;
    assert xs[k] < xs[k + 1];
    if k + 1 < j { assert xs[k + 1] < xs[j]; }
    if j < k { assert xs[j] < xs[k]; }
  }

  /** An edge that runs to the right: the slabs up to one measure what lies over it. */
  lemma {:induction false} RightEdge(a: Pt, b: Pt, xs: seq<real>, k: nat)
    requires Rising(xs) && k < |xs| && a.x in xs && b.x in xs && a.x < b.x
    ensures EdgeSum(a, b, xs, k) == -UpTo(a, b, xs[k])
  {
    if k == 0 {
      var j :| 0 <= j < |xs| && xs[j] == a.x;
      assert j > 0 ==> xs[0] < xs[j];
    } else {
      RightEdge(a, b, xs, k - 1);
      NotInside(xs, k - 1, a.x);
      NotInside(xs, k - 1, b.x);
      RightSlab(a, b, xs[k - 1], xs[k]);
    }
  }

  /** One slab of such an edge. */
  lemma {:induction false} RightSlab(a: Pt, b: Pt, u: real, v: real)
    requires u < v && a.x < b.x && (a.x <= u || a.x >= v) && (b.x <= u || b.x >= v)
    ensures Slice(v - u, Moment(CutOf(a, b, (u + v) / 2.0))) == UpTo(a, b, u) - UpTo(a, b, v)
  {
    var m := (u + v) / 2.0;
    HeightEnds(a, b);
    SwathStep(a, b, u, v);
    SwathStart(a, b);
    if a.x <= u && v <= b.x {
      OneBelow(Cut(Height(a, b, m), 1), 0.0);
      WeighOne(Height(a, b, m));
      hide Height, Weigh, Swath;
    } else {
      SliceSum(v - u, 0.0, 0.0);
      hide Height, Swath;
    }
  }

  lemma {:induction false} WeighOne(y: real)
    ensures Weigh(1, y) == y && Weigh(-1, y) == -y
  {
  }

  lemma {:induction false} SwathStart(a: Pt, b: Pt)
    requires a.x != b.x
    ensures Swath(a, b, a.x) == 0.0 && Swath(a, b, b.x) == (b.x - a.x) * (a.y + b.y) / 2.0
  {
    HeightEnds(a, b);
    hide Height;
  }

  /** An edge walked the other way measures the opposite. */
  lemma {:induction false} EdgeBack(a: Pt, b: Pt, xs: seq<real>, k: nat)
    requires k < |xs|
    ensures EdgeSum(b, a, xs, k) == -EdgeSum(a, b, xs, k)
  {
    if k > 0 {
      EdgeBack(a, b, xs, k - 1);
      CutBack(a, b, Middle(xs, k - 1));
      SliceMinus(xs[k] - xs[k - 1], Moment(CutOf(a, b, Middle(xs, k - 1))));
      hide Moment, CutOf, Slice;
    }
  }

  lemma {:induction false} SliceMinus(w: real, f: real)
    ensures Slice(w, -f) == -Slice(w, f)
  {
  }

  lemma {:induction false} CutBack(a: Pt, b: Pt, m: real)
    ensures Moment(CutOf(b, a, m)) == -Moment(CutOf(a, b, m))
  {
    if a.x != b.x {
      HeightBack(a, b, m);
      var h := Height(a, b, m);
      OneBelow(Cut(h, 1), 0.0);
      OneBelow(Cut(h, -1), 0.0);
      WeighOne(h);
      hide Height, Weigh;
    }
  }

  /** Over all slabs an edge measures its trapezoid, whichever way it runs. */
  lemma {:induction false} EdgeArea(a: Pt, b: Pt, xs: seq<real>)
    requires Rising(xs) && a.x in xs && b.x in xs
    ensures EdgeSum(a, b, xs, |xs| - 1) == (a.x - b.x) * (a.y + b.y) / 2.0
  {
    var k := |xs| - 1;
    LastIsMost(xs, a.x);
    LastIsMost(xs, b.x);
    if a.x < b.x {
      RightEdge(a, b, xs, k);
      SwathStart(a, b);
    } else if b.x < a.x {
      RightEdge(b, a, xs, k);
      SwathStart(b, a);
      EdgeBack(b, a, xs, k);
    } else {
      UprightEdge(a, b, xs, k);
    }
    hide Swath, EdgeSum;
  }

  lemma {:induction false} LastIsMost(xs: seq<real>, x: real)
    requires Rising(xs) && x in xs
    ensures x <= xs[|xs| - 1]
  {
    var j :| 0 <= j < |xs| && xs[j] == x;
    assert j < |xs| - 1 ==> xs[j] < xs[|xs| - 1];
  }

  lemma {:induction false} UprightEdge(a: Pt, b: Pt, xs: seq<real>, k: nat)
    requires k < |xs| && a.x == b.x
    ensures EdgeSum(a, b, xs, k) == 0.0
  {
    if k > 0 {
      UprightEdge(a, b, xs, k - 1);
      SliceSum(xs[k] - xs[k - 1], 0.0, 0.0);
    }
  }

  // ---------------------------------------------------------------- the area

  function Product(v: Pt): real { v.x * v.y }

  lemma {:induction false} EdgeShoe(a: Pt, b: Pt, xs: seq<real>)
    requires Rising(xs) && a.x in xs && b.x in xs
    ensures 2.0 * EdgeSum(a, b, xs, |xs| - 1) == Shoe(a, b) + Product(a) - Product(b)
  {
    hide EdgeSum;
    EdgeArea(a, b, xs);
    Trapezoid(a.x, a.y, b.x, b.y, EdgeSum(a, b, xs, |xs| - 1));
  }

  lemma {:induction false} Trapezoid(u: real, v: real, x: real, y: real, e: real)
    requires e == (u - x) * (v + y) / 2.0
    ensures 2.0 * e == (u * y - x * v) + u * v - x * y
  {
  }

  lemma {:induction false} SlabsUpTo(s: seq<Pt>, xs: seq<real>, n: nat)
    requires AxisOf(xs, s) && n < |s|
    ensures 2.0 * SlabSum(s, xs, n, |xs| - 1) == Volume.Swept(s, n) + Product(s[0]) - Product(s[n])
  {
    hide SlabSum, EdgeSum, Shoe, Product;
    var k := |xs| - 1;
    if n == 0 {
      NoEdges(s, xs, k);
    } else {
      SlabsUpTo(s, xs, n - 1);
      SlabSumMore(s, xs, n - 1, k);
      assert s[n - 1] in s && s[n] in s;
      EdgeShoe(s[n - 1], s[n], xs);
    }
  }

  /** All slabs together measure a closed chain's area. */
  lemma {:induction false} SlabsMeasure(s: seq<Pt>, xs: seq<real>)
    requires AxisOf(xs, s) && s != []
    ensures 2.0 * SlabSum(s, xs, |s|, |xs| - 1) == Volume.Swept(s, |s|)
  {
    hide SlabSum, EdgeSum, Shoe, Product;
    var n, k := |s| - 1, |xs| - 1;
    SlabsUpTo(s, xs, n);
    SlabSumMore(s, xs, n, k);
    assert s[n] in s && s[0] in s;
    EdgeShoe(s[n], s[0], xs);
  }

  /** At the middle of slab `k` the chain `p` winds nowhere less than `q`. */
  ghost predicate WindsMore(p: seq<Pt>, q: seq<Pt>, m: real) {
    forall y :: Free(Cuts(p, m, |p|), y) && Free(Cuts(q, m, |q|), y) ==> Beneath(Cuts(q, m, |q|), y) <= Beneath(Cuts(p, m, |p|), y)
  }

  ghost predicate WindsMoreAt(p: seq<Pt>, q: seq<Pt>, m: real) {
    exists y :: Free(Cuts(p, m, |p|), y) && Free(Cuts(q, m, |q|), y) && Beneath(Cuts(q, m, |q|), y) < Beneath(Cuts(p, m, |p|), y)
  }

  lemma {:induction false} MomentLess(p: seq<Pt>, q: seq<Pt>, m: real)
    requires WindsMore(p, q, m)
    ensures Moment(Cuts(p, m, |p|)) <= Moment(Cuts(q, m, |q|))
    ensures WindsMoreAt(p, q, m) ==> Moment(Cuts(p, m, |p|)) < Moment(Cuts(q, m, |q|))
  {
    var c, d := Cuts(p, m, |p|), Cuts(q, m, |q|);
    CutsCancel(p, m);
    CutsCancel(q, m);
    var both := c + Negated(d);
    hide Cuts, Net, Beneath, Moment;
    JoinCuts(c, Negated(d), 0.0);
    NegatedSums(d, 0.0);
    forall y ensures Free(both, y) <==> Free(c, y) && Free(d, y) { FreeBoth(c, d, y); }
    forall y ensures Beneath(both, y) == Beneath(c, y) - Beneath(d, y) {
      JoinCuts(c, Negated(d), y);
      NegatedSums(d, y);
    }
    MomentFalls(both);
  }

  lemma {:induction false} FreeBoth(c: seq<Cut>, d: seq<Cut>, y: real)
    ensures Free(c + Negated(d), y) <==> Free(c, y) && Free(d, y)
  {
    var both := c + Negated(d);
    if Free(both, y) {
      forall k | 0 <= k < |c| ensures c[k].y != y { assert both[k].y != y; }
      forall k | 0 <= k < |d| ensures d[k].y != y { assert both[|c| + k].y != y; }
    }
  }

  /** A chain that winds nowhere less than another in any slab, and more somewhere in one, has
      more area. */
  lemma {:induction false} AreaGrows(p: seq<Pt>, q: seq<Pt>, xs: seq<real>, k: nat)
    requires Rising(xs) && k < |xs| && forall j: nat :: j < k ==> WindsMore(p, q, Middle(xs, j))
    ensures SlabSum(q, xs, |q|, k) <= SlabSum(p, xs, |p|, k)
    ensures (exists j: nat :: j < k && WindsMoreAt(p, q, Middle(xs, j))) ==> SlabSum(q, xs, |q|, k) < SlabSum(p, xs, |p|, k)
  {
    hide WindsMore, WindsMoreAt, Moment, Cuts, Middle;
    if k > 0 {
      AreaGrows(p, q, xs, k - 1);
      assert WindsMore(p, q, Middle(xs, k - 1));
      MomentLess(p, q, Middle(xs, k - 1));
      assert xs[k - 1] < xs[k];
      SliceOrder(xs[k] - xs[k - 1], Moment(Cuts(p, Middle(xs, k - 1), |p|)), Moment(Cuts(q, Middle(xs, k - 1), |q|)));
      hide Slice;
    }
  }

  lemma {:induction false} SliceOrder(w: real, f: real, g: real)
    requires w > 0.0 && f <= g
    ensures Slice(w, g) <= Slice(w, f)
    ensures f < g ==> Slice(w, g) < Slice(w, f)
  {
    Signs(w, g - f);
    assert w * (g - f) == w * -f - w * -g;
  }
}
