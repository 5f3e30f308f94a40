// Splitting a simple polygon by the diagonal from its first vertex to the blocking vertex
// nearest to it: two simple polygons, neither winding round the other's vertices.
module PolySplit {
  import opened GeoTriangulate
  import opened PolyWinding
  import opened PolySimple
  import opened PolyCorner

  /** A vertex that keeps the first corner from being an ear. */
  predicate Blocks(s: seq<Pt>, k: nat) { |s| >= 4 && 2 <= k < |s| - 1 && InCorner(s[|s| - 1], s[0], s[1], s[k]) }

  /** How far from the chord of the first corner. */
  function Height(s: seq<Pt>, k: nat): real
    requires k < |s| && |s| >= 2
  {
    Cross(s[1], s[|s| - 1], s[k])
  }

  /** A blocking vertex farthest from the chord. */
  lemma {:induction false} Farthest(s: seq<Pt>, n: nat, i: nat) returns (k: nat)
    requires i < n <= |s| && Blocks(s, i)
    ensures k < n && Blocks(s, k) && forall j: nat :: j < n && Blocks(s, j) ==> Height(s, j) <= Height(s, k)
  {
    hide Blocks, Cross;
    assert |s| >= 4 by { BlocksSize(s, i); }
    if i < n - 1 {
      k := Farthest(s, n - 1, i);
      if Blocks(s, n - 1) && Height(s, n - 1) > Height(s, k) { k := n - 1; }
    } else if j: nat :| j < n - 1 && Blocks(s, j) {
      k := Farthest(s, n - 1, j);
      if Height(s, n - 1) > Height(s, k) { k := n - 1; }
    } else {
      k := n - 1;
    }
  }

  lemma {:induction false} BlocksSize(s: seq<Pt>, i: nat)
    requires Blocks(s, i)
    ensures |s| >= 4
  {
  }

  /** The corner's triangle cut down to the height of `k`, `a` and `b` on the corner's edges:
      no vertex lies in it off its chord, and `k` lies on its chord, inside the corner. */
  ghost predicate Reach(s: seq<Pt>, k: nat, a: Pt, b: Pt) {
    && |s| >= 4 && 2 <= k < |s| - 1 && Zone(s, s[|s| - 1], s[0], s[1], a, b)
    && InCorner(a, s[0], b, s[k]) && Cross(b, a, s[k]) == 0.0 && Cross(a, s[0], s[k]) > 0.0 && Cross(s[0], b, s[k]) > 0.0
  }

  /** Cutting a corner's triangle down by a factor. */
  lemma {:induction false} CutSides(p: Pt, m: Pt, n: Pt, t: real, v: Pt)
    ensures Cross(Mix(m, p, t), m, v) == t * Cross(p, m, v) && Cross(m, Mix(m, n, t), v) == t * Cross(m, n, v)
  {
  }

  lemma {:induction false} CutTip(p: Pt, m: Pt, n: Pt, t: real)
    ensures Cross(Mix(m, p, t), m, Mix(m, n, t)) == t * (t * Cross(p, m, n))
  {
    CutSides(p, m, n, t, Mix(m, n, t));
    CrossMix(p, m, m, n, t);
    CornerCrosses(p, m, n);
  }

  lemma {:induction false} CutChord(p: Pt, m: Pt, n: Pt, t: real, v: Pt, k: real)
    requires k == (1.0 - t) * Cross(p, m, n)
    ensures Cross(Mix(m, n, t), Mix(m, p, t), v) == t * (Cross(n, p, v) - k)
  {
    var a, b := Mix(m, p, t), Mix(m, n, t);
    CutSides(p, m, n, t, v);
    CutTip(p, m, n, t);
    CornerSum(a, m, b, v);
    CornerSum(p, m, n, v);
    hide Cross, Mix;
    ChordRest(t, Cross(p, m, v), Cross(m, n, v), Cross(n, p, v), Cross(p, m, n), k);
  }

  lemma {:induction false} ChordRest(t: real, f: real, g: real, h: real, s: real, k: real)
    requires f + g + h == s && k == (1.0 - t) * s
    ensures t * (t * s) - t * f - t * g == t * (h - k)
  {
    var u := t * s;
    assert k == s - u;
    assert h - k == u - f - g;
    assert t * (u - f - g) == t * u - t * f - t * g;
  }

  lemma {:induction false} CutDown(p: Pt, m: Pt, n: Pt, t: real, v: Pt, k: real)
    requires t > 0.0 && k == (1.0 - t) * Cross(p, m, n)
    ensures var a, b := Mix(m, p, t), Mix(m, n, t);
      && (InCorner(a, m, b, v) <==> Cross(p, m, v) >= 0.0 && Cross(m, n, v) >= 0.0 && Cross(n, p, v) >= k)
      && (Cross(a, m, v) > 0.0 <==> Cross(p, m, v) > 0.0) && (Cross(m, b, v) > 0.0 <==> Cross(m, n, v) > 0.0)
      && (Cross(b, a, v) == 0.0 <==> Cross(n, p, v) == k)
      && (Cross(a, m, b) > 0.0 <==> Cross(p, m, n) > 0.0)
  {
    hide Cross, Mix;
    var a, b, f := Mix(m, p, t), Mix(m, n, t), Cross(p, m, n);
    CutSides(p, m, n, t, v);
    CutTip(p, m, n, t);
    CutChord(p, m, n, t, v, k);
    SameSign(t, t * f, Cross(a, m, b));
    SameSign(t, f, t * f);
    SameSign(t, Cross(p, m, v), Cross(a, m, v));
    SameSign(t, Cross(m, n, v), Cross(m, b, v));
    SameSign(t, Cross(n, p, v) - k, Cross(b, a, v));
  }

  /** A blocking vertex is strictly inside the corner's angle, and below the corner. */
  lemma {:induction false} BlocksInside(s: seq<Pt>, k: nat)
    requires Simple(s) && Blocks(s, k) && Cross(s[|s| - 1], s[0], s[1]) > 0.0
    ensures var p, m, n := s[|s| - 1], s[0], s[1];
      Cross(p, m, s[k]) > 0.0 && Cross(m, n, s[k]) > 0.0 && 0.0 <= Height(s, k) < Cross(p, m, n)
  {
    var p, m, n, z := s[|s| - 1], s[0], s[1], s[k];
    assert z != p && z != m && z != n;
    EdgeAt(s, |s| - 1);
    EdgeAt(s, 0);
    Weights(p, m, n, z);
    OnSide(p, m, n, z);
    hide Cross, On;
    if On(m, p, z) { OnBack(m, p, z); VertexOnEdge(s, z, p, m); }
    if On(m, n, z) { VertexOnEdge(s, z, m, n); }
  }

  /** The nearest blocking vertex's reach. */
  lemma {:induction false} FarthestReach(s: seq<Pt>, k: nat) returns (a: Pt, b: Pt)
    requires Simple(s) && Blocks(s, k) && Cross(s[|s| - 1], s[0], s[1]) > 0.0
    requires forall j: nat :: j < |s| && Blocks(s, j) ==> Height(s, j) <= Height(s, k)
    ensures Reach(s, k, a, b)
  {
    var p, m, n, z := s[|s| - 1], s[0], s[1], s[k];
    var f, h := Cross(p, m, n), Height(s, k);
    BlocksInside(s, k);
    EdgeAt(s, |s| - 1);
    EdgeAt(s, 0);
    var t := Quotient(f - h, f);
    Remainder(t, f, h);
    a, b := Mix(m, p, t), Mix(m, n, t);
    OnMix(m, p, t);
    OnMix(m, n, t);
    CutDown(p, m, n, t, z, h);
    ReachEmpty(s, k, t);
    hide On, Simple, Mix, Cross, InCorner, Empty;
  }

  lemma {:induction false} Remainder(t: real, f: real, h: real)
    requires t * f == f - h
    ensures (1.0 - t) * f == h
  {
  }

  lemma {:induction false} ReachEmpty(s: seq<Pt>, k: nat, t: real)
    requires |s| >= 4 && k < |s| && t > 0.0 && Height(s, k) >= 0.0
    requires (1.0 - t) * Cross(s[|s| - 1], s[0], s[1]) == Height(s, k)
    requires forall j: nat :: j < |s| && Blocks(s, j) ==> Height(s, j) <= Height(s, k)
    ensures Empty(s, Mix(s[0], s[|s| - 1], t), s[0], Mix(s[0], s[1], t))
  {
    var p, m, n := s[|s| - 1], s[0], s[1];
    var a, b := Mix(m, p, t), Mix(m, n, t);
    CornerCrosses(p, m, n);
    hide Cross, Mix;
    forall v | v in s && v != m && InCorner(a, m, b, v) ensures Cross(b, a, v) == 0.0 {
      var j :| 0 <= j < |s| && s[j] == v;
      CutDown(p, m, n, t, v, Height(s, k));
      if j != 1 && j != |s| - 1 { assert Blocks(s, j); }
    }
  }

  lemma {:induction false} SameSign(t: real, c: real, x: real)
    requires 0.0 < t && x == t * c
    ensures (x >= 0.0 <==> c >= 0.0) && (x > 0.0 <==> c > 0.0) && (x == 0.0 <==> c == 0.0)
  {
    Signs(t, c);
  }

  // ---------------------------------------------------------------- the diagonal

  /** The diagonal meets no edge but at its ends. */
  lemma {:induction false} DiagonalAlone(s: seq<Pt>, k: nat, a: Pt, b: Pt, c: Pt, d: Pt, w: Pt)
    requires Reach(s, k, a, b) && IsEdge(s, c, d) && On(c, d, w) && On(s[0], s[k], w)
    ensures w == s[0] || w == s[k]
  {
    var p, m, n, z := s[|s| - 1], s[0], s[1], s[k];
    CornerCrosses(a, m, b);
    TipIn(a, m, b);
    OnBack(m, z, w);
    EdgeEnds(s, p, m);
    EdgeEnds(s, m, n);
    EdgeEnds(s, c, d);
    hide Simple, On, Cross, InCorner;
    if w != m && w != z {
      InCornerMix(a, m, b, m, z, w);
      SideOfMix(b, a, m, z, w);
      SideOfMix(a, m, z, m, w);
      SideOfMix(m, b, z, m, w);
      if c == p {
        OnBack(p, m, w);
        OnSameLine(m, p, a, w);
      } else if c == m {
        OnSameLine(m, n, b, w);
      } else {
        ZoneFree(s, p, m, n, a, b, c, d, w);
      }
    }
  }

  lemma {:induction false} TipIn(a: Pt, e: Pt, b: Pt)
    requires Cross(a, e, b) > 0.0
    ensures InCorner(a, e, b, e) && InCorner(a, e, b, a) && InCorner(a, e, b, b)
  {
    CornerCrosses(a, e, b);
  }

  /** A part of the polygon: some of its edges, and the diagonal as its edge `k`. */
  ghost predicate Part(s: seq<Pt>, z: Pt, r: seq<Pt>, k: nat) {
    && |r| >= 3 && k < |r| && s != []
    && ((r[k] == s[0] && After(r, k) == z) || (r[k] == z && After(r, k) == s[0]))
    && (forall i, j :: 0 <= i < j < |r| ==> r[i] != r[j])
    && forall c, d :: IsEdge(r, c, d) ==> c in r && d in r && ((c == r[k] && d == After(r, k)) || (IsEdge(s, c, d) && c != r[k]))
  }

  lemma {:induction false} PartSimple(s: seq<Pt>, k: nat, a: Pt, b: Pt, r: seq<Pt>, j: nat)
    requires Reach(s, k, a, b) && Part(s, s[k], r, j)
    ensures Simple(r)
  {
    var u, v := r[j], After(r, j);
    forall c, d, f, g, w | IsEdge(r, c, d) && IsEdge(r, f, g) && c != f && On(c, d, w) && On(f, g, w) ensures w == c || w == d {
      hide On, Cross, InCorner, Empty;
      if c == u && d == v {
        if u == s[k] { OnBack(c, d, w); }
        DiagonalAlone(s, k, a, b, f, g, w);
      } else if f == u && g == v {
        if u == s[k] { OnBack(f, g, w); }
        DiagonalAlone(s, k, a, b, c, d, w);
        VertexOnEdge(s, w, c, d);
      } else {
        SimpleMeet(s, c, d, f, g, w);
      }
    }
  }

  // ---------------------------------------------------------------- outside a part

  /** A polygon does not wind round what lies on an edge's right, with nothing in between. */
  lemma {:induction false} RightOfEdge(r: seq<Pt>, k: nat, x: Pt)
    requires Simple(r) && OnceRound(r) && k < |r| && Cross(r[k], After(r, k), x) < 0.0
    requires var h := Mix(r[k], After(r, k), 0.5); forall c, d, w :: IsEdge(r, c, d) && On(c, d, w) && On(h, x, w) ==> w == h
    ensures Winding(r, x) == 0
  {
    var a, b := r[k], After(r, k);
    var h := Mix(a, b, 0.5);
    hide Simple, OnceRound, On, Mix, Cross, Winding, IsEdge;
    MiddleOn(a, b);
    var t := JustRight(r, k, x);
    var y := Mix(h, x, t);
    CrossMix(a, b, h, x, t);
    SideScaled(t, Cross(a, b, h), Cross(a, b, x), Cross(a, b, y));
    OnMix(h, x, t);
    OnEnds(h, x);
    forall c, d, w | IsEdge(r, c, d) && On(c, d, w) && On(y, x, w) ensures false {
      OnPart(h, x, y, x, w);
      SideOfMix(a, b, y, x, w);
    }
    MissesSteady(r, y, x);
  }

  /** Just to the right of an edge's middle. */
  lemma {:induction false} JustRight(r: seq<Pt>, k: nat, x: Pt) returns (t: real)
    requires Simple(r) && OnceRound(r) && k < |r| && Cross(r[k], After(r, k), x) < 0.0
    ensures 0.0 < t < 1.0 && Winding(r, Mix(Mix(r[k], After(r, k), 0.5), x, t)) == 0
  {
    hide Simple, On, Mix, Cross, Winding, Off;
    var a, b := r[k], After(r, k);
    var h := Mix(a, b, 0.5);
    var g := Mix(h, x, -1.0);
    MiddleOn(a, b);
    Reflection(a, b, h, x);
    var h';
    h', t := Sides(r, k, g);
    MixBack(h, x, t);
  }

  lemma {:induction false} Reflection(a: Pt, b: Pt, h: Pt, x: Pt)
    requires Cross(a, b, h) == 0.0
    ensures Cross(a, b, Mix(h, x, -1.0)) == -Cross(a, b, x)
  {
    CrossMix(a, b, h, x, -1.0);
    hide Cross;
  }

  /** From the line to its right: on the right. */
  lemma {:induction false} SideScaled(t: real, f: real, g: real, x: real)
    requires 0.0 < t && f == 0.0 && g < 0.0 && x == (1.0 - t) * f + t * g
    ensures x < 0.0
  {
    Signs(t, g);
  }

  lemma {:induction false} MiddleOn(a: Pt, b: Pt)
    ensures Cross(a, b, Mix(a, b, 0.5)) == 0.0 && On(a, b, Mix(a, b, 0.5))
  {
    OnMix(a, b, 0.5);
    OnLine(a, b, Mix(a, b, 0.5));
  }

  lemma {:induction false} MixBack(h: Pt, e: Pt, t: real)
    ensures Mix(h, Mix(h, e, -1.0), -t) == Mix(h, e, t)
  {
    MixOfMixes(h, e, 0.0, -1.0, -t);
    assert Mix(h, e, 0.0) == h && Moved(0.0, -1.0, -t) == t;
    hide Mix, Moved;
  }

  /** Where a point lies to a corner's sides, halfway between two others. */
  lemma {:induction false} Halfway(a: Pt, b: Pt, u: Pt, v: Pt)
    ensures 2.0 * Cross(a, b, Mix(u, v, 0.5)) == Cross(a, b, u) + Cross(a, b, v)
  {
  }

  /** From the diagonal's middle to a point of the reach beside it: a part that lies on the
      other side of the diagonal does not wind round it. */
  lemma {:induction false} BesideDiagonal(s: seq<Pt>, k: nat, a: Pt, b: Pt, r: seq<Pt>, j: nat, x: Pt)
    requires Reach(s, k, a, b) && Part(s, s[k], r, j) && Simple(r) && OnceRound(r)
    requires InCorner(a, s[0], b, x) && Cross(b, a, x) > 0.0 && Cross(r[j], After(r, j), x) < 0.0
    requires Cross(a, s[0], x) > 0.0 || !IsEdge(r, s[|s| - 1], s[0])
    requires Cross(s[0], b, x) > 0.0 || !IsEdge(r, s[0], s[1])
    ensures Winding(r, x) == 0
  {
    var p, m, n, z := s[|s| - 1], s[0], s[1], s[k];
    var u, v := r[j], After(r, j);
    var h := Mix(u, v, 0.5);
    MiddleOn(u, v);
    MiddleOfDiagonal(a, m, b, z, u, v);
    hide Simple, On, Mix, Cross, Winding, InCorner;
    forall c, d, w | IsEdge(r, c, d) && On(c, d, w) && On(h, x, w) ensures w == h {
      InCornerMix(a, m, b, h, x, w);
      SideOfMix(b, a, h, x, w);
      OnBack(h, x, w);
      SideOfMix(a, m, h, x, w);
      SideOfMix(m, b, h, x, w);
      BackCross(u, v, x);
      BackCross(u, v, h);
      SideOfMix(v, u, x, h, w);
      EdgeEnds(s, p, m);
      EdgeEnds(s, m, n);
      if c == u && d == v {
        OnLine(u, v, w);
        BackCross(u, v, w);
      } else if c == p {
        EdgeEnds(s, c, d);
        OnBack(p, m, w);
        OnSameLine(m, p, a, w);
      } else if c == m {
        EdgeEnds(s, c, d);
        OnSameLine(m, n, b, w);
      } else {
        ZoneFree(s, p, m, n, a, b, c, d, w);
      }
    }
    RightOfEdge(r, j, x);
  }

  lemma {:induction false} MiddleOfDiagonal(a: Pt, m: Pt, b: Pt, z: Pt, u: Pt, v: Pt)
    requires (u == m && v == z) || (u == z && v == m)
    requires Cross(a, m, b) > 0.0 && InCorner(a, m, b, z) && Cross(a, m, z) > 0.0 && Cross(m, b, z) > 0.0
    ensures var h := Mix(u, v, 0.5); InCorner(a, m, b, h) && Cross(a, m, h) > 0.0 && Cross(m, b, h) > 0.0 && Cross(b, a, h) > 0.0
  {
    CornerCrosses(a, m, b);
    Halfway(a, m, u, v);
    Halfway(m, b, u, v);
    Halfway(b, a, u, v);
    hide Cross, Mix;
  }

  /** Along an edge of the polygon that the part does not have, away from the part's vertices,
      nothing of the part is in the way. */
  lemma {:induction false} StripMisses(s: seq<Pt>, k: nat, a: Pt, b: Pt, r: seq<Pt>, j: nat, u: Pt, v: Pt, x: Pt, y: Pt)
    requires Reach(s, k, a, b) && Part(s, s[k], r, j)
    requires IsEdge(s, u, v) && !IsEdge(r, u, v) && On(u, v, x) && On(u, v, y)
    requires (u in r ==> !On(x, y, u)) && (v in r ==> !On(x, y, v))
    ensures Misses(r, x, y)
  {
    EdgeAt(r, j);
    hide On, Cross, InCorner, Empty;
    forall c, d, w | IsEdge(r, c, d) && On(c, d, w) && On(x, y, w) ensures false {
      OnPart(u, v, x, y, w);
      if c == r[j] && d == After(r, j) {
        if c == s[k] { OnBack(c, d, w); }
        DiagonalAlone(s, k, a, b, u, v, w);
        VertexOnEdge(s, w, u, v);
      } else {
        EdgeEnds(s, u, v);
        SimpleMeet(s, u, v, c, d, w);
      }
    }
  }

  lemma {:induction false} PartOff(s: seq<Pt>, k: nat, a: Pt, b: Pt, r: seq<Pt>, j: nat, v: Pt)
    requires Reach(s, k, a, b) && Part(s, s[k], r, j) && v in s && v !in r
    ensures Off(r, v)
  {
    EdgeAt(r, j);
    hide On, Cross, InCorner, Empty;
    forall c, d | IsEdge(r, c, d) ensures !On(c, d, v) {
      if On(c, d, v) {
        if c == r[j] && d == After(r, j) {
          var u, w := EdgesOf(s, v);
          OnEnds(v, w);
          if c == s[k] { OnBack(c, d, v); }
          DiagonalAlone(s, k, a, b, v, w, v);
        } else {
          VertexOnEdge(s, v, c, d);
        }
      }
    }
  }

  // ---------------------------------------------------------------- the two parts

  function Front(s: seq<Pt>, k: nat): seq<Pt>
    requires k < |s|
  {
    s[..k + 1]
  }

  function Back(s: seq<Pt>, k: nat): seq<Pt>
    requires k < |s|
  {
    [s[0]] + s[k..]
  }

  lemma {:induction false} FrontPart(s: seq<Pt>, k: nat)
    requires Simple(s) && 2 <= k < |s| - 1
    ensures Part(s, s[k], Front(s, k), k)
  {
    var r := Front(s, k);
    forall c, d | IsEdge(r, c, d) ensures c in r && d in r && ((c == r[k] && d == After(r, k)) || (IsEdge(s, c, d) && c != r[k])) {
      var i: nat :| i < |r| && r[i] == c && After(r, i) == d;
      if i < k { assert s[i] == c && After(s, i) == d; }
    }
  }

  lemma {:induction false} BackPart(s: seq<Pt>, k: nat)
    requires Simple(s) && 2 <= k < |s| - 1
    ensures Part(s, s[k], Back(s, k), 0)
  {
    var r := Back(s, k);
    forall c, d | IsEdge(r, c, d) ensures c in r && d in r && ((c == r[0] && d == After(r, 0)) || (IsEdge(s, c, d) && c != r[0])) {
      var i: nat :| i < |r| && r[i] == c && After(r, i) == d;
      if i > 0 { assert s[k + i - 1] == c && After(s, k + i - 1) == d; }
    }
  }

  /** A corner's side goes on as its cut does. */
  lemma {:induction false} SideGoesOn(m: Pt, b: Pt, p: Pt, a: Pt)
    requires On(m, p, a) && Cross(m, b, a) > 0.0
    ensures Cross(m, b, p) > 0.0
  {
    assert Cross(m, b, m) == 0.0;
    SideOfMix(m, b, m, p, a);
  }

  lemma {:induction false} SideGoesBack(a: Pt, m: Pt, n: Pt, b: Pt)
    requires On(m, n, b) && Cross(a, m, b) > 0.0
    ensures Cross(a, m, n) > 0.0
  {
    assert Cross(a, m, m) == 0.0;
    SideOfMix(a, m, m, n, b);
  }

  lemma {:induction false} CrossTurns(a: Pt, m: Pt, z: Pt)
    ensures Cross(z, m, a) == -Cross(a, m, z) && Cross(m, z, a) == -Cross(m, a, z) && Cross(m, z, a) == Cross(a, m, z)
  {
  }

  /** Halfway along a side of the reach: in the corner, on that side, clear of the other. */
  lemma {:induction false} HalfSide(a: Pt, m: Pt, b: Pt)
    requires Cross(a, m, b) > 0.0
    ensures var x := Mix(m, a, 0.5); InCorner(a, m, b, x) && Cross(b, a, x) > 0.0 && Cross(m, b, x) > 0.0
    ensures var x := Mix(m, b, 0.5); InCorner(a, m, b, x) && Cross(b, a, x) > 0.0 && Cross(a, m, x) > 0.0
  {
    CornerCrosses(a, m, b);
    Halfway(a, m, m, a);
    Halfway(m, b, m, a);
    Halfway(b, a, m, a);
    Halfway(a, m, m, b);
    Halfway(m, b, m, b);
    Halfway(b, a, m, b);
    hide Cross, Mix;
  }

  /** The front part does not wind round the last vertex. */
  lemma {:induction false} FrontLast(s: seq<Pt>, k: nat, a: Pt, b: Pt)
    requires Reach(s, k, a, b) && Simple(Front(s, k)) && OnceRound(Front(s, k))
    ensures Winding(Front(s, k), s[|s| - 1]) == 0
  {
    var p, m, z, r := s[|s| - 1], s[0], s[k], Front(s, k);
    var x := Mix(m, a, 0.5);
    FrontPart(s, k);
    EdgeAt(s, |s| - 1);
    HalfSide(a, m, b);
    Halfway(z, m, m, a);
    CornerCrosses(a, m, b);
    CornerCrosses(z, m, a);
    CrossTurns(a, m, z);
    SideGoesOn(m, b, p, a);
    assert p !in r;
    OnEnds(p, m);
    OnEnds(m, a);
    OnMix(m, a, 0.5);
    OnEnds(m, p);
    OnPart(m, p, m, a, x);
    OnBack(m, p, x);
    assert Cross(m, b, m) == 0.0;
    hide On, Mix, Cross, InCorner, Winding, Simple;
    BesideDiagonal(s, k, a, b, r, k, x);
    if On(x, p, m) { SideOfMix(m, b, x, p, m); }
    StripMisses(s, k, a, b, r, k, p, m, x, p);
    MissesSteady(r, x, p);
  }

  /** Nor round any other vertex it leaves out. */
  lemma {:induction false} FrontOutside(s: seq<Pt>, k: nat, a: Pt, b: Pt, i: nat)
    requires Reach(s, k, a, b) && Simple(Front(s, k)) && OnceRound(Front(s, k)) && k < i < |s|
    ensures Winding(Front(s, k), s[i]) == 0 && Off(Front(s, k), s[i])
    decreases |s| - i
  {
    var r := Front(s, k);
    FrontPart(s, k);
    assert s[i] !in r;
    PartOff(s, k, a, b, r, k, s[i]);
    if i == |s| - 1 {
      FrontLast(s, k, a, b);
    } else {
      FrontOutside(s, k, a, b, i + 1);
      EdgeAt(s, i);
      assert s[i + 1] !in r;
      OnEnds(s[i], s[i + 1]);
      hide On, Cross, InCorner, Winding, Simple;
      StripMisses(s, k, a, b, r, k, s[i], s[i + 1], s[i], s[i + 1]);
      MissesSteady(r, s[i], s[i + 1]);
    }
  }

  /** The back part does not wind round the second vertex. */
  lemma {:induction false} BackSecond(s: seq<Pt>, k: nat, a: Pt, b: Pt)
    requires Reach(s, k, a, b) && Simple(Back(s, k)) && OnceRound(Back(s, k))
    ensures Winding(Back(s, k), s[1]) == 0
  {
    var m, n, z, r := s[0], s[1], s[k], Back(s, k);
    var x := Mix(m, b, 0.5);
    BackPart(s, k);
    EdgeAt(s, 0);
    HalfSide(a, m, b);
    Halfway(m, z, m, b);
    CornerCrosses(a, m, b);
    CornerCrosses(m, z, b);
    CrossTurns(b, m, z);
    SideGoesBack(a, m, n, b);
    assert n !in r;
    OnEnds(m, n);
    OnEnds(m, b);
    OnMix(m, b, 0.5);
    OnPart(m, n, m, b, x);
    assert Cross(a, m, m) == 0.0 && Cross(m, z, m) == 0.0;
    hide On, Mix, Cross, InCorner, Winding, Simple;
    BesideDiagonal(s, k, a, b, r, 0, x);
    if On(x, n, m) { SideOfMix(a, m, x, n, m); }
    StripMisses(s, k, a, b, r, 0, m, n, x, n);
    MissesSteady(r, x, n);
  }

  /** Nor round any other vertex it leaves out. */
  lemma {:induction false} BackOutside(s: seq<Pt>, k: nat, a: Pt, b: Pt, i: nat)
    requires Reach(s, k, a, b) && Simple(Back(s, k)) && OnceRound(Back(s, k)) && 0 < i < k
    ensures Winding(Back(s, k), s[i]) == 0 && Off(Back(s, k), s[i])
    decreases i
  {
    var r := Back(s, k);
    BackPart(s, k);
    assert s[i] !in r;
    PartOff(s, k, a, b, r, 0, s[i]);
    if i == 1 {
      BackSecond(s, k, a, b);
    } else {
      BackOutside(s, k, a, b, i - 1);
      EdgeAt(s, i - 1);
      assert s[i - 1] !in r;
      OnEnds(s[i - 1], s[i]);
      hide On, Cross, InCorner, Winding, Simple;
      StripMisses(s, k, a, b, r, 0, s[i - 1], s[i], s[i - 1], s[i]);
      MissesSteady(r, s[i - 1], s[i]);
    }
  }
}
