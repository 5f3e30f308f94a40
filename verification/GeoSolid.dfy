// The extruded solid, the closed-manifold test on welded vertices, and the volume that
// test licenses.
module GeoSolid {
  import opened GeoBudget
  import opened GeoTriangulate
  import opened GeoManifold
  import opened GeoShell
  import opened PolySimple
  import opened PolyClip

  datatype V3 = V3(x: real, y: real, z: real)

  function Plus(a: V3, b: V3): V3 { V3(a.x + b.x, a.y + b.y, a.z + b.z) }
  function Times(a: V3, s: real): V3 { V3(a.x * s, a.y * s, a.z * s) }
  function Dot(a: V3, b: V3): real { a.x * b.x + a.y * b.y + a.z * b.z }
  function CrossV(a: V3, b: V3): V3 {
    V3(a.y * b.z - a.z * b.y, a.z * b.x - a.x * b.z, a.x * b.y - a.y * b.x)
  }

  /** Six times the signed volume of the tetrahedron from the origin. */
  function Det(a: V3, b: V3, c: V3): real { Dot(a, CrossV(b, c)) }

  // ---------------------------------------------------------------- extrusion

  /** Vertex `i` of an extrusion by `h`: the bottom ring, then the top ring, each placed. */
  function RingPoint(poly: seq<Pt>, h: V3, place: V3 -> V3, i: nat): V3
    requires i < 2 * |poly|
  {
    if i < |poly| then place(V3(poly[i].x, poly[i].y, 0.0))
    else place(V3(poly[i - |poly|].x + h.x, poly[i - |poly|].y + h.y, h.z))
  }

  function Rings(poly: seq<Pt>, h: V3, place: V3 -> V3): (vs: seq<V3>)
    ensures |vs| == 2 * |poly|
  {
    seq(2 * |poly|, i requires 0 <= i < 2 * |poly| => RingPoint(poly, h, place, i))
  }

  method ExtrudeRings(poly: seq<Pt>, depth: real, dir: V3, place: V3 -> V3) returns (verts: seq<V3>, ok: bool)
    ensures ok <==> |poly| >= 3 && depth != 0.0
    ensures ok ==> verts == Rings(poly, Times(dir, depth), place)
  {
    verts := [];
    if |poly| < 3 || depth == 0.0 {
      return verts, false;
    }
    var h := Times(dir, depth);
    ghost var n := |poly|;
    for i := 0 to |poly|
      invariant |verts| == i && forall j :: 0 <= j < i ==> verts[j] == RingPoint(poly, h, place, j)
    {
      verts := verts + [place(V3(poly[i].x, poly[i].y, 0.0))];
    }
    for i := 0 to |poly|
      invariant |verts| == n + i && forall j :: 0 <= j < n + i ==> verts[j] == RingPoint(poly, h, place, j)
    {
      var top := V3(poly[i].x + h.x, poly[i].y + h.y, h.z);
      assert RingPoint(poly, h, place, n + i) == place(top);
      verts := verts + [place(top)];
    }
    ok := true;
  }

  /** Every bottom vertex is a profile point placed, and every top one the same point carried along
      the extrusion and placed. */
  predicate Carried(poly: seq<Pt>, along: V3, place: V3 -> V3, verts: seq<V3>) {
    && |verts| == 2 * |poly|
    && (forall i :: 0 <= i < |poly| ==> verts[i] == place(V3(poly[i].x, poly[i].y, 0.0)))
    && forall i :: 0 <= i < |poly| ==> verts[|poly| + i] == place(V3(poly[i].x + along.x, poly[i].y + along.y, along.z))
  }

  lemma {:induction false} RingsCarried(poly: seq<Pt>, h: V3, place: V3 -> V3)
    ensures Carried(poly, h, place, Rings(poly, h, place))
  {
  }

  /** Appends the side walls. */
  method AppendWalls(n: nat) returns (tris: seq<nat>)
    requires n > 0
    ensures |tris| % 3 == 0 && Tris(tris) == Walls(n, n)
  {
    hide Tris, Succ;
    tris := [];
    NoFlat();
    for i := 0 to n
      invariant |tris| % 3 == 0 && Tris(tris) == Walls(n, i)
    {
      var j := (i + 1) % n;
      NextIsSucc(n, i);
      TrisAppend(tris, i, j, n + j);
      TrisAppend(tris + [i, j, n + j], i, n + j, n + i);
      tris := tris + [i, j, n + j] + [i, n + j, n + i];
    }
  }

  lemma {:induction false} NoFlat()
    ensures Tris([]) == []
  {
  }

  lemma {:induction false} NextIsSucc(n: nat, i: nat)
    requires i < n
    ensures (i + 1) % n == Succ(n, i)
  {
  }

  /** Appends both caps from one triangulation. */
  method AppendCaps(n: nat, walls: seq<nat>, cap: seq<Tri>) returns (tris: seq<nat>)
    requires |walls| % 3 == 0
    ensures |tris| % 3 == 0 && Tris(tris) == Tris(walls) + Caps(n, cap)
  {
    tris := walls;
    for k := 0 to |cap|
      invariant |tris| % 3 == 0 && Tris(tris) == Tris(walls) + Caps(n, cap[..k])
    {
      var t := cap[k];
      assert cap[..k + 1][..k] == cap[..k];
      TrisAppend(tris, t.a, t.c, t.b);
      TrisAppend(tris + [t.a, t.c, t.b], n + t.a, n + t.b, n + t.c);
      tris := tris + [t.a, t.c, t.b] + [n + t.a, n + t.b, n + t.c];
    }
    assert cap[..|cap|] == cap;
  }

  // ---------------------------------------------------------------- welding

  type Key = (int, int, int)
  type KeyEdge = (Key, Key)
  datatype KeyTri = KeyTri(a: Key, b: Key, c: Key)

  /** Rounds half away from zero. */
  function Round(r: real): int { if r >= 0.0 then (r + 0.5).Floor else -((-r + 0.5).Floor) }

  const WELD: real := 100000.0

  function WeldKey(v: V3): Key { (Round(v.x * WELD), Round(v.y * WELD), Round(v.z * WELD)) }

  /** The whole number nearest to `r`, halves going away from zero. */
  predicate Nearest(r: real, k: int) {
    var d := r - k as real;
    -0.5 <= d <= 0.5 && (d == 0.5 ==> r < 0.0) && (d == -0.5 ==> r > 0.0)
  }

  lemma {:induction false} RoundExact(r: real, k: int)
    ensures Round(r) == k <==> Nearest(r, k)
  {
    var u := if r >= 0.0 then r + 0.5 else -r + 0.5;
    var m := if r >= 0.0 then k else -k;
    assert m as real == if r >= 0.0 then k as real else -(k as real);
    assert u.Floor == m <==> m as real <= u < m as real + 1.0;
  }

  /** A weld key names the point of a hundred-thousandth grid nearest to the vertex, so vertices
      weld together when they share one and are then that close along every axis. */
  lemma {:induction false} WeldKeyExact(v: V3, w: V3, k: Key)
    ensures WeldKey(v) == k <==> Nearest(v.x * 100000.0, k.0) && Nearest(v.y * 100000.0, k.1) && Nearest(v.z * 100000.0, k.2)
    ensures WeldKey(v) == WeldKey(w) ==> -0.00001 <= v.x - w.x <= 0.00001 && -0.00001 <= v.y - w.y <= 0.00001 && -0.00001 <= v.z - w.z <= 0.00001
  {
    RoundExact(v.x * WELD, k.0);
    RoundExact(v.y * WELD, k.1);
    RoundExact(v.z * WELD, k.2);
    RoundClose(v.x, w.x);
    RoundClose(v.y, w.y);
    RoundClose(v.z, w.z);
    hide Round, Nearest;
  }

  lemma {:induction false} RoundClose(a: real, b: real)
    ensures Round(a * WELD) == Round(b * WELD) ==> -0.00001 <= a - b <= 0.00001
  {
    RoundExact(a * WELD, Round(a * WELD));
    RoundExact(b * WELD, Round(b * WELD));
    hide Round;
  }

  function WeldKeys(verts: seq<V3>): (ks: seq<Key>)
    ensures |ks| == |verts|
  {
    seq(|verts|, i requires 0 <= i < |verts| => WeldKey(verts[i]))
  }

  predicate IndexesIn(ts: seq<Tri>, n: nat) {
    forall t <- ts :: t.a < n && t.b < n && t.c < n
  }

  function Welded(keys: seq<Key>, ts: seq<Tri>): (ks: seq<KeyTri>)
    requires IndexesIn(ts, |keys|)
    ensures |ks| == |ts|
  {
    seq(|ts|, k requires 0 <= k < |ts| => assert ts[k] in ts; KeyTri(keys[ts[k].a], keys[ts[k].b], keys[ts[k].c]))
  }

  function KeyOne(e: KeyEdge, f: KeyEdge): nat { if e == f then 1 else 0 }

  function KeyTriCount(t: KeyTri, e: KeyEdge): nat {
    KeyOne((t.a, t.b), e) + KeyOne((t.b, t.c), e) + KeyOne((t.c, t.a), e)
  }

  /** How often welded triangles walk a directed edge between weld keys. */
  function KeyCount(ts: seq<KeyTri>, e: KeyEdge): nat {
    if ts == [] then 0 else KeyCount(ts[..|ts| - 1], e) + KeyTriCount(ts[|ts| - 1], e)
  }

  predicate Proper(t: KeyTri) { t.a != t.b && t.b != t.c && t.a != t.c }

  ghost predicate KeyBalanced(ts: seq<KeyTri>) {
    forall e: KeyEdge {:trigger KeyCount(ts, e)} :: KeyCount(ts, e) <= 1 && KeyCount(ts, e) == KeyCount(ts, (e.1, e.0))
  }

  /** A closed, consistently wound 2-manifold: at least a tetrahedron's faces, whole and in
      range, none degenerate once welded, every directed edge at most once, and its reverse
      exactly as often. */
  ghost predicate Closed(keys: seq<Key>, flat: seq<nat>) {
    && |flat| >= 12 && |flat| % 3 == 0
    && IndexesIn(Tris(flat), |keys|)
    && (forall k <- Welded(keys, Tris(flat)) :: Proper(k))
    && KeyBalanced(Welded(keys, Tris(flat)))
  }

  // ---------------------------------------------------------------- distinct keys

  predicate DistinctKeys(keys: seq<Key>) {
    forall i, j :: 0 <= i < j < |keys| ==> keys[i] != keys[j]
  }

  lemma {:induction false} CountByKey(keys: seq<Key>, ts: seq<Tri>, e: Edge)
    requires DistinctKeys(keys) && IndexesIn(ts, |keys|) && e.0 < |keys| && e.1 < |keys|
    ensures KeyCount(Welded(keys, ts), (keys[e.0], keys[e.1])) == TrisCount(ts, e)
  {
    if ts != [] {
      var front := ts[..|ts| - 1];
      assert forall t <- front :: t in ts;
      CountByKey(keys, front, e);
      assert ts[|ts| - 1] in ts;
      assert Welded(keys, ts)[..|ts| - 1] == Welded(keys, front);
    }
  }

  lemma {:induction false} CountOffKeys(keys: seq<Key>, ts: seq<Tri>, e: KeyEdge)
    requires IndexesIn(ts, |keys|) && (e.0 !in keys || e.1 !in keys)
    ensures KeyCount(Welded(keys, ts), e) == 0
  {
    if ts != [] {
      var front := ts[..|ts| - 1];
      assert forall t <- front :: t in ts;
      CountOffKeys(keys, front, e);
      assert ts[|ts| - 1] in ts;
      assert Welded(keys, ts)[..|ts| - 1] == Welded(keys, front);
    }
  }

  lemma {:induction false} CountOutside(ts: seq<Tri>, n: nat, e: Edge)
    requires IndexesIn(ts, n) && (e.0 >= n || e.1 >= n)
    ensures TrisCount(ts, e) == 0
  {
    if ts != [] {
      assert ts[|ts| - 1] in ts;
      CountOutside(ts[..|ts| - 1], n, e);
    }
  }

  /** With pairwise distinct weld keys, balance by key is balance by index. */
  lemma {:induction false} BalancedByKey(keys: seq<Key>, ts: seq<Tri>)
    requires DistinctKeys(keys) && IndexesIn(ts, |keys|)
    ensures KeyBalanced(Welded(keys, ts)) <==> Balanced(ts)
  {
    var ks := Welded(keys, ts);
    if Balanced(ts) {
      forall e: KeyEdge ensures KeyCount(ks, e) <= 1 && KeyCount(ks, e) == KeyCount(ks, (e.1, e.0)) {
        if e.0 in keys && e.1 in keys {
          var i :| 0 <= i < |keys| && keys[i] == e.0;
          var j :| 0 <= j < |keys| && keys[j] == e.1;
          CountByKey(keys, ts, (i, j));
          CountByKey(keys, ts, (j, i));
          assert TrisCount(ts, (i, j)) == TrisCount(ts, Rev((i, j)));
        } else {
          CountOffKeys(keys, ts, e);
          CountOffKeys(keys, ts, (e.1, e.0));
        }
      }
    }
    if KeyBalanced(ks) {
      forall e: Edge ensures TrisCount(ts, e) <= 1 && TrisCount(ts, e) == TrisCount(ts, Rev(e)) {
        if e.0 < |keys| && e.1 < |keys| {
          CountByKey(keys, ts, e);
          CountByKey(keys, ts, Rev(e));
          assert KeyCount(ks, (keys[e.0], keys[e.1])) <= 1;
        } else {
          CountOutside(ts, |keys|, e);
          CountOutside(ts, |keys|, Rev(e));
        }
      }
    }
  }

  /** The shell's triangles are in range and never repeat a vertex. */
  lemma {:induction false} WallsSound(n: nat, k: nat)
    requires n >= 3 && k <= n
    ensures |Walls(n, k)| == 2 * k
    ensures forall t <- Walls(n, k) :: t.a < 2 * n && t.b < 2 * n && t.c < 2 * n && t.a != t.b && t.b != t.c && t.a != t.c
  {
    if k > 0 { WallsSound(n, k - 1); }
  }

  predicate Faces(t: Tri, n: nat) { t.a < n && t.b < n && t.c < n && t.a != t.b && t.b != t.c && t.a != t.c }

  lemma {:induction false} CapsSound(n: nat, cap: seq<Tri>)
    requires forall t <- cap :: Faces(t, n)
    ensures |Caps(n, cap)| == 2 * |cap|
    ensures forall t <- Caps(n, cap) :: Faces(t, 2 * n)
  {
    if cap != [] {
      assert cap[|cap| - 1] in cap;
      CapsSound(n, cap[..|cap| - 1]);
    }
  }

  lemma {:induction false} EmittedProper(poly: seq<Pt>, start: seq<nat>)
    requires InRange(poly, start) && Distinct(start) && |start| >= 3
    ensures forall t <- Emitted(poly, start) :: Faces(t, |poly|)
    decreases |start|
  {
    if |start| > 3 {
      hide Emitted, FirstEar, Distinct;
      EmittedStep(poly, start);
      var i := FirstEar(poly, start, 0);
      if i < |start| {
        ChordIsNew(start, i);
        RemovedDistinct(start, i);
        EmittedProper(poly, RemoveAt(start, i));
        assert forall v <- start :: v < |poly|;
      }
    }
  }

  /** Exactly when the manifold test accepts an extruded profile whose vertices weld to
      distinct keys: the profile is clean and not clockwise, and clipping comes down to one
      triangle. Holds for every profile, simple or not. */
  lemma {:induction false} ExtrudedClosedIff(poly: seq<Pt>, keys: seq<Key>, flat: seq<nat>)
    requires |poly| >= 3
    requires |keys| == 2 * |poly| && DistinctKeys(keys)
    requires |flat| % 3 == 0 && Tris(flat) == Shell(|poly|, Cap(poly))
    ensures Closed(keys, flat) <==>
      Clean(poly, Tolerance(poly)) && LoopShoe(poly, Identity(|poly|)) >= 0.0 && Completed(poly, Start(poly, Tolerance(poly)))
  {
    hide Emitted, Completed, LoopShoe, Walls, Caps, Balanced, KeyBalanced, Start, Clean, Tolerance;
    var n, eps, ts := |poly|, Tolerance(poly), Tris(flat);
    var start := Start(poly, eps);
    StartLoop(poly, eps);
    if |start| >= 3 { EmittedProper(poly, start); }
    ShellSound(n, Cap(poly));
    assert forall t <- ts :: Faces(t, 2 * n);
    BalancedByKey(keys, ts);
    ShellBalancedIff(poly, eps);
    WeldedProper(keys, ts);
  }

  /** For a simple profile wound counter-clockwise, exactly when the profile is clean. */
  lemma {:induction false} SimpleClosedIff(poly: seq<Pt>, keys: seq<Key>, flat: seq<nat>)
    requires Simple(poly) && LoopShoe(poly, Identity(|poly|)) >= 0.0
    requires |keys| == 2 * |poly| && DistinctKeys(keys)
    requires |flat| % 3 == 0 && Tris(flat) == Shell(|poly|, Cap(poly))
    ensures Closed(keys, flat) <==> Clean(poly, Tolerance(poly))
  {
    assert |poly| >= 3;
    hide Simple, Completed, LoopShoe, Closed, Start, Clean, Tolerance, Shell, Tris, Cap, DistinctKeys;
    ExtrudedClosedIff(poly, keys, flat);
    if Clean(poly, Tolerance(poly)) { CleanRun(poly, Tolerance(poly)); }
  }

  /** Tessellates an extruded profile: side walls, then a bottom and a top cap from one
      triangulation. It answers for every profile of three points or more and every depth but
      zero, unless the budget runs out or the cap does not cover the profile. */
  method ExtrudeSolid(poly: seq<Pt>, depth: real, dir: V3, place: V3 -> V3, b: Budget?)
    returns (verts: seq<V3>, tris: seq<nat>, ok: bool)
    modifies b
    ensures ok ==> |poly| >= 3 && depth != 0.0 && !Exhausted(b) && Covers(poly)
    ensures |poly| >= 3 && depth != 0.0 && !Exhausted(b) && Covers(poly) ==> ok
    ensures ok ==> verts == Rings(poly, Times(dir, depth), place)
    ensures ok ==> |tris| % 3 == 0 && Tris(tris) == Shell(|poly|, Cap(poly))
    ensures |poly| >= 3 && depth != 0.0 && !Exhausted(b) && Simple(poly) && Clean(poly, Tolerance(poly)) ==> ok
    ensures ok && Simple(poly) && LoopShoe(poly, Identity(|poly|)) >= 0.0 && DistinctKeys(WeldKeys(verts)) ==>
      (Closed(WeldKeys(verts), tris) <==> Clean(poly, Tolerance(poly)))
  {
    hide Covers, Cap, Rings, Shell, Tris, Clean, Simple, LoopShoe, Closed, DistinctKeys, WeldKeys, Tolerance;
    tris := [];
    verts, ok := ExtrudeRings(poly, depth, dir, place);
    if !ok {
      return;
    }
    if Simple(poly) && Clean(poly, Tolerance(poly)) { SimpleCovers(poly); }
    var cap;
    cap, ok := TriangulatePolygon(poly, b);
    if !ok {
      return;
    }
    tris := AppendWalls(|poly|);
    tris := AppendCaps(|poly|, tris, cap);
    ShellIsBoth(|poly|, cap);
    if Simple(poly) && LoopShoe(poly, Identity(|poly|)) >= 0.0 && DistinctKeys(WeldKeys(verts)) {
      SimpleClosedIff(poly, WeldKeys(verts), tris);
    }
  }

  lemma {:induction false} ShellIsBoth(n: nat, cap: seq<Tri>)
    ensures Shell(n, cap) == Walls(n, n) + Caps(n, cap)
  {
  }

  lemma {:induction false} ShellSound(n: nat, cap: seq<Tri>)
    requires n >= 3 && forall t <- cap :: Faces(t, n)
    ensures |Shell(n, cap)| >= 2 * n && forall t <- Shell(n, cap) :: Faces(t, 2 * n)
  {
    WallsSound(n, n);
    CapsSound(n, cap);
  }

  lemma {:induction false} WeldedProper(keys: seq<Key>, ts: seq<Tri>)
    requires DistinctKeys(keys) && forall t <- ts :: Faces(t, |keys|)
    ensures IndexesIn(ts, |keys|) && forall k <- Welded(keys, ts) :: Proper(k)
  {
    forall k | k in Welded(keys, ts) ensures Proper(k) {
      var i :| 0 <= i < |ts| && Welded(keys, ts)[i] == k;
      assert Faces(ts[i], |keys|);
    }
  }

  // ---------------------------------------------------------------- the manifold test

  function Get(m: map<Edge, nat>, e: Edge): nat { if e in m then m[e] else 0 }

  /** The two maps of the test after some triangles: ids name distinct weld keys, and the
      directed map counts id edges as the welded triangles walk the edges they name. */
  ghost predicate Tallied(names: seq<Key>, weld: map<Key, nat>, directed: map<Edge, nat>, ks: seq<KeyTri>) {
    && (forall k :: k in weld <==> k in names)
    && (forall k <- weld :: weld[k] < |names| && names[weld[k]] == k)
    && (forall i :: 0 <= i < |names| ==> names[i] in weld && weld[names[i]] == i)
    && (forall e <- directed :: e.0 < |names| && e.1 < |names| && directed[e] >= 1)
    && (forall t <- ks :: t.a in names && t.b in names && t.c in names)
    && (forall i, j :: 0 <= i < |names| && 0 <= j < |names| ==> Get(directed, (i, j)) == KeyCount(ks, (names[i], names[j])))
  }

  lemma {:induction false} KeyCountOff(ks: seq<KeyTri>, names: seq<Key>, e: KeyEdge)
    requires (forall t <- ks :: t.a in names && t.b in names && t.c in names) && (e.0 !in names || e.1 !in names)
    ensures KeyCount(ks, e) == 0
  {
    if ks != [] {
      assert ks[|ks| - 1] in ks;
      KeyCountOff(ks[..|ks| - 1], names, e);
    }
  }

  /** The id of a vertex's weld key, a new one on first sight. */
  method WeldId(k: Key, ghost names: seq<Key>, weld: map<Key, nat>, ghost directed: map<Edge, nat>, ghost ks: seq<KeyTri>)
    returns (id: nat, ghost names': seq<Key>, weld': map<Key, nat>)
    requires Tallied(names, weld, directed, ks) && |weld| == |names|
    ensures Tallied(names', weld', directed, ks) && |weld'| == |names'|
    ensures names <= names' && id < |names'| && names'[id] == k
  {
    if k in weld {
      return weld[k], names, weld;
    }
    id := |weld|;
    names', weld' := names + [k], weld[k := id];
    forall i, j | 0 <= i < |names'| && 0 <= j < |names'| ensures Get(directed, (i, j)) == KeyCount(ks, (names'[i], names'[j])) {
      if i == id || j == id { KeyCountOff(ks, names, (names'[i], names'[j])); }
    }
  }

  /** The ids of a triangle's three corners. */
  method WeldCorners(verts: seq<V3>, f: Tri, ghost names: seq<Key>, weld: map<Key, nat>, ghost directed: map<Edge, nat>, ghost ks: seq<KeyTri>)
    returns (a: nat, b: nat, c: nat, ghost names': seq<Key>, weld': map<Key, nat>)
    requires f.a < |verts| && f.b < |verts| && f.c < |verts|
    requires Tallied(names, weld, directed, ks) && |weld| == |names|
    ensures Tallied(names', weld', directed, ks) && |weld'| == |names'|
    ensures a < |names'| && b < |names'| && c < |names'|
    ensures var keys := WeldKeys(verts); names'[a] == keys[f.a] && names'[b] == keys[f.b] && names'[c] == keys[f.c]
  {
    hide Tallied, Round;
    a, names', weld' := WeldId(WeldKey(verts[f.a]), names, weld, directed, ks);
    b, names', weld' := WeldId(WeldKey(verts[f.b]), names', weld', directed, ks);
    c, names', weld' := WeldId(WeldKey(verts[f.c]), names', weld', directed, ks);
  }

  lemma {:induction false} GetTally(directed: map<Edge, nat>, a: nat, b: nat, c: nat, e: Edge)
    requires a != b && b != c && a != c
    ensures Get(Tally(directed, a, b, c), e) == Get(directed, e) + TriCount(Tri(a, b, c), e)
  {
  }

  /** Keys named by different ids differ. */
  lemma {:induction false} NamedEdge(names: seq<Key>, weld: map<Key, nat>, p: Edge, e: Edge)
    requires p.0 < |names| && p.1 < |names| && e.0 < |names| && e.1 < |names|
    requires forall i :: 0 <= i < |names| ==> names[i] in weld && weld[names[i]] == i
    ensures KeyOne((names[p.0], names[p.1]), (names[e.0], names[e.1])) == One(p, e)
  {
    assert weld[names[p.0]] == p.0 && weld[names[p.1]] == p.1 && weld[names[e.0]] == e.0 && weld[names[e.1]] == e.1;
  }

  lemma {:induction false} NamedTri(names: seq<Key>, weld: map<Key, nat>, t: Tri, e: Edge)
    requires t.a < |names| && t.b < |names| && t.c < |names| && e.0 < |names| && e.1 < |names|
    requires forall i :: 0 <= i < |names| ==> names[i] in weld && weld[names[i]] == i
    ensures KeyTriCount(KeyTri(names[t.a], names[t.b], names[t.c]), (names[e.0], names[e.1])) == TriCount(t, e)
  {
    NamedEdge(names, weld, (t.a, t.b), e);
    NamedEdge(names, weld, (t.b, t.c), e);
    NamedEdge(names, weld, (t.c, t.a), e);
    hide KeyOne, One;
  }

  lemma {:induction false} KeyCountMore(ks: seq<KeyTri>, k: KeyTri, e: KeyEdge)
    ensures KeyCount(ks + [k], e) == KeyCount(ks, e) + KeyTriCount(k, e)
  {
    assert (ks + [k])[..|ks|] == ks;
  }

  lemma {:induction false} TallyDomain(directed: map<Edge, nat>, n: nat, a: nat, b: nat, c: nat)
    requires (forall e <- directed :: e.0 < n && e.1 < n && directed[e] >= 1) && a < n && b < n && c < n
    ensures forall e <- Tally(directed, a, b, c) :: e.0 < n && e.1 < n && Tally(directed, a, b, c)[e] >= 1
  {
  }

  lemma {:induction false} TallyStep(names: seq<Key>, weld: map<Key, nat>, directed: map<Edge, nat>, ks: seq<KeyTri>, a: nat, b: nat, c: nat)
    requires Tallied(names, weld, directed, ks) && a < |names| && b < |names| && c < |names|
    requires a != b && b != c && a != c
    ensures Tallied(names, weld, Tally(directed, a, b, c), ks + [KeyTri(names[a], names[b], names[c])])
  {
    hide KeyCount, KeyTriCount, TriCount, Tally, Get;
    var k := KeyTri(names[a], names[b], names[c]);
    TallyDomain(directed, |names|, a, b, c);
    forall i, j | 0 <= i < |names| && 0 <= j < |names|
      ensures Get(Tally(directed, a, b, c), (i, j)) == KeyCount(ks + [k], (names[i], names[j]))
    {
      GetTally(directed, a, b, c, (i, j));
      NamedTri(names, weld, Tri(a, b, c), (i, j));
      KeyCountMore(ks, k, (names[i], names[j]));
    }
  }

  /** The first `t` triangles are in range, and weld to the proper triangles `ks`. */
  ghost predicate Scanned(keys: seq<Key>, ts: seq<Tri>, t: nat, ks: seq<KeyTri>) {
    && t <= |ts| && IndexesIn(ts[..t], |keys|) && ks == Welded(keys, ts[..t])
    && (forall k <- ks :: Proper(k))
  }

  lemma {:induction false} ScanStep(keys: seq<Key>, ts: seq<Tri>, t: nat, names: seq<Key>, weld: map<Key, nat>, directed: map<Edge, nat>, ks: seq<KeyTri>, a: nat, b: nat, c: nat)
    requires Scanned(keys, ts, t, ks) && t < |ts| && Tallied(names, weld, directed, ks)
    requires ts[t].a < |keys| && ts[t].b < |keys| && ts[t].c < |keys|
    requires a < |names| && b < |names| && c < |names| && a != b && b != c && a != c
    requires names[a] == keys[ts[t].a] && names[b] == keys[ts[t].b] && names[c] == keys[ts[t].c]
    ensures var ks' := ks + [KeyTri(names[a], names[b], names[c])];
      Scanned(keys, ts, t + 1, ks') && Tallied(names, weld, Tally(directed, a, b, c), ks')
  {
    TallyStep(names, weld, directed, ks, a, b, c);
    assert ts[..t + 1] == ts[..t] + [ts[t]];
    assert weld[names[a]] == a && weld[names[b]] == b && weld[names[c]] == c;
  }

  function Tally(directed: map<Edge, nat>, a: nat, b: nat, c: nat): map<Edge, nat> {
    directed[(a, b) := Get(directed, (a, b)) + 1][(b, c) := Get(directed, (b, c)) + 1][(c, a) := Get(directed, (c, a)) + 1]
  }

  /** One triangle of the manifold test: refuses one out of range or with two welded corners,
      else counts its directed edges. */
  method ScanTriangle(verts: seq<V3>, flat: seq<nat>, t: nat, ghost names: seq<Key>, weld: map<Key, nat>, directed: map<Edge, nat>, ghost ks: seq<KeyTri>)
    returns (ok: bool, ghost names': seq<Key>, weld': map<Key, nat>, directed': map<Edge, nat>, ghost ks': seq<KeyTri>)
    requires t < |flat| / 3 && Scanned(WeldKeys(verts), Tris(flat), t, ks)
    requires Tallied(names, weld, directed, ks) && |weld| == |names|
    ensures !ok ==> !Closed(WeldKeys(verts), flat)
    ensures ok ==> Scanned(WeldKeys(verts), Tris(flat), t + 1, ks') && Tallied(names', weld', directed', ks') && |weld'| == |names'|
  {
    hide Tallied, Scanned, Round, Tally, WeldKeys, Closed;
    ok, names', weld', directed', ks' := false, names, weld, directed, ks;
    var i, j, k := flat[3 * t], flat[3 * t + 1], flat[3 * t + 2];
    assert Tris(flat)[t] == Tri(i, j, k);
    if i >= |verts| || j >= |verts| || k >= |verts| {
      OutOfRange(WeldKeys(verts), flat, t);
      return;
    }
    var a, b, c;
    a, b, c, names', weld' := WeldCorners(verts, Tri(i, j, k), names, weld, directed, ks);
    if a == b || b == c || a == c {
      NotProper(WeldKeys(verts), flat, t);
      return;
    }
    ScanStep(WeldKeys(verts), Tris(flat), t, names', weld', directed, ks, a, b, c);
    directed' := Tally(directed, a, b, c);
    ks' := ks + [KeyTri(names'[a], names'[b], names'[c])];
    ok := true;
  }

  /** The manifold test: welds vertices by key, counts directed edges, and looks for one that
      repeats or whose reverse is missing. */
  method IsClosedManifold(verts: seq<V3>, flat: seq<nat>) returns (closed: bool)
    ensures closed == Closed(WeldKeys(verts), flat)
  {
    if |flat| < 12 || |flat| % 3 != 0 {
      return false;
    }
    var weld: map<Key, nat>, directed: map<Edge, nat> := map[], map[];
    ghost var names: seq<Key>, ks: seq<KeyTri> := [], [];
    hide Tallied, KeyBalanced, Scanned, WeldKeys, Closed, Tris;
    ScanStart(WeldKeys(verts), Tris(flat));
    var t := 0;
    while t < |flat| / 3
      invariant t <= |flat| / 3 && Scanned(WeldKeys(verts), Tris(flat), t, ks)
      invariant Tallied(names, weld, directed, ks) && |weld| == |names|
    {
      var ok;
      ok, names, weld, directed, ks := ScanTriangle(verts, flat, t, names, weld, directed, ks);
      if !ok {
        return false;
      }
      t := t + 1;
    }
    ScanEnd(WeldKeys(verts), flat, ks);
    closed := EdgesPaired(directed, names, weld, ks);
  }

  lemma {:induction false} ScanEnd(keys: seq<Key>, flat: seq<nat>, ks: seq<KeyTri>)
    requires |flat| >= 12 && |flat| % 3 == 0 && Scanned(keys, Tris(flat), |flat| / 3, ks)
    ensures Closed(keys, flat) == KeyBalanced(ks)
  {
    assert Tris(flat)[..|flat| / 3] == Tris(flat);
  }

  lemma {:induction false} OutOfRange(keys: seq<Key>, flat: seq<nat>, t: nat)
    requires t < |flat| / 3
    requires var f := Tris(flat)[t]; f.a >= |keys| || f.b >= |keys| || f.c >= |keys|
    ensures !Closed(keys, flat)
  {
    assert Tris(flat)[t] in Tris(flat);
  }

  lemma {:induction false} ScanStart(keys: seq<Key>, ts: seq<Tri>)
    ensures Scanned(keys, ts, 0, []) && Tallied([], map[], map[], [])
  {
  }

  lemma {:induction false} NotProper(keys: seq<Key>, flat: seq<nat>, t: nat)
    requires t < |flat| / 3
    requires var f := Tris(flat)[t];
      f.a < |keys| && f.b < |keys| && f.c < |keys| &&
      (keys[f.a] == keys[f.b] || keys[f.b] == keys[f.c] || keys[f.a] == keys[f.c])
    ensures !Closed(keys, flat)
  {
    if IndexesIn(Tris(flat), |keys|) {
      assert Welded(keys, Tris(flat))[t] in Welded(keys, Tris(flat));
    }
  }

  /** A directed edge counted other than once, or with an unmatched reverse, breaks the balance. */
  lemma {:induction false} Unpaired(directed: map<Edge, nat>, names: seq<Key>, weld: map<Key, nat>, ks: seq<KeyTri>, e: Edge)
    requires Tallied(names, weld, directed, ks) && e in directed
    requires directed[e] != 1 || Get(directed, Rev(e)) != 1
    ensures !KeyBalanced(ks)
  {
    assert Get(directed, (e.0, e.1)) == KeyCount(ks, (names[e.0], names[e.1]));
    assert Get(directed, (e.1, e.0)) == KeyCount(ks, (names[e.1], names[e.0]));
  }

  lemma {:induction false} Paired(directed: map<Edge, nat>, names: seq<Key>, weld: map<Key, nat>, ks: seq<KeyTri>)
    requires Tallied(names, weld, directed, ks)
    requires forall e <- directed :: directed[e] == 1 && Get(directed, Rev(e)) == 1
    ensures KeyBalanced(ks)
  {
    forall f: KeyEdge ensures KeyCount(ks, f) <= 1 && KeyCount(ks, f) == KeyCount(ks, (f.1, f.0)) {
      if f.0 in names && f.1 in names {
        var e := (weld[f.0], weld[f.1]);
        assert Get(directed, e) == KeyCount(ks, (names[e.0], names[e.1]));
        assert Get(directed, Rev(e)) == KeyCount(ks, (names[e.1], names[e.0]));
      } else {
        KeyCountOff(ks, names, f);
        KeyCountOff(ks, names, (f.1, f.0));
      }
    }
  }

  /** The final scan over the directed map, in arbitrary order. */
  method EdgesPaired(directed: map<Edge, nat>, ghost names: seq<Key>, ghost weld: map<Key, nat>, ghost ks: seq<KeyTri>) returns (ok: bool)
    requires Tallied(names, weld, directed, ks)
    ensures ok == KeyBalanced(ks)
  {
    hide Tallied, KeyBalanced;
    var left := directed.Keys;
    while left != {}
      invariant left <= directed.Keys
      invariant forall e <- directed :: e !in left ==> directed[e] == 1 && Get(directed, Rev(e)) == 1
      decreases |left|
    {
      var e :| e in left;
      left := left - {e};
      if directed[e] != 1 || Get(directed, Rev(e)) != 1 {
        Unpaired(directed, names, weld, ks, e);
        return false;
      }
    }
    Paired(directed, names, weld, ks);
    ok := true;
  }
}
