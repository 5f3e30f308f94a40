// The signed tetrahedron sum, why a closed mesh's volume does not depend on the origin,
// and what it comes to for an extruded profile.
module GeoVolume {
  import opened GeoTriangulate
  import opened GeoShell
  import opened GeoSolid

  /** Six times the signed volume of the tetrahedra from the origin. */
  function VolSum(verts: seq<V3>, ts: seq<Tri>): real
    requires IndexesIn(ts, |verts|)
  {
    if ts == [] then 0.0
    else
      var t := ts[|ts| - 1];
      assert t in ts && forall u <- ts[..|ts| - 1] :: u in ts;
      VolSum(verts, ts[..|ts| - 1]) + Det(verts[t.a], verts[t.b], verts[t.c])
  }

  /** The gross volume of a mesh, when the manifold test licenses one. */
  method MeshVolume(verts: seq<V3>, flat: seq<nat>) returns (vol: real, ok: bool)
    ensures ok <==> Closed(WeldKeys(verts), flat) && VolSum(verts, Tris(flat)) != 0.0
    ensures ok ==> vol == AbsReal(VolSum(verts, Tris(flat))) / 6.0 && vol > 0.0
    ensures !ok ==> vol == 0.0
  {
    if |flat| < 3 || |verts| < 3 {
      TooFewVertices(verts, flat);
      return 0.0, false;
    }
    ghost var ts := Tris(flat);
    vol := 0.0;
    var t := 0;
    while t < |flat| / 3
      invariant t <= |flat| / 3 && IndexesIn(ts[..t], |verts|)
      invariant vol == VolSum(verts, ts[..t])
    {
      var i, j, k := flat[3 * t], flat[3 * t + 1], flat[3 * t + 2];
      assert ts[t] == Tri(i, j, k) && ts[t] in ts;
      if i >= |verts| || j >= |verts| || k >= |verts| {
        OutOfRange(WeldKeys(verts), flat, t);
        return 0.0, false;
      }
      assert ts[..t + 1][..t] == ts[..t];
      vol := vol + Det(verts[i], verts[j], verts[k]);
      t := t + 1;
    }
    assert ts[..t] == ts;
    vol := vol / 6.0;
    if vol < 0.0 {
      vol := -vol;
    }
    var closed := IsClosedManifold(verts, flat);
    if vol <= 0.0 || !closed {
      return 0.0, false;
    }
    ok := true;
  }

  lemma {:induction false} TooFewVertices(verts: seq<V3>, flat: seq<nat>)
    requires |flat| < 3 || |verts| < 3
    ensures !Closed(WeldKeys(verts), flat)
  {
    if Closed(WeldKeys(verts), flat) { ClosedNeedsThree(WeldKeys(verts), flat); }
  }

  lemma {:induction false} ClosedNeedsThree(keys: seq<Key>, flat: seq<nat>)
    requires Closed(keys, flat)
    ensures |keys| >= 3
  {
    var ts := Tris(flat);
    assert ts[0] in ts;
    assert Welded(keys, ts)[0] in Welded(keys, ts);
  }

  // ---------------------------------------------------------------- cancellation

  function EdgeSeqCount(es: seq<KeyEdge>, e: KeyEdge): nat {
    if es == [] then 0 else EdgeSeqCount(es[..|es| - 1], e) + KeyOne(es[|es| - 1], e)
  }

  function EdgeSum(es: seq<KeyEdge>, f: KeyEdge -> real): real {
    if es == [] then 0.0 else EdgeSum(es[..|es| - 1], f) + f(es[|es| - 1])
  }

  lemma {:induction false} SumAppend(a: seq<KeyEdge>, b: seq<KeyEdge>, f: KeyEdge -> real)
    ensures EdgeSum(a + b, f) == EdgeSum(a, f) + EdgeSum(b, f)
  {
    if b == [] {
      assert a + b == a;
    } else {
      assert (a + b)[..|a + b| - 1] == a + b[..|b| - 1];
      SumAppend(a, b[..|b| - 1], f);
    }
  }

  lemma {:induction false} CountAppend(a: seq<KeyEdge>, b: seq<KeyEdge>, e: KeyEdge)
    ensures EdgeSeqCount(a + b, e) == EdgeSeqCount(a, e) + EdgeSeqCount(b, e)
  {
    if b == [] {
      assert a + b == a;
    } else {
      assert (a + b)[..|a + b| - 1] == a + b[..|b| - 1];
      CountAppend(a, b[..|b| - 1], e);
    }
  }

  lemma {:induction false} CountedIsIn(es: seq<KeyEdge>, e: KeyEdge) returns (j: nat)
    requires EdgeSeqCount(es, e) > 0
    ensures j < |es| && es[j] == e
  {
    if es[|es| - 1] == e { j := |es| - 1; } else { j := CountedIsIn(es[..|es| - 1], e); }
  }

  /** Taking one element out takes out its count and its value. */
  lemma {:induction false} WithoutOne(es: seq<KeyEdge>, j: nat, e: KeyEdge, f: KeyEdge -> real)
    requires j < |es|
    ensures EdgeSeqCount(es[..j] + es[j + 1..], e) == EdgeSeqCount(es, e) - KeyOne(es[j], e)
    ensures EdgeSum(es[..j] + es[j + 1..], f) == EdgeSum(es, f) - f(es[j])
  {
    var l, m, r := es[..j], [es[j]], es[j + 1..];
    assert es == l + (m + r);
    assert m[..0] == [];
    CountAppend(l, m + r, e);
    CountAppend(m, r, e);
    CountAppend(l, r, e);
    SumAppend(l, m + r, f);
    SumAppend(m, r, f);
    SumAppend(l, r, f);
  }

  ghost predicate EdgesBalanced(es: seq<KeyEdge>) {
    forall e: KeyEdge {:trigger EdgeSeqCount(es, e)} :: EdgeSeqCount(es, e) <= 1 && EdgeSeqCount(es, e) == EdgeSeqCount(es, (e.1, e.0))
  }

  /** A value that flips sign with direction sums to nothing over edges that all come in
      opposite pairs. */
  lemma {:induction false} PairsCancel(es: seq<KeyEdge>, f: KeyEdge -> real)
    requires forall e: KeyEdge :: f((e.1, e.0)) == -f(e)
    requires EdgesBalanced(es) && forall e <- es :: e.0 != e.1
    ensures EdgeSum(es, f) == 0.0
    decreases |es|
  {
    if es != [] {
      var last, front := es[|es| - 1], es[..|es| - 1];
      var back := (last.1, last.0);
      assert last in es;
      assert EdgeSeqCount(es, last) == EdgeSeqCount(es, back);
      var j := CountedIsIn(front, back);
      var rest := front[..j] + front[j + 1..];
      forall e: KeyEdge ensures EdgeSeqCount(rest, e) == EdgeSeqCount(es, e) - KeyOne(last, e) - KeyOne(back, e) {
        WithoutOne(front, j, e, f);
      }
      WithoutOne(front, j, last, f);
      RestBalanced(es, rest, last);
      forall e | e in rest ensures e.0 != e.1 { assert e in es; }
      PairsCancel(rest, f);
      assert f(back) == -f(last);
    }
  }

  lemma {:induction false} RestBalanced(es: seq<KeyEdge>, rest: seq<KeyEdge>, last: KeyEdge)
    requires EdgesBalanced(es)
    requires forall e: KeyEdge :: EdgeSeqCount(rest, e) == EdgeSeqCount(es, e) - KeyOne(last, e) - KeyOne((last.1, last.0), e)
    ensures EdgesBalanced(rest)
  {
    hide EdgeSeqCount;
    forall e: KeyEdge ensures EdgeSeqCount(rest, e) <= 1 && EdgeSeqCount(rest, e) == EdgeSeqCount(rest, (e.1, e.0)) {
      assert EdgeSeqCount(es, e) == EdgeSeqCount(es, (e.1, e.0));
    }
  }

  /** The directed edges of welded triangles, in walking order. */
  function KeyEdges(ks: seq<KeyTri>): seq<KeyEdge> {
    if ks == [] then []
    else
      var t := ks[|ks| - 1];
      KeyEdges(ks[..|ks| - 1]) + [(t.a, t.b), (t.b, t.c), (t.c, t.a)]
  }

  lemma {:induction false} KeyEdgesCount(ks: seq<KeyTri>, e: KeyEdge)
    ensures EdgeSeqCount(KeyEdges(ks), e) == KeyCount(ks, e)
  {
    if ks != [] {
      var t := ks[|ks| - 1];
      var three := [(t.a, t.b), (t.b, t.c), (t.c, t.a)];
      KeyEdgesCount(ks[..|ks| - 1], e);
      CountAppend(KeyEdges(ks[..|ks| - 1]), three, e);
      CountThree((t.a, t.b), (t.b, t.c), (t.c, t.a), e);
    }
  }

  lemma {:induction false} KeyEdgesProper(ks: seq<KeyTri>)
    requires forall k <- ks :: Proper(k)
    ensures forall e <- KeyEdges(ks) :: e.0 != e.1
  {
    if ks != [] {
      assert ks[|ks| - 1] in ks;
      KeyEdgesProper(ks[..|ks| - 1]);
    }
  }

  // ---------------------------------------------------------------- translation

  lemma {:induction false} PartShift(b1: real, b2: real, c1: real, c2: real, t1: real, t2: real)
    ensures (b1 + t1) * (c2 + t2) - (b2 + t2) * (c1 + t1) == b1 * c2 - b2 * c1 + (b1 * t2 - b2 * t1) + (t1 * c2 - t2 * c1)
  {
  }

  lemma {:induction false} CrossShift(b: V3, c: V3, t: V3)
    ensures CrossV(Plus(b, t), Plus(c, t)) == Plus(Plus(CrossV(b, c), CrossV(b, t)), CrossV(t, c))
  {
    ShiftX(b, c, t);
    ShiftY(b, c, t);
    ShiftZ(b, c, t);
    hide CrossV;
    var l, r := CrossV(Plus(b, t), Plus(c, t)), Plus(Plus(CrossV(b, c), CrossV(b, t)), CrossV(t, c));
    assert l.x == r.x && l.y == r.y && l.z == r.z;
  }

  lemma {:induction false} ShiftX(b: V3, c: V3, t: V3)
    ensures CrossV(Plus(b, t), Plus(c, t)).x == CrossV(b, c).x + CrossV(b, t).x + CrossV(t, c).x
  {
    PartShift(b.y, b.z, c.y, c.z, t.y, t.z);
  }

  lemma {:induction false} ShiftY(b: V3, c: V3, t: V3)
    ensures CrossV(Plus(b, t), Plus(c, t)).y == CrossV(b, c).y + CrossV(b, t).y + CrossV(t, c).y
  {
    PartShift(b.z, b.x, c.z, c.x, t.z, t.x);
  }

  lemma {:induction false} ShiftZ(b: V3, c: V3, t: V3)
    ensures CrossV(Plus(b, t), Plus(c, t)).z == CrossV(b, c).z + CrossV(b, t).z + CrossV(t, c).z
  {
    PartShift(b.x, b.y, c.x, c.y, t.x, t.y);
  }

  lemma {:induction false} DotSpread(a: V3, t: V3, p: V3, q: V3, r: V3)
    ensures Dot(Plus(a, t), Plus(Plus(p, q), r)) == Dot(a, p) + Dot(a, q) + Dot(a, r) + Dot(t, p) + Dot(t, q) + Dot(t, r)
  {
  }

  lemma {:induction false} TripleTurns(a: V3, b: V3, c: V3)
    ensures Dot(a, CrossV(b, c)) == Dot(c, CrossV(a, b))
  {
  }

  lemma {:induction false} TripleRepeats(a: V3, b: V3)
    ensures Dot(a, CrossV(b, a)) == 0.0 && Dot(a, CrossV(a, b)) == 0.0
  {
  }

  /** Translating a tetrahedron's base changes it by one term per directed edge. */
  lemma {:induction false} DetShift(a: V3, b: V3, c: V3, t: V3)
    ensures Det(Plus(a, t), Plus(b, t), Plus(c, t))
         == Det(a, b, c) + Dot(t, CrossV(a, b)) + Dot(t, CrossV(b, c)) + Dot(t, CrossV(c, a))
  {
    hide Dot, CrossV, Plus;
    CrossShift(b, c, t);
    DotSpread(a, t, CrossV(b, c), CrossV(b, t), CrossV(t, c));
    TripleTurns(a, b, t);
    TripleTurns(a, t, c);
    TripleTurns(c, a, t);
    TripleRepeats(t, b);
    TripleRepeats(t, c);
  }

  lemma {:induction false} DotCrossFlips(t: V3, a: V3, b: V3)
    ensures Dot(t, CrossV(b, a)) == -Dot(t, CrossV(a, b))
  {
  }

  function Shifted(verts: seq<V3>, t: V3): (vs: seq<V3>)
    ensures |vs| == |verts|
  {
    seq(|verts|, i requires 0 <= i < |verts| => Plus(verts[i], t))
  }

  /** Vertices with one weld key coincide. */
  predicate KeysAgree(keys: seq<Key>, verts: seq<V3>)
    requires |keys| == |verts|
  {
    forall i, j :: 0 <= i < |keys| && 0 <= j < |keys| && keys[i] == keys[j] ==> verts[i] == verts[j]
  }

  /** The position a key stands for. */
  ghost function At(keys: seq<Key>, verts: seq<V3>, k: Key): V3
    requires |keys| == |verts|
  {
    if i :| 0 <= i < |keys| && keys[i] == k then verts[i] else V3(0.0, 0.0, 0.0)
  }

  ghost function Flux(keys: seq<Key>, verts: seq<V3>, t: V3, e: KeyEdge): real
    requires |keys| == |verts|
  {
    Dot(t, CrossV(At(keys, verts, e.0), At(keys, verts, e.1)))
  }

  /** Translating changes each tetrahedron by a sum over its directed edges. */
  lemma {:induction false} ShiftedSum(keys: seq<Key>, verts: seq<V3>, ts: seq<Tri>, t: V3, f: KeyEdge -> real)
    requires |keys| == |verts| && KeysAgree(keys, verts) && IndexesIn(ts, |verts|)
    requires forall e: KeyEdge :: f(e) == Flux(keys, verts, t, e)
    ensures VolSum(Shifted(verts, t), ts) == VolSum(verts, ts) + EdgeSum(KeyEdges(Welded(keys, ts)), f)
  {
    if ts != [] {
      var front, last := ts[..|ts| - 1], ts[|ts| - 1];
      assert last in ts;
      assert forall u <- front :: u in ts;
      ShiftedSum(keys, verts, front, t, f);
      var ks, k := Welded(keys, ts), KeyTri(keys[last.a], keys[last.b], keys[last.c]);
      assert ks[..|ks| - 1] == Welded(keys, front);
      var three := [(k.a, k.b), (k.b, k.c), (k.c, k.a)];
      SumAppend(KeyEdges(Welded(keys, front)), three, f);
      SumThree((k.a, k.b), (k.b, k.c), (k.c, k.a), f);
      AtKey(keys, verts, last.a);
      AtKey(keys, verts, last.b);
      AtKey(keys, verts, last.c);
      DetShift(verts[last.a], verts[last.b], verts[last.c], t);
    }
  }

  lemma {:induction false} SumThree(p: KeyEdge, q: KeyEdge, r: KeyEdge, f: KeyEdge -> real)
    ensures EdgeSum([p, q, r], f) == f(p) + f(q) + f(r)
  {
    assert [p, q, r] == [p] + [q] + [r];
    SumAppend([p] + [q], [r], f);
    SumAppend([p], [q], f);
    assert [p][..0] == [] && [q][..0] == [] && [r][..0] == [];
  }

  lemma {:induction false} CountThree(p: KeyEdge, q: KeyEdge, r: KeyEdge, e: KeyEdge)
    ensures EdgeSeqCount([p, q, r], e) == KeyOne(p, e) + KeyOne(q, e) + KeyOne(r, e)
  {
    assert [p, q, r] == [p] + [q] + [r];
    CountAppend([p] + [q], [r], e);
    CountAppend([p], [q], e);
    assert [p][..0] == [] && [q][..0] == [] && [r][..0] == [];
  }

  lemma {:induction false} AtKey(keys: seq<Key>, verts: seq<V3>, i: nat)
    requires |keys| == |verts| && KeysAgree(keys, verts) && i < |keys|
    ensures At(keys, verts, keys[i]) == verts[i]
  {
  }

  /** The volume of a mesh the test accepts does not depend on where the origin is: when
      weld-equal vertices coincide, translating every vertex leaves the signed sum alone. */
  lemma {:induction false} VolumeOriginFree(verts: seq<V3>, flat: seq<nat>, t: V3)
    requires Closed(WeldKeys(verts), flat) && KeysAgree(WeldKeys(verts), verts)
    ensures VolSum(Shifted(verts, t), Tris(flat)) == VolSum(verts, Tris(flat))
  {
    var keys, ts := WeldKeys(verts), Tris(flat);
    var ks := Welded(keys, ts);
    var f: KeyEdge -> real := (e: KeyEdge) => Flux(keys, verts, t, e);
    ShiftedSum(keys, verts, ts, t, f);
    forall e: KeyEdge ensures f((e.1, e.0)) == -f(e) {
      DotCrossFlips(t, At(keys, verts, e.0), At(keys, verts, e.1));
    }
    forall e: KeyEdge ensures EdgeSeqCount(KeyEdges(ks), e) <= 1 && EdgeSeqCount(KeyEdges(ks), e) == EdgeSeqCount(KeyEdges(ks), (e.1, e.0)) {
      KeyEdgesCount(ks, e);
      KeyEdgesCount(ks, (e.1, e.0));
      assert KeyCount(ks, e) <= 1;
    }
    KeyEdgesProper(ks);
    PairsCancel(KeyEdges(ks), f);
  }

  // ---------------------------------------------------------------- the prism

  function Still(v: V3): V3 { v }

  /** The two tetrahedra of one side wall. */
  lemma {:induction false} WallDets(a: Pt, b: Pt, h: V3)
    ensures Det(V3(a.x, a.y, 0.0), V3(b.x, b.y, 0.0), V3(b.x + h.x, b.y + h.y, h.z)) == h.z * Shoe(a, b)
    ensures Det(V3(a.x, a.y, 0.0), V3(b.x + h.x, b.y + h.y, h.z), V3(a.x + h.x, a.y + h.y, h.z)) == h.z * Shoe(a, b)
  {
    WallDet1(a.x, a.y, b.x, b.y, h.x, h.y, h.z);
    WallDet2(a.x, a.y, b.x, b.y, h.x, h.y, h.z);
  }

  lemma {:induction false} WallDet1(x0: real, y0: real, x1: real, y1: real, hx: real, hy: real, hz: real)
    ensures x0 * (y1 * hz - 0.0 * (y1 + hy)) + y0 * (0.0 * (x1 + hx) - x1 * hz) + 0.0 * (x1 * (y1 + hy) - y1 * (x1 + hx)) == hz * (x0 * y1 - x1 * y0)
  {
  }

  lemma {:induction false} WallDet2(x0: real, y0: real, x1: real, y1: real, hx: real, hy: real, hz: real)
    ensures x0 * ((y1 + hy) * hz - hz * (y0 + hy)) + y0 * (hz * (x0 + hx) - (x1 + hx) * hz) + 0.0 * ((x1 + hx) * (y0 + hy) - (y1 + hy) * (x0 + hx)) == hz * (x0 * y1 - x1 * y0)
  {
  }

  function Flat(p: Pt): V3 { V3(p.x, p.y, 0.0) }

  lemma {:induction false} FlatCross(a: Pt, b: Pt)
    ensures CrossV(Flat(a), Flat(b)) == V3(0.0, 0.0, Shoe(a, b))
  {
  }

  lemma {:induction false} DotUp(h: V3, s: real)
    ensures Dot(h, V3(0.0, 0.0, s)) == h.z * s
  {
  }

  lemma {:induction false} FlatDet(a: Pt, b: Pt, c: Pt)
    ensures Det(Flat(a), Flat(b), Flat(c)) == 0.0
  {
    FlatCross(b, c);
    DotUp(Flat(a), Shoe(b, c));
    hide Dot, CrossV, Shoe;
  }

  lemma {:induction false} CapDets(a: Pt, b: Pt, c: Pt, h: V3)
    ensures Det(Flat(a), Flat(c), Flat(b)) == 0.0
    ensures Det(Plus(Flat(a), h), Plus(Flat(b), h), Plus(Flat(c), h)) == h.z * Cross(a, b, c)
  {
    hide Dot, CrossV, Plus, Flat, Shoe, Cross, Det;
    DetShift(Flat(a), Flat(b), Flat(c), h);
    FlatDet(a, c, b);
    FlatDet(a, b, c);
    FlatCross(a, b);
    FlatCross(b, c);
    FlatCross(c, a);
    DotUp(h, Shoe(a, b));
    DotUp(h, Shoe(b, c));
    DotUp(h, Shoe(c, a));
    CrossIsShoe(a, b, c);
    Distribute(h.z, Shoe(a, b) + Shoe(b, c), Shoe(c, a));
    Distribute(h.z, Shoe(a, b), Shoe(b, c));
  }

  /** Ring vertices of an unplaced extrusion. */
  lemma {:induction false} RingAt(poly: seq<Pt>, h: V3, i: nat)
    requires i < |poly|
    ensures var vs := Rings(poly, h, Still); vs[i] == Flat(poly[i]) && vs[|poly| + i] == Plus(Flat(poly[i]), h)
  {
  }

  lemma {:induction false} VolSumAppend(verts: seq<V3>, ts: seq<Tri>, t: Tri)
    requires IndexesIn(ts, |verts|) && t.a < |verts| && t.b < |verts| && t.c < |verts|
    ensures IndexesIn(ts + [t], |verts|)
    ensures VolSum(verts, ts + [t]) == VolSum(verts, ts) + Det(verts[t.a], verts[t.b], verts[t.c])
  {
    assert (ts + [t])[..|ts|] == ts;
  }

  lemma {:induction false} VolSumTwo(verts: seq<V3>, ts: seq<Tri>, p: Tri, q: Tri)
    requires IndexesIn(ts, |verts|) && Inside(p, |verts|) && Inside(q, |verts|)
    ensures IndexesIn(ts + [p] + [q], |verts|)
    ensures VolSum(verts, ts + [p] + [q])
         == VolSum(verts, ts) + Det(verts[p.a], verts[p.b], verts[p.c]) + Det(verts[q.a], verts[q.b], verts[q.c])
  {
    hide VolSum, Det, IndexesIn;
    VolSumAppend(verts, ts, p);
    VolSumAppend(verts, ts + [p], q);
  }

  predicate Inside(t: Tri, n: nat) { t.a < n && t.b < n && t.c < n }

  /** One side wall of the rings. */
  lemma {:induction false} WallTerm(poly: seq<Pt>, h: V3, i: nat)
    requires |poly| >= 3 && i < |poly|
    ensures var n, vs, j := |poly|, Rings(poly, h, Still), Succ(|poly|, i);
      && Det(vs[i], vs[j], vs[n + j]) == h.z * Shoe(poly[i], poly[j])
      && Det(vs[i], vs[n + j], vs[n + i]) == h.z * Shoe(poly[i], poly[j])
  {
    WallDets(poly[i], poly[Succ(|poly|, i)], h);
    hide Det, Shoe;
  }

  /** Twice the area the profile's first `k` edges sweep, the closing edge included. */
  function Swept(poly: seq<Pt>, k: nat): real
    requires k <= |poly|
  {
    if k == 0 then 0.0 else Swept(poly, k - 1) + Shoe(poly[k - 1], poly[Succ(|poly|, k - 1)])
  }

  lemma {:induction false} SweptIsPath(poly: seq<Pt>, k: nat)
    requires k < |poly|
    ensures Swept(poly, k) == PathShoe(poly, Identity(|poly|)[..k + 1])
  {
    var all := Identity(|poly|);
    if k == 0 {
      assert PathShoe(poly, all[..1]) == 0.0;
    } else {
      SweptIsPath(poly, k - 1);
      assert all[..k + 1][..k] == all[..k];
    }
  }

  lemma {:induction false} SweptIsLoop(poly: seq<Pt>)
    requires poly != []
    ensures Swept(poly, |poly|) == LoopShoe(poly, Identity(|poly|))
  {
    var n, all := |poly|, Identity(|poly|);
    SweptIsPath(poly, n - 1);
    assert all[..n] == all;
  }

  /** Walls: twice the height times the area the profile's edges sweep. */
  lemma {:induction false} WallsVolume(poly: seq<Pt>, h: V3, k: nat)
    requires |poly| >= 3 && k <= |poly|
    ensures IndexesIn(Walls(|poly|, k), 2 * |poly|)
    ensures VolSum(Rings(poly, h, Still), Walls(|poly|, k)) == 2.0 * (h.z * Swept(poly, k))
  {
    hide Det, Shoe, Rings, VolSum;
    var n, verts := |poly|, Rings(poly, h, Still);
    NoVolume(verts);
    if k > 0 {
      var i, j := k - 1, Succ(n, k - 1);
      WallsVolume(poly, h, i);
      VolSumTwo(verts, Walls(n, i), Tri(i, j, n + j), Tri(i, n + j, n + i));
      WallTerm(poly, h, i);
      Distribute(h.z, Swept(poly, i), Shoe(poly[i], poly[j]));
    }
  }

  lemma {:induction false} NoVolume(verts: seq<V3>)
    ensures VolSum(verts, []) == 0.0
  {
  }

  lemma {:induction false} Distribute(z: real, a: real, b: real)
    ensures z * (a + b) == z * a + z * b
  {
  }

  lemma {:induction false} CapTerm(poly: seq<Pt>, h: V3, t: Tri)
    requires TriInRange(poly, t)
    ensures var n, vs := |poly|, Rings(poly, h, Still);
      && Det(vs[t.a], vs[t.c], vs[t.b]) == 0.0
      && Det(vs[n + t.a], vs[n + t.b], vs[n + t.c]) == h.z * TriCross(poly, t)
  {
    hide Det, Cross, Rings, Flat, Plus;
    CapDets(poly[t.a], poly[t.b], poly[t.c], h);
    RingAt(poly, h, t.a);
    RingAt(poly, h, t.b);
    RingAt(poly, h, t.c);
  }

  /** One triangle's two caps. */
  lemma {:induction false} TwoCapsMore(poly: seq<Pt>, h: V3, ts: seq<Tri>, t: Tri)
    requires TriInRange(poly, t) && IndexesIn(ts, 2 * |poly|)
    ensures var n, vs, more := |poly|, Rings(poly, h, Still), ts + [Tri(t.a, t.c, t.b)] + [Tri(|poly| + t.a, |poly| + t.b, |poly| + t.c)];
      IndexesIn(more, 2 * n) && VolSum(vs, more) == VolSum(vs, ts) + h.z * TriCross(poly, t)
  {
    hide Det, VolSum, TriCross, IndexesIn, Rings, RingPoint, Times;
    var n := |poly|;
    assert Inside(Tri(t.a, t.c, t.b), 2 * n) && Inside(Tri(n + t.a, n + t.b, n + t.c), 2 * n);
    CapTerm(poly, h, t);
    VolSumTwo(Rings(poly, h, Still), ts, Tri(t.a, t.c, t.b), Tri(n + t.a, n + t.b, n + t.c));
  }

  /** Caps: the bottom contributes nothing, the top its height times its covered area. */
  lemma {:induction false} CapsVolume(poly: seq<Pt>, h: V3, cap: seq<Tri>)
    requires forall t <- cap :: TriInRange(poly, t)
    ensures IndexesIn(Caps(|poly|, cap), 2 * |poly|)
    ensures VolSum(Rings(poly, h, Still), Caps(|poly|, cap)) == h.z * SumCross(poly, cap)
  {
    hide Rings, VolSum, SumCross, TriCross;
    NoVolume(Rings(poly, h, Still));
    NoCross(poly);
    if cap != [] {
      var t, front := cap[|cap| - 1], cap[..|cap| - 1];
      assert t in cap && forall u <- front :: u in cap;
      hide Caps, IndexesIn, TriInRange;
      CapsVolume(poly, h, front);
      CapsLast(|poly|, cap);
      TwoCapsMore(poly, h, Caps(|poly|, front), t);
      SumCrossAppend(poly, front, t);
      assert cap == front + [t];
      Distribute(h.z, SumCross(poly, front), TriCross(poly, t));
    }
  }

  lemma {:induction false} NoCross(poly: seq<Pt>)
    ensures SumCross(poly, []) == 0.0
  {
  }

  lemma {:induction false} VolSumJoin(verts: seq<V3>, a: seq<Tri>, b: seq<Tri>)
    requires IndexesIn(a, |verts|) && IndexesIn(b, |verts|)
    ensures IndexesIn(a + b, |verts|) && VolSum(verts, a + b) == VolSum(verts, a) + VolSum(verts, b)
  {
    if b == [] {
      assert a + b == a;
    } else {
      var front, t := b[..|b| - 1], b[|b| - 1];
      assert t in b && forall u <- front :: u in b;
      VolSumJoin(verts, a, front);
      VolSumAppend(verts, a + front, t);
      VolSumAppend(verts, front, t);
      assert a + b == a + front + [t] && b == front + [t];
    }
  }

  // ---------------------------------------------------------------- placed

  /** A placement matrix's columns. */
  datatype Mat = Mat(x: V3, y: V3, z: V3, o: V3)

  function Turn(m: Mat, p: V3): V3 { Plus(Plus(Times(m.x, p.x), Times(m.y, p.y)), Times(m.z, p.z)) }

  function ApplyMat(m: Mat, p: V3): V3 { Plus(Turn(m, p), m.o) }

  function Turning(m: Mat): V3 -> V3 { v => Turn(m, v) }

  function Placing(m: Mat): V3 -> V3 { v => ApplyMat(m, v) }

  /** By how much a placement scales volumes: one for a rigid one. */
  function Scale(m: Mat): real { Det(m.x, m.y, m.z) }

  function Scaled(m: Mat, v: real): real { Scale(m) * v }

  lemma {:induction false} DetCycles(a: V3, b: V3, c: V3)
    ensures Det(a, b, c) == Det(b, c, a) == Det(c, a, b) == -Det(a, c, b)
  {
    TripleTurns(a, b, c);
    TripleTurns(c, a, b);
    DotCrossFlips(a, b, c);
    hide Dot, CrossV;
  }

  lemma {:induction false} DetRepeats(a: V3, b: V3)
    ensures Det(a, a, b) == 0.0 && Det(a, b, a) == 0.0 && Det(b, a, a) == 0.0
  {
  }

  lemma {:induction false} DotThree(x: V3, y: V3, z: V3, a: V3, v: V3)
    ensures Dot(Plus(Plus(Times(x, a.x), Times(y, a.y)), Times(z, a.z)), v) == a.x * Dot(x, v) + a.y * Dot(y, v) + a.z * Dot(z, v)
  {
  }

  /** A tetrahedron's first corner spread over the columns. */
  lemma {:induction false} TurnFirst(m: Mat, a: V3, b: V3, c: V3)
    ensures Det(Turn(m, a), b, c) == a.x * Det(m.x, b, c) + a.y * Det(m.y, b, c) + a.z * Det(m.z, b, c)
  {
    DotThree(m.x, m.y, m.z, a, CrossV(b, c));
    hide Dot, CrossV, Plus, Times;
  }

  lemma {:induction false} OneLeft(a: real, b: real, c: real, u: real, v: real, w: real, k: real)
    requires u == 0.0 && v == 0.0 && w == k
    ensures a * u + b * v + c * w == c * k
  {
  }

  lemma {:induction false} TwoLeft(a: real, b: real, c: real, u: real, v: real, w: real, p: real, q: real, k: real)
    requires u == 0.0 && v == q * k && w == -(p * k)
    ensures a * u + b * v + c * w == k * (b * q - c * p)
  {
    assert b * v == k * (b * q) && c * w == -(k * (c * p));
  }

  /** Two columns and a turned vector: the third column's share is left. */
  lemma {:induction false} TurnLast(m: Mat, c: V3)
    ensures var k := Scale(m);
      Det(m.x, m.y, Turn(m, c)) == c.z * k && Det(m.y, m.z, Turn(m, c)) == c.x * k && Det(m.z, m.x, Turn(m, c)) == c.y * k
  {
    var x, y, z, t, k := m.x, m.y, m.z, Turn(m, c), Scale(m);
    DetCycles(x, y, z);
    DetCycles(x, y, t);
    DetCycles(y, z, t);
    DetCycles(z, x, t);
    TurnFirst(m, c, x, y);
    TurnFirst(m, c, y, z);
    TurnFirst(m, c, z, x);
    DetRepeats(x, y);
    DetRepeats(y, x);
    DetRepeats(y, z);
    DetRepeats(z, y);
    DetRepeats(z, x);
    DetRepeats(x, z);
    hide Det, Turn;
    OneLeft(c.x, c.y, c.z, Det(x, x, y), Det(y, x, y), Det(z, x, y), k);
    OneLeft(c.y, c.z, c.x, Det(y, y, z), Det(z, y, z), Det(x, y, z), k);
    OneLeft(c.x, c.z, c.y, Det(x, z, x), Det(z, z, x), Det(y, z, x), k);
  }

  /** A column and two turned vectors. */
  lemma {:induction false} TurnTwo(m: Mat, b: V3, c: V3)
    ensures var k, u, v := Scale(m), Turn(m, b), Turn(m, c);
      && Det(m.x, u, v) == k * (b.y * c.z - b.z * c.y)
      && Det(m.y, u, v) == k * (b.z * c.x - b.x * c.z)
      && Det(m.z, u, v) == k * (b.x * c.y - b.y * c.x)
  {
    var x, y, z, u, v, k := m.x, m.y, m.z, Turn(m, b), Turn(m, c), Scale(m);
    DetCycles(x, u, v);
    DetCycles(y, u, v);
    DetCycles(z, u, v);
    TurnFirst(m, b, v, x);
    TurnFirst(m, b, v, y);
    TurnFirst(m, b, v, z);
    DetRepeats(x, v);
    DetRepeats(y, v);
    DetRepeats(z, v);
    DetCycles(x, y, v);
    DetCycles(y, z, v);
    DetCycles(z, x, v);
    DetCycles(y, x, v);
    DetCycles(z, y, v);
    DetCycles(x, z, v);
    TurnLast(m, c);
    hide Det, Turn;
    TwoLeft(b.x, b.y, b.z, Det(x, v, x), Det(y, v, x), Det(z, v, x), c.y, c.z, k);
    TwoLeft(b.y, b.z, b.x, Det(y, v, y), Det(z, v, y), Det(x, v, y), c.z, c.x, k);
    TwoLeft(b.z, b.x, b.y, Det(z, v, z), Det(x, v, z), Det(y, v, z), c.x, c.y, k);
  }

  /** Turning a tetrahedron scales it. */
  lemma {:induction false} DetTurn(m: Mat, a: V3, b: V3, c: V3)
    ensures Det(Turn(m, a), Turn(m, b), Turn(m, c)) == Scale(m) * Det(a, b, c)
  {
    var u, v := Turn(m, b), Turn(m, c);
    hide Det, Turn, CrossV, Scale;
    TurnFirst(m, a, u, v);
    TurnTwo(m, b, c);
    Gathered(Scale(m), a, b, c, Det(m.x, u, v), Det(m.y, u, v), Det(m.z, u, v));
  }

  lemma {:induction false} Gathered(k: real, a: V3, b: V3, c: V3, f: real, g: real, h: real)
    requires f == k * (b.y * c.z - b.z * c.y) && g == k * (b.z * c.x - b.x * c.z) && h == k * (b.x * c.y - b.y * c.x)
    ensures a.x * f + a.y * g + a.z * h == k * Det(a, b, c)
  {
    var d := CrossV(b, c);
    var s := a.x * d.x + a.y * d.y + a.z * d.z;
    assert Det(a, b, c) == s;
    hide Det;
    assert a.x * f == k * (a.x * d.x) && a.y * g == k * (a.y * d.y) && a.z * h == k * (a.z * d.z);
    assert k * s == k * (a.x * d.x) + k * (a.y * d.y) + k * (a.z * d.z);
  }

  /** Two lists of vertices, one the other turned. */
  ghost predicate TurnedBy(m: Mat, verts: seq<V3>, vs: seq<V3>) {
    |vs| == |verts| && forall i :: 0 <= i < |vs| ==> vs[i] == Turn(m, verts[i])
  }

  /** Turning a mesh scales its signed sum, closed or not. */
  lemma {:induction false} TurnedSum(m: Mat, verts: seq<V3>, vs: seq<V3>, ts: seq<Tri>)
    requires TurnedBy(m, verts, vs) && IndexesIn(ts, |verts|)
    ensures VolSum(vs, ts) == Scaled(m, VolSum(verts, ts))
  {
    hide Det, Turn, Scale;
    if ts != [] {
      var front, t := ts[..|ts| - 1], ts[|ts| - 1];
      assert t in ts && forall u <- front :: u in ts;
      TurnedSum(m, verts, vs, front);
      DetTurn(m, verts[t.a], verts[t.b], verts[t.c]);
      Distribute(Scale(m), VolSum(verts, front), Det(verts[t.a], verts[t.b], verts[t.c]));
    }
  }

  /** Translating a balanced mesh leaves its signed sum alone, whatever its vertices. */
  lemma {:induction false} ShiftedShell(verts: seq<V3>, ts: seq<Tri>, t: V3)
    requires (forall u <- ts :: Faces(u, |verts|)) && Balanced(ts) && IndexesIn(ts, |verts|)
    ensures VolSum(Shifted(verts, t), ts) == VolSum(verts, ts)
  {
    var keys: seq<Key> := seq(|verts|, i => (i, 0, 0));
    var ks := Welded(keys, ts);
    var f: KeyEdge -> real := (e: KeyEdge) => Flux(keys, verts, t, e);
    BalancedByKey(keys, ts);
    WeldedProper(keys, ts);
    ShiftedSum(keys, verts, ts, t, f);
    forall e: KeyEdge ensures f((e.1, e.0)) == -f(e) {
      DotCrossFlips(t, At(keys, verts, e.0), At(keys, verts, e.1));
    }
    KeysBalance(ks);
    KeyEdgesProper(ks);
    PairsCancel(KeyEdges(ks), f);
  }

  lemma {:induction false} KeysBalance(ks: seq<KeyTri>)
    requires KeyBalanced(ks)
    ensures EdgesBalanced(KeyEdges(ks))
  {
    forall e: KeyEdge ensures EdgeSeqCount(KeyEdges(ks), e) <= 1 && EdgeSeqCount(KeyEdges(ks), e) == EdgeSeqCount(KeyEdges(ks), (e.1, e.0)) {
      KeyEdgesCount(ks, e);
      KeyEdgesCount(ks, (e.1, e.0));
      assert KeyCount(ks, e) <= 1;
    }
  }

  /** A prism's volume: its profile's area times its height. */
  function PrismOf(poly: seq<Pt>, h: V3): real { h.z * (LoopShoe(poly, Identity(|poly|)) / 2.0) }

  /** An extrusion that closes, unplaced, measures its profile's area times its height. */
  lemma {:induction false} PrismVolume(poly: seq<Pt>, h: V3)
    requires |poly| >= 3 && Balanced(Shell(|poly|, Cap(poly)))
    ensures var ts := Shell(|poly|, Cap(poly));
      IndexesIn(ts, 2 * |poly|) &&
      VolSum(Rings(poly, h, Still), ts) / 6.0 == PrismOf(poly, h)
  {
    hide VolSum, SumCross, LoopShoe, PathShoe, Rings, Completed, Clip, Emitted, Walls, Caps, Swept, IndexesIn, TriInRange, TriCross, Start, Clean, Balanced, Tolerance;
    var n, start := |poly|, Start(poly, Tolerance(poly));
    StartLoop(poly, Tolerance(poly));
    ShellBalancedIff(poly, Tolerance(poly));
    CompletedRun(poly, start);
    SweptIsLoop(poly);
    WallsVolume(poly, h, n);
    CapsVolume(poly, h, Emitted(poly, start));
    VolSumJoin(Rings(poly, h, Still), Walls(n, n), Caps(n, Emitted(poly, start)));
    HalfProduct(h.z, LoopShoe(poly, start));
  }

  lemma {:induction false} HalfProduct(z: real, s: real)
    ensures (2.0 * (z * s) + z * s) / 6.0 == z * (s / 2.0)
  {
  }

  /** An extrusion that closes measures its profile's area times its height times the scale of
      its placement, wherever that placement puts it. */
  lemma {:induction false} ExtrudedVolume(poly: seq<Pt>, h: V3, m: Mat)
    requires |poly| >= 3 && Balanced(Shell(|poly|, Cap(poly)))
    ensures var ts := Shell(|poly|, Cap(poly));
      IndexesIn(ts, 2 * |poly|) &&
      VolSum(Rings(poly, h, Placing(m)), ts) / 6.0 == Scaled(m, PrismOf(poly, h))
  {
    var ts := Shell(|poly|, Cap(poly));
    ShellFaces(poly);
    PrismVolume(poly, h);
    hide Shell, Cap, Balanced, VolSum, Scaled, PrismOf, IndexesIn, Faces;
    RingsSum(poly, h, m, ts);
    ScaledSixth(m, VolSum(Rings(poly, h, Still), ts), PrismOf(poly, h), VolSum(Rings(poly, h, Placing(m)), ts));
  }

  lemma {:induction false} ShellFaces(poly: seq<Pt>)
    requires |poly| >= 3
    ensures var ts := Shell(|poly|, Cap(poly)); IndexesIn(ts, 2 * |poly|) && forall t <- ts :: Faces(t, 2 * |poly|)
  {
    CapFaces(poly);
    ShellSound(|poly|, Cap(poly));
    hide Shell, Cap;
  }

  lemma {:induction false} RingsSum(poly: seq<Pt>, h: V3, m: Mat, ts: seq<Tri>)
    requires IndexesIn(ts, 2 * |poly|) && Balanced(ts) && forall t <- ts :: Faces(t, 2 * |poly|)
    ensures VolSum(Rings(poly, h, Placing(m)), ts) == Scaled(m, VolSum(Rings(poly, h, Still), ts))
  {
    RingsTurned(poly, h, m);
    RingsPlaced(poly, h, m);
    hide Rings, Balanced, VolSum, Scaled, TurnedBy, Shifted, Turning, Placing, Faces;
    PlacedSum(Rings(poly, h, Still), Rings(poly, h, Turning(m)), Rings(poly, h, Placing(m)), ts, m);
  }

  /** Placing a balanced mesh scales its signed sum. */
  lemma {:induction false} PlacedSum(still: seq<V3>, turned: seq<V3>, placed: seq<V3>, ts: seq<Tri>, m: Mat)
    requires TurnedBy(m, still, turned) && placed == Shifted(turned, m.o)
    requires (forall u <- ts :: Faces(u, |still|)) && Balanced(ts) && IndexesIn(ts, |still|)
    ensures VolSum(placed, ts) == Scaled(m, VolSum(still, ts))
  {
    hide Turn, Scaled, VolSum, Balanced;
    TurnedSum(m, still, turned, ts);
    ShiftedShell(turned, ts, m.o);
  }

  lemma {:induction false} RingsTurned(poly: seq<Pt>, h: V3, m: Mat)
    ensures TurnedBy(m, Rings(poly, h, Still), Rings(poly, h, Turning(m)))
  {
    hide Turn;
  }

  lemma {:induction false} RingsPlaced(poly: seq<Pt>, h: V3, m: Mat)
    ensures Rings(poly, h, Placing(m)) == Shifted(Rings(poly, h, Turning(m)), m.o)
  {
    hide Turn;
  }

  lemma {:induction false} ScaledSixth(m: Mat, v: real, a: real, w: real)
    requires v / 6.0 == a && w == Scaled(m, v)
    ensures w / 6.0 == Scaled(m, a)
  {
    hide Scale;
  }

  lemma {:induction false} CapFaces(poly: seq<Pt>)
    requires |poly| >= 3
    ensures forall t <- Cap(poly) :: Faces(t, |poly|)
  {
    var start := Start(poly, Tolerance(poly));
    StartLoop(poly, Tolerance(poly));
    hide Emitted, Start, Tolerance, Clean, LoopShoe;
    if |start| >= 3 { EmittedProper(poly, start); }
  }
}
