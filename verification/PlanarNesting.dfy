// Nesting loops into polygons: outers, the holes directly inside them, and islands again.
module PlanarNesting {
  import opened Common
  import opened Sorting
  import opened GeoTriangulate
  import opened PlanarTouch
  import opened PlanarInside
  import opened PlanarLaminar
  import opened PlanarRings
  import Profile = GeoProfile

  /** A polygon: its outer loop and its holes, as loop numbers. */
  datatype Polygon = Polygon(outer: nat, holes: seq<nat>)

  /** The loops that contain loop `i`. */
  ghost function Containers(n: nat, inside: Inside, i: nat): set<nat> {
    set j: nat | j < n && inside(i, j) == Some(true)
  }

  /** The loop directly around `i`: it contains `i`, and every other container contains it. */
  ghost predicate Nearest(n: nat, inside: Inside, i: nat, p: nat) {
    p < n && Within(inside, i, p) && forall c: nat :: c < n && c != p && Within(inside, i, c) ==> Within(inside, p, c)
  }

  /** Loop `i`'s parent is its nearest container, if any, and it is a hole at odd depth. */
  ghost predicate Settled(n: nat, inside: Inside, i: nat, parent: Option<nat>, hole: bool) {
    && (parent.None? ==> Containers(n, inside, i) == {})
    && (parent.Some? ==> Nearest(n, inside, i, parent.value))
    && (hole <==> |Containers(n, inside, i)| % 2 == 1)
  }

  lemma {:induction false} NearestDepth(n: nat, area: seq<real>, inside: Inside, i: nat, p: nat)
    requires Laminar(n, area, inside) && i < n && Nearest(n, inside, i, p)
    ensures |Containers(n, inside, i)| == |Containers(n, inside, p)| + 1
  {
    assert p !in Containers(n, inside, p) by { assert Within(inside, p, p) ==> p != p; }
    forall c: nat ensures c in Containers(n, inside, i) <==> c in Containers(n, inside, p) + {p} {
      assert c in Containers(n, inside, i) <==> c < n && Within(inside, i, c);
      assert c in Containers(n, inside, p) <==> c < n && Within(inside, p, c);
    }
    assert Containers(n, inside, i) == Containers(n, inside, p) + {p};
  }

  // ---------------------------------------------------------------- largest first

  function AreaOf(area: seq<real>, i: nat): real { if i < |area| then area[i] else 0.0 }

  /** Larger loops first, equal ones in their given order. */
  function LargerFirst(area: seq<real>): (nat, nat) -> bool {
    (a: nat, b: nat) => AreaOf(area, a) > AreaOf(area, b) || (AreaOf(area, a) == AreaOf(area, b) && a <= b)
  }

  lemma {:induction false} LargerOrder(area: seq<real>)
    ensures TotalOrder(LargerFirst(area))
  {
    hide AreaOf;
  }

  /** Every loop once, largest first. */
  ghost predicate Order(n: nat, area: seq<real>, order: seq<nat>) {
    && |order| == n && NoRepeats(order) && (forall i: nat :: i in order <==> i < n) && Sorted(order, LargerFirst(area))
  }

  lemma {:induction false} OrderSorted(n: nat, area: seq<real>, order: seq<nat>)
    requires Sorted(order, LargerFirst(area)) && multiset(order) == multiset(seq(n, i requires 0 <= i < n => i))
    ensures Order(n, area, order)
  {
    var all: seq<nat> := seq(n, i requires 0 <= i < n => i);
    SameLength(order, all);
    forall i: nat ensures i in order <==> i < n {
      SameMembers(order, all, i);
      if i < n { assert all[i] == i; }
    }
    NoRepeatsKept(order, all);
  }

  /** Whatever contains a loop comes before it. */
  lemma {:induction false} ContainerBefore(n: nat, area: seq<real>, inside: Inside, order: seq<nat>, k: nat, c: nat)
    requires Laminar(n, area, inside) && Order(n, area, order) && k < n && c < n && Within(inside, order[k], c)
    ensures c in order[..k]
  {
    assert c in order;
    var m :| 0 <= m < n && order[m] == c;
    assert order[k] in order;
  }

  /** The first container met going back through the larger loops is the nearest. */
  lemma {:induction false} FirstIsNearest(n: nat, area: seq<real>, inside: Inside, order: seq<nat>, k: nat, m: nat)
    requires Laminar(n, area, inside) && Order(n, area, order) && m < k < n && Within(inside, order[k], order[m])
    requires forall l :: m < l < k ==> !Within(inside, order[k], order[l])
    ensures Nearest(n, inside, order[k], order[m])
  {
    var i, p := order[k], order[m];
    assert i in order && p in order;
    forall c: nat | c < n && c != p && Within(inside, i, c) ensures Within(inside, p, c) {
      ContainerBefore(n, area, inside, order, k, c);
      var l :| 0 <= l < k && order[..k][l] == c;
      assert LargerFirst(area)(order[l], order[m]);
      assert Siblings(n, inside, i, p, c);
    }
  }

  lemma {:induction false} NoneIsOuter(n: nat, area: seq<real>, inside: Inside, order: seq<nat>, k: nat)
    requires Laminar(n, area, inside) && Order(n, area, order) && k < n
    requires forall l :: 0 <= l < k ==> !Within(inside, order[k], order[l])
    ensures Containers(n, inside, order[k]) == {}
  {
    forall c: nat ensures c !in Containers(n, inside, order[k]) {
      if c < n && Within(inside, order[k], c) { ContainerBefore(n, area, inside, order, k, c); }
    }
  }

  // ---------------------------------------------------------------- parents

  /** One loop's parent: the larger loops are tried smallest first. */
  method FindParent(rings: seq<seq<Pt>>, ghost area: seq<real>, ghost inside: Inside, order: seq<nat>, k: nat)
    returns (parent: Option<nat>, known: bool)
    requires k < |rings| == |order| && (forall l :: 0 <= l < |order| ==> order[l] < |rings|) && inside == RingsInside(rings)
    ensures parent.Some? ==> parent.value in order[..k]
    ensures var n := |rings|; Laminar(n, area, inside) && Order(n, area, order) ==>
      known && (parent.None? ==> Containers(n, inside, order[k]) == {}) && (parent.Some? ==> Nearest(n, inside, order[k], parent.value))
  {
    hide Laminar, Order, Nearest, Containers, Verdict, Candidates;
    ghost var n := |rings|;
    var m := k;
    while m > 0
      invariant 0 <= m <= k && forall l :: m <= l < k ==> !Within(inside, order[k], order[l])
    {
      m := m - 1;
      var r := RingInsideRing(rings[order[k]], rings[order[m]]);
      assert r == inside(order[k], order[m]);
      if r.None? {
        Known(n, area, inside, order, k, m);
        return None, false;
      }
      if r.value {
        if Laminar(n, area, inside) && Order(n, area, order) { FirstIsNearest(n, area, inside, order, k, m); }
        assert order[..k][m] == order[m];
        return Some(order[m]), true;
      }
    }
    if Laminar(n, area, inside) && Order(n, area, order) { NoneIsOuter(n, area, inside, order, k); }
    return None, true;
  }

  lemma {:induction false} Known(n: nat, area: seq<real>, inside: Inside, order: seq<nat>, k: nat, m: nat)
    requires m < k < n && |order| == n && inside(order[k], order[m]).None?
    ensures !(Laminar(n, area, inside) && Order(n, area, order))
  {
    if Order(n, area, order) { assert order[k] in order && order[m] in order && order[m] != order[k]; }
  }

  /** Every loop settled: parents and holes by nesting depth. */
  ghost predicate AllSettled(n: nat, inside: Inside, parent: seq<Option<nat>>, hole: seq<bool>) {
    |parent| == |hole| == n && forall i: nat :: i < n ==> Settled(n, inside, i, parent[i], hole[i])
  }

  lemma {:induction false} SettleOne(n: nat, area: seq<real>, inside: Inside, i: nat, parent: Option<nat>, hole: seq<bool>)
    requires Laminar(n, area, inside) && i < n == |hole|
    requires (parent.None? ==> Containers(n, inside, i) == {}) && (parent.Some? ==> Nearest(n, inside, i, parent.value))
    requires parent.Some? ==> (hole[parent.value] <==> |Containers(n, inside, parent.value)| % 2 == 1)
    ensures Settled(n, inside, i, parent, parent.Some? && !hole[parent.value])
  {
    if parent.Some? { NearestDepth(n, area, inside, i, parent.value); }
    hide Laminar, Nearest, Containers;
  }

  /** A hole's parent is an outer. */
  predicate HoleInOuter(parent: seq<Option<nat>>, hole: seq<bool>, i: nat)
    requires i < |hole| == |parent|
  {
    hole[i] ==> parent[i].Some? && parent[i].value < |hole| && !hole[parent[i].value]
  }

  /** The first `k` loops of the order are settled: a hole's parent is an outer settled before it. */
  predicate SettledTo(order: seq<nat>, k: nat, parent: seq<Option<nat>>, hole: seq<bool>)
    requires |order| == |hole| == |parent| && k <= |order|
  {
    forall l :: 0 <= l < k ==> order[l] < |hole| && HoleInOuter(parent, hole, order[l]) && (hole[order[l]] ==> parent[order[l]].value in order[..l])
  }

  lemma {:induction false} SettleNext(order: seq<nat>, k: nat, parent: seq<Option<nat>>, hole: seq<bool>, p: Option<nat>)
    requires |order| == |hole| == |parent| && k < |order| && NoRepeats(order) && (forall l :: 0 <= l < |order| ==> order[l] < |hole|)
    requires SettledTo(order, k, parent, hole) && (p.Some? ==> p.value < |hole| && p.value in order[..k])
    ensures SettledTo(order, k + 1, parent[order[k] := p], hole[order[k] := p.Some? && !hole[p.value]])
  {
    assert order[k] !in order[..k];
    forall l | 0 <= l < k ensures order[l] != order[k] && order[k] !in order[..l] { assert order[l] in order[..k]; }
  }

  /** Every loop's parent and whether it is a hole, larger loops first. */
  method Nest(rings: seq<seq<Pt>>, area: seq<real>) returns (parent: seq<Option<nat>>, hole: seq<bool>, known: bool)
    requires |area| == |rings|
    ensures |parent| == |hole| == |rings|
    ensures known ==> forall i: nat :: i < |rings| ==> HoleInOuter(parent, hole, i)
    ensures var inside := RingsInside(rings);
      Laminar(|rings|, area, inside) ==> known && AllSettled(|rings|, inside, parent, hole)
  {
    hide Laminar, Order, Settled, Nearest, Containers, SettledTo, HoleInOuter, RingsInside;
    var n := |rings|;
    ghost var inside := RingsInside(rings);
    var order: seq<nat> := seq(n, i requires 0 <= i < n => i);
    LargerOrder(area);
    order := Sort(order, LargerFirst(area));
    OrderSorted(n, area, order);
    OrderShape(n, area, order);
    parent, hole := seq(n, _ => None), seq(n, _ => false);
    NoneSettled(order, parent, hole);
    for k := 0 to n
      invariant |parent| == |hole| == n && SettledTo(order, k, parent, hole)
      invariant Laminar(n, area, inside) ==> forall l :: 0 <= l < k ==> Settled(n, inside, order[l], parent[order[l]], hole[order[l]])
    {
      var i := order[k];
      var p, ok := FindParent(rings, area, inside, order, k);
      if !ok {
        return parent, hole, false;
      }
      SettleNext(order, k, parent, hole, p);
      if Laminar(n, area, inside) {
        if p.Some? { ParentSettled(n, inside, order, k, p.value, parent, hole); }
        SettleOne(n, area, inside, i, p, hole);
      }
      parent := parent[i := p];
      hole := hole[i := p.Some? && !hole[p.value]];
    }
    forall i: nat | i < n ensures HoleInOuter(parent, hole, i) && (Laminar(n, area, inside) ==> Settled(n, inside, i, parent[i], hole[i])) {
      assert i in order;
      var l :| 0 <= l < n && order[l] == i;
      SettledAt(order, l, parent, hole);
    }
    known := true;
  }

  lemma {:induction false} NoneSettled(order: seq<nat>, parent: seq<Option<nat>>, hole: seq<bool>)
    requires |order| == |hole| == |parent|
    ensures SettledTo(order, 0, parent, hole)
  {
  }

  lemma {:induction false} SettledAt(order: seq<nat>, l: nat, parent: seq<Option<nat>>, hole: seq<bool>)
    requires l < |order| == |hole| == |parent| && SettledTo(order, |order|, parent, hole)
    ensures order[l] < |hole| && HoleInOuter(parent, hole, order[l])
  {
  }

  lemma {:induction false} OrderShape(n: nat, area: seq<real>, order: seq<nat>)
    requires Order(n, area, order)
    ensures |order| == n && NoRepeats(order) && (forall i: nat :: i < n ==> i in order) && (forall k :: 0 <= k < n ==> order[k] < n)
  {
    forall k | 0 <= k < n ensures order[k] < n { assert order[k] in order; }
  }

  lemma {:induction false} ParentSettled(n: nat, inside: Inside, order: seq<nat>, k: nat, p: nat, parent: seq<Option<nat>>, hole: seq<bool>)
    requires k < |order| == n == |parent| == |hole| && p < n && p in order[..k]
    requires forall l :: 0 <= l < k ==> order[l] < n && Settled(n, inside, order[l], parent[order[l]], hole[order[l]])
    ensures hole[p] <==> |Containers(n, inside, p)| % 2 == 1
  {
    hide Containers, Nearest;
    var l :| 0 <= l < k && order[..k][l] == p;
    assert Settled(n, inside, order[l], parent[order[l]], hole[order[l]]);
  }

  // ---------------------------------------------------------------- polygons

  /** The first `n` loops that are no holes, in order. */
  function Outers(hole: seq<bool>, n: nat): seq<nat>
    requires n <= |hole|
  {
    if n == 0 then [] else Outers(hole, n - 1) + if hole[n - 1] then [] else [n - 1]
  }

  /** The holes directly inside loop `p` among the first `n` loops, in order. */
  function HolesOf(parent: seq<Option<nat>>, hole: seq<bool>, p: nat, n: nat): seq<nat>
    requires n <= |hole| == |parent|
  {
    if n == 0 then [] else HolesOf(parent, hole, p, n - 1) + if hole[n - 1] && parent[n - 1] == Some(p) then [n - 1] else []
  }

  lemma {:induction false} OutersExact(hole: seq<bool>, n: nat, p: nat) returns (k: nat)
    requires n <= |hole| && p < n && !hole[p]
    ensures k < |Outers(hole, n)| && Outers(hole, n)[k] == p
  {
    if p == n - 1 { k := |Outers(hole, n - 1)|; } else { k := OutersExact(hole, n - 1, p); }
  }

  /** Outers in order, each with the holes directly inside it, in order. */
  predicate Assembled(parent: seq<Option<nat>>, hole: seq<bool>, n: nat, polys: seq<Polygon>)
    requires n <= |hole| == |parent|
  {
    && |polys| == |Outers(hole, |hole|)|
    && forall k :: 0 <= k < |polys| ==> polys[k] == Polygon(Outers(hole, |hole|)[k], HolesOf(parent, hole, Outers(hole, |hole|)[k], n))
  }

  lemma {:induction false} OutersDiffer(hole: seq<bool>, n: nat)
    requires n <= |hole|
    ensures NoRepeats(Outers(hole, n)) && forall k :: 0 <= k < |Outers(hole, n)| ==> Outers(hole, n)[k] < n && !hole[Outers(hole, n)[k]]
  {
    if n > 0 { OutersDiffer(hole, n - 1); }
  }

  method Measure(rings: seq<seq<Pt>>) returns (areas: seq<real>, ok: bool)
    ensures ok <==> Bounding(rings)
    ensures ok ==> areas == Areas(rings)
  {
    hide Area;
    areas := [];
    for i := 0 to |rings|
      invariant Bounding(rings[..i]) && areas == Areas(rings[..i])
    {
      assert rings[..i + 1] == rings[..i] + [rings[i]];
      var signed := Profile.PolygonArea2D(rings[i]);
      var area := AbsReal(signed);
      AreaIs(rings[i], signed);
      if |rings[i]| < 3 || area <= 0.0 {
        assert rings[i] in rings;
        return areas, false;
      }
      areas := areas + [area];
    }
    assert rings[..|rings|] == rings;
    ok := true;
  }

  lemma {:induction false} AreaIs(ring: seq<Pt>, signed: real)
    requires signed == LoopShoe(ring, Identity(|ring|)) / 2.0
    ensures AbsReal(signed) == Area(ring)
  {
  }

  /** A loop heads the polygon or is one of its holes. */
  predicate Belongs(poly: Polygon, i: nat) { poly.outer == i || i in poly.holes }

  ghost predicate Housed(polys: seq<Polygon>, i: nat) { exists k: nat :: k < |polys| && Belongs(polys[k], i) }

  /** Every loop is in exactly one polygon, in one place. */
  ghost predicate EachOnce(n: nat, polys: seq<Polygon>) {
    && (forall i: nat :: i < n ==> Housed(polys, i))
    && (forall k: nat, l: nat, i: nat :: k < |polys| && l < |polys| && Belongs(polys[k], i) && Belongs(polys[l], i) ==> k == l && i < n)
    && forall poly <- polys :: NoRepeats(poly.holes) && poly.outer !in poly.holes
  }

  lemma {:induction false} HolesExact(parent: seq<Option<nat>>, hole: seq<bool>, p: nat, n: nat)
    requires n <= |hole| == |parent|
    ensures NoRepeats(HolesOf(parent, hole, p, n))
    ensures forall i: nat :: i in HolesOf(parent, hole, p, n) <==> i < n && hole[i] && parent[i] == Some(p)
  {
    if n > 0 { HolesExact(parent, hole, p, n - 1); }
  }

  lemma {:induction false} PlacedOnce(parent: seq<Option<nat>>, hole: seq<bool>, n: nat, polys: seq<Polygon>)
    requires |hole| == |parent| == n && Assembled(parent, hole, n, polys)
    requires forall i: nat :: i < n ==> HoleInOuter(parent, hole, i)
    ensures EachOnce(n, polys)
  {
    hide Outers, HolesOf, Assembled;
    OutersDiffer(hole, n);
    forall k: nat | k < |polys| ensures Outer(parent, hole, n, polys, k) { PolygonIs(parent, hole, n, polys, k); }
    forall i: nat | i < n ensures Housed(polys, i) {
      assert HoleInOuter(parent, hole, i);
      HasHome(parent, hole, n, polys, i);
    }
    forall poly | poly in polys ensures NoRepeats(poly.holes) && poly.outer !in poly.holes {
      var k: nat :| k < |polys| && polys[k] == poly;
      assert Outer(parent, hole, n, polys, k);
    }
    forall k: nat, l: nat, i: nat | k < |polys| && l < |polys| && Belongs(polys[k], i) && Belongs(polys[l], i) ensures k == l && i < n {
      assert Outer(parent, hole, n, polys, k) && Outer(parent, hole, n, polys, l);
      OneHome(parent, hole, n, polys, k, l, i);
    }
  }

  /** A polygon's outer is no hole, and its holes are exactly the loops it is the parent of. */
  ghost predicate Outer(parent: seq<Option<nat>>, hole: seq<bool>, n: nat, polys: seq<Polygon>, k: nat)
    requires |hole| == |parent| == n && k < |polys|
  {
    && polys[k].outer < n && !hole[polys[k].outer] && NoRepeats(polys[k].holes)
    && forall i: nat :: i in polys[k].holes <==> i < n && hole[i] && parent[i] == Some(polys[k].outer)
  }

  lemma {:induction false} PolygonIs(parent: seq<Option<nat>>, hole: seq<bool>, n: nat, polys: seq<Polygon>, k: nat)
    requires |hole| == |parent| == n && Assembled(parent, hole, n, polys) && k < |polys|
    ensures Outer(parent, hole, n, polys, k)
  {
    hide Outers, HolesOf;
    OutersDiffer(hole, n);
    HolesExact(parent, hole, polys[k].outer, n);
  }

  lemma {:induction false} HasHome(parent: seq<Option<nat>>, hole: seq<bool>, n: nat, polys: seq<Polygon>, i: nat)
    requires |hole| == |parent| == n && Assembled(parent, hole, n, polys) && i < n && HoleInOuter(parent, hole, i)
    ensures Housed(polys, i)
  {
    hide Outers, HolesOf;
    var p := if hole[i] then parent[i].value else i;
    var k := OutersExact(hole, n, p);
    HolesExact(parent, hole, p, n);
    assert Belongs(polys[k], i);
  }

  lemma {:induction false} OneHome(parent: seq<Option<nat>>, hole: seq<bool>, n: nat, polys: seq<Polygon>, k: nat, l: nat, i: nat)
    requires |hole| == |parent| == n && Assembled(parent, hole, n, polys) && k < |polys| && l < |polys|
    requires Outer(parent, hole, n, polys, k) && Outer(parent, hole, n, polys, l) && Belongs(polys[k], i) && Belongs(polys[l], i)
    ensures k == l && i < n
  {
    hide Outers, HolesOf;
    OutersDiffer(hole, n);
    assert polys[k].outer == polys[l].outer;
  }

  /** Nests one outline's loops. It refuses loops of fewer than three points or no area, and
      edges that cross or overlap. Whatever the loops, when it answers every loop is in exactly
      one polygon: the others head one, in order, and each hole found is in its parent's. For
      simple loops that meet at points only, none passing through another, it does answer, and
      the holes are the loops at odd depth, each in the loop directly around it; a loop two
      levels down is an outer again. */
  method PolygonsFromLoops(rings: seq<seq<Pt>>) returns (polys: seq<Polygon>, ok: bool,
                                                         ghost parent: seq<Option<nat>>, ghost hole: seq<bool>)
    ensures !Bounding(rings) || EdgesOffend(rings) ==> !ok
    ensures !ok ==> polys == []
    ensures ok ==> |parent| == |hole| == |rings| && Assembled(parent, hole, |rings|, polys) && EachOnce(|rings|, polys)
    ensures ok ==> forall i: nat :: i < |rings| ==> HoleInOuter(parent, hole, i)
    ensures Nestable(rings) ==> (ok <==> !EdgesOffend(rings)) && (ok ==> AllSettled(|rings|, RingsInside(rings), parent, hole))
  {
    hide Laminar, AllSettled, Assembled, Bounding, RingsInside, EdgesOffend, Nestable, EachOnce;
    polys, parent, hole := [], [], [];
    var n := |rings|;
    if Nestable(rings) { NestableNests(rings); }
    var areas, bounding := Measure(rings);
    if !bounding {
      return polys, false, parent, hole;
    }
    var crossing := EdgesCrossOrOverlap(rings);
    if crossing {
      return polys, false, parent, hole;
    }
    var up, hollow, known := Nest(rings, areas);
    parent, hole := up, hollow;
    if !known {
      ok := false;
      return;
    }
    var index: seq<nat> := seq(n, _ => 0);
    for i := 0 to n
      invariant |index| == n && |polys| == |Outers(hollow, i)|
      invariant forall k :: 0 <= k < |polys| ==> polys[k] == Polygon(Outers(hollow, i)[k], [])
      invariant forall p: nat :: p < i && !hollow[p] ==> index[p] < |polys| && Outers(hollow, i)[index[p]] == p
    {
      if !hollow[i] {
        index := index[i := |polys|];
        polys := polys + [Polygon(i, [])];
      }
    }
    AssembledStarts(up, hollow, polys);
    for i := 0 to n
      invariant |index| == n
      invariant forall p: nat :: p < n && !hollow[p] ==> index[p] < |polys| && Outers(hollow, n)[index[p]] == p
      invariant |polys| == |Outers(hollow, n)|
      invariant Assembled(up, hollow, i, polys)
    {
      if hollow[i] {
        assert HoleInOuter(up, hollow, i);
        var at := index[up[i].value];
        HoleAdded(up, hollow, i, polys, at);
        polys := polys[at := Polygon(polys[at].outer, polys[at].holes + [i])];
      } else {
        NoHoleAdded(up, hollow, i, polys);
      }
    }
    PlacedOnce(up, hollow, n, polys);
    ok := true;
  }

  lemma {:induction false} AssembledStarts(parent: seq<Option<nat>>, hole: seq<bool>, polys: seq<Polygon>)
    requires |hole| == |parent| && |polys| == |Outers(hole, |hole|)|
    requires forall k :: 0 <= k < |polys| ==> polys[k] == Polygon(Outers(hole, |hole|)[k], [])
    ensures Assembled(parent, hole, 0, polys)
  {
  }

  lemma {:induction false} HoleAdded(parent: seq<Option<nat>>, hole: seq<bool>, i: nat, polys: seq<Polygon>, at: nat)
    requires i < |hole| == |parent| && hole[i] && parent[i].Some? && |polys| == |Outers(hole, |hole|)|
    requires at < |polys| && Outers(hole, |hole|)[at] == parent[i].value
    requires Assembled(parent, hole, i, polys)
    ensures Assembled(parent, hole, i + 1, polys[at := Polygon(polys[at].outer, polys[at].holes + [i])])
  {
    OutersDiffer(hole, |hole|);
    hide Outers;
  }

  lemma {:induction false} NoHoleAdded(parent: seq<Option<nat>>, hole: seq<bool>, i: nat, polys: seq<Polygon>)
    requires i < |hole| == |parent| && !hole[i]
    requires Assembled(parent, hole, i, polys)
    ensures Assembled(parent, hole, i + 1, polys)
  {
    hide Outers;
  }
}
