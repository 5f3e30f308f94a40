// Containment of an outline's rings as the ring test tells it, and why simple rings that meet
// at points only, none passing through another, nest.
module PlanarRings {
  import opened Common
  import opened GeoTriangulate
  import opened PolyWinding
  import opened PolySimple
  import opened PolyTwoEars
  import opened PolyClip
  import opened PlanarTouch
  import opened PlanarInside
  import opened PlanarLaminar
  import Profile = GeoProfile
  import Volume = GeoVolume

  /** Whether a loop lies inside another, when that can be told. */
  type Inside = (nat, nat) -> Option<bool>

  /** One ring in another, as the rings' points tell. */
  ghost function RingsInside(rings: seq<seq<Pt>>): Inside {
    (i: nat, j: nat) => if i < |rings| && j < |rings| then Verdict(Candidates(rings[i]), rings[j]) else None
  }

  predicate Within(inside: Inside, i: nat, j: nat) { inside(i, j) == Some(true) }

  /** Two different containers of one loop. */
  predicate Siblings(n: nat, inside: Inside, i: nat, j: nat, k: nat) {
    i < n && j < n && k < n && j != k && Within(inside, i, j) && Within(inside, i, k)
  }

  /** Containment of loops that neither cross nor repeat: known for every pair, between a
      loop and larger ones only, transitive, and the containers of a loop nested in turn. */
  ghost predicate Laminar(n: nat, area: seq<real>, inside: Inside) {
    && |area| == n
    && (forall i: nat, j: nat {:trigger inside(i, j)} :: i < n && j < n && i != j ==> inside(i, j).Some?)
    && (forall i: nat, j: nat :: i < n && j < n && Within(inside, i, j) ==> i != j && area[i] < area[j])
    && (forall i: nat, j: nat, k: nat :: i < n && j < n && k < n && Within(inside, i, j) && Within(inside, j, k) ==> Within(inside, i, k))
    && (forall i: nat, j: nat, k: nat :: Siblings(n, inside, i, j, k) ==> Within(inside, j, k) || Within(inside, k, j))
  }

  function Areas(rings: seq<seq<Pt>>): (r: seq<real>)
    ensures |r| == |rings|
  {
    seq(|rings|, i requires 0 <= i < |rings| => Area(rings[i]))
  }

  /** Every loop has three points and some area. */
  predicate Bounding(rings: seq<seq<Pt>>) { forall r <- rings :: |r| >= 3 && Area(r) > 0.0 }

  // ---------------------------------------------------------------- rings beside each other

  /** The rings meet at points only, the first does not pass through the second, and some
      tested point of it is clear of the second. */
  ghost predicate Apart(a: seq<Pt>, b: seq<Pt>) {
    && (exists ts :: MeetAt(a, b, ts))
    && (exists inside :: OneSide(a, b, inside))
    && exists c <- Candidates(a) :: !Near(c, b)
  }

  /** Rings that do not meet at all are. */
  lemma {:induction false} AsunderApart(a: seq<Pt>, b: seq<Pt>)
    requires Asunder(a, b) && exists c <- Candidates(a) :: !Near(c, b)
    ensures Apart(a, b)
  {
    hide On, Candidates, Near, InPolygon;
    AsunderDecided(a, b);
    forall p, q, c, d, w | IsEdge(a, p, q) && IsEdge(b, c, d) && On(p, q, w) ensures !On(c, d, w) {
      var k: nat :| k < |a| && a[k] == p && After(a, k) == q;
      assert Misses(b, a[k], After(a, k));
    }
    assert MeetAt(a, b, []);
  }

  /** Simple rings, each two of them beside each other. */
  ghost predicate Nestable(rings: seq<seq<Pt>>) {
    && (forall r <- rings :: Simple(r))
    && forall i: nat, j: nat :: i < |rings| && j < |rings| && i != j ==> Apart(rings[i], rings[j])
  }

  // ---------------------------------------------------------------- a quarter turn

  lemma {:induction false} TurnedMeet(a: seq<Pt>, b: seq<Pt>, ts: seq<Pt>)
    requires MeetAt(a, b, ts)
    ensures MeetAt(QuarterAll(a), QuarterAll(b), QuarterAll(ts))
  {
    hide On, IsEdge;
    var p, q := QuarterAll(a), QuarterAll(b);
    forall u, v, c, d, w | IsEdge(p, u, v) && IsEdge(q, c, d) && On(u, v, w) && On(c, d, w) ensures w in QuarterAll(ts) {
      var u', v' := QuarterEdge(a, u, v);
      var c', d' := QuarterEdge(b, c, d);
      var w' := Pt(-w.y, w.x);
      QuarterBack(w);
      QuarterOn(u', v', w');
      QuarterOn(c', d', w');
      var k :| 0 <= k < |ts| && ts[k] == w';
      assert QuarterAll(ts)[k] == w;
    }
  }

  lemma {:induction false} TurnedOff(b: seq<Pt>, w: Pt)
    requires Off(QuarterAll(b), Quarter(w))
    ensures Off(b, w)
  {
    hide On;
    forall c, d | IsEdge(b, c, d) ensures !On(c, d, w) {
      var k: nat :| k < |b| && b[k] == c && After(b, k) == d;
      EdgeAt(QuarterAll(b), k);
      QuarterOn(c, d, w);
    }
  }

  lemma {:induction false} TurnedSided(a: seq<Pt>, b: seq<Pt>, inside: bool)
    requires Simple(b) && OneSide(a, b, inside)
    ensures Sided(QuarterAll(a), QuarterAll(b), inside)
  {
    hide On, IsEdge, Simple, Winding, InPolygon;
    var p, q := QuarterAll(a), QuarterAll(b);
    forall c, d, w | IsEdge(p, c, d) && On(c, d, w) && Off(q, w) ensures Winding(q, w) != 0 <==> inside {
      var c', d' := QuarterEdge(a, c, d);
      var w' := Pt(-w.y, w.x);
      QuarterBack(w);
      QuarterOn(c', d', w');
      assert !Off(a, w');
      TurnedOff(b, w');
      SimpleInside(w', b);
    }
  }

  lemma {:induction false} TurnedSwept(s: seq<Pt>, k: nat)
    requires k <= |s|
    ensures Volume.Swept(QuarterAll(s), k) == Volume.Swept(s, k)
  {
    hide Shoe;
    if k > 0 {
      TurnedSwept(s, k - 1);
      TurnedShoe(s[k - 1], After(s, k - 1));
    }
  }

  lemma {:induction false} TurnedShoe(a: Pt, b: Pt)
    ensures Shoe(Quarter(a), Quarter(b)) == Shoe(a, b)
  {
  }

  lemma {:induction false} TurnedArea(s: seq<Pt>)
    requires s != []
    ensures Area(QuarterAll(s)) == Area(s)
  {
    TurnedSwept(s, |s|);
    Volume.SweptIsLoop(s);
    Volume.SweptIsLoop(QuarterAll(s));
    hide LoopShoe, Volume.Swept;
  }

  // ---------------------------------------------------------------- such rings nest

  lemma {:induction false} SideTold(a: seq<Pt>, b: seq<Pt>) returns (inside: bool)
    requires Apart(a, b) && Simple(b)
    ensures Verdict(Candidates(a), b) == Some(inside) && Sided(QuarterAll(a), QuarterAll(b), inside)
  {
    hide OneSide, Simple, Sided, MeetAt, Near, Candidates, Verdict;
    inside :| OneSide(a, b, inside);
    OneSideDecided(a, b, inside);
    TurnedSided(a, b, inside);
  }

  lemma {:induction false} MeetingPoints(a: seq<Pt>, b: seq<Pt>) returns (ts: seq<Pt>)
    requires Apart(a, b)
    ensures MeetAt(QuarterAll(a), QuarterAll(b), ts)
  {
    hide MeetAt;
    var us :| MeetAt(a, b, us);
    TurnedMeet(a, b, us);
    ts := QuarterAll(us);
  }

  lemma {:induction false} ChartedBy(p: seq<Pt>, q: seq<Pt>, ts: seq<Pt>, vs: seq<Pt>)
    requires MeetAt(p, q, ts) && (forall v <- p :: v in vs) && (forall v <- q :: v in vs) && forall v <- ts :: v in vs
    ensures Charted(p, q, vs)
  {
    hide On, IsEdge;
  }

  lemma {:induction false} InnerSmaller(a: seq<Pt>, b: seq<Pt>)
    requires Simple(a) && Simple(b) && Apart(a, b) && Apart(b, a) && Verdict(Candidates(a), b) == Some(true)
    ensures Area(a) < Area(b)
  {
    hide Simple, Verdict, Candidates, Apart, Sided, Area, MeetAt, Charted;
    var p, q := QuarterAll(a), QuarterAll(b);
    var pIn := SideTold(a, b);
    var qIn := SideTold(b, a);
    var ts := MeetingPoints(b, a);
    ChartedBy(q, p, ts, p + q + ts);
    QuarterSimple(a);
    QuarterSimple(b);
    InnerLess(q, p, p + q + ts, qIn);
    Profile.SimpleSome(a);
    Profile.SimpleSome(b);
    TurnedArea(a);
    TurnedArea(b);
  }

  /** One chart for three rings. */
  lemma {:induction false} ThreeCharted(a: seq<Pt>, b: seq<Pt>, c: seq<Pt>) returns (vs: seq<Pt>)
    requires Apart(a, b) && Apart(a, c) && Apart(b, c)
    ensures AllCharted(QuarterAll(a), QuarterAll(b), QuarterAll(c), vs)
  {
    hide Apart, MeetAt, Charted;
    var p, q, r := QuarterAll(a), QuarterAll(b), QuarterAll(c);
    var t := MeetingPoints(a, b);
    var t' := MeetingPoints(a, c);
    var t'' := MeetingPoints(b, c);
    vs := p + q + r + t + t' + t'';
    ChartedBy(p, q, t, vs);
    ChartedBy(p, r, t', vs);
    ChartedBy(q, r, t'', vs);
  }

  /** Three rings, each two beside each other. */
  ghost predicate Three(a: seq<Pt>, b: seq<Pt>, c: seq<Pt>) {
    && Simple(a) && Simple(b) && Simple(c)
    && Apart(a, b) && Apart(b, a) && Apart(a, c) && Apart(c, a) && Apart(b, c) && Apart(c, b)
  }

  lemma {:induction false} InnerTransitive(a: seq<Pt>, b: seq<Pt>, c: seq<Pt>)
    requires Three(a, b, c) && Verdict(Candidates(a), b) == Some(true) && Verdict(Candidates(b), c) == Some(true)
    ensures Verdict(Candidates(a), c) == Some(true)
  {
    hide Simple, Verdict, Candidates, Apart, Sided, AllCharted;
    var vs := ThreeCharted(a, b, c);
    var x := SideTold(a, b);
    var y := SideTold(b, c);
    var z := SideTold(c, b);
    var w := SideTold(a, c);
    QuarterSimple(a);
    InnerOfInner(QuarterAll(a), QuarterAll(b), QuarterAll(c), vs, w, z);
  }

  lemma {:induction false} AroundOne(a: seq<Pt>, b: seq<Pt>, c: seq<Pt>)
    requires Three(a, b, c) && Verdict(Candidates(a), b) == Some(true) && Verdict(Candidates(a), c) == Some(true)
    ensures Verdict(Candidates(b), c) == Some(true) || Verdict(Candidates(c), b) == Some(true)
  {
    hide Simple, Verdict, Candidates, Apart, Sided, AllCharted;
    var vs := ThreeCharted(a, b, c);
    var x := SideTold(a, b);
    var w := SideTold(a, c);
    var y := SideTold(b, c);
    var z := SideTold(c, b);
    QuarterSimple(a);
    RoundOne(QuarterAll(a), QuarterAll(b), QuarterAll(c), vs, y, z);
  }

  lemma {:induction false} SimpleBounds(a: seq<Pt>)
    requires Simple(a)
    ensures |a| >= 3 && Area(a) > 0.0
  {
    hide Simple, LoopShoe, EarBeside;
    Profile.SimpleSome(a);
    OneWayRound(a);
    AreaTells(a);
  }

  lemma {:induction false} NestableThree(rings: seq<seq<Pt>>, i: nat, j: nat, k: nat)
    requires Nestable(rings) && i < |rings| && j < |rings| && k < |rings| && i != j && i != k && j != k
    ensures Three(rings[i], rings[j], rings[k])
  {
    hide Simple, Apart;
  }

  lemma {:induction false} NestableTwo(rings: seq<seq<Pt>>, i: nat, j: nat)
    requires Nestable(rings) && i < |rings| && j < |rings| && i != j
    ensures Simple(rings[i]) && Simple(rings[j]) && Apart(rings[i], rings[j]) && Apart(rings[j], rings[i])
  {
    hide Simple, Apart;
  }

  /** Simple rings beside each other bound areas, and their verdicts on each other nest. */
  lemma {:induction false} NestableNests(rings: seq<seq<Pt>>)
    requires Nestable(rings)
    ensures Bounding(rings) && Laminar(|rings|, Areas(rings), RingsInside(rings))
  {
    hide Nestable, Simple, Apart, Three, Verdict, Candidates, Area;
    var n, area, inside := |rings|, Areas(rings), RingsInside(rings);
    forall r | r in rings ensures |r| >= 3 && Area(r) > 0.0 {
      SimpleIn(rings, r);
      SimpleBounds(r);
    }
    forall i: nat, j: nat | i < n && j < n && i != j ensures inside(i, j).Some? {
      NestableTwo(rings, i, j);
      var s := SideTold(rings[i], rings[j]);
    }
    forall i: nat, j: nat | i < n && j < n && Within(inside, i, j) ensures i != j && area[i] < area[j] { WithinLess(rings, i, j); }
    forall i: nat, j: nat, k: nat | i < n && j < n && k < n && Within(inside, i, j) && Within(inside, j, k) ensures Within(inside, i, k) {
      WithinLess(rings, i, j);
      WithinLess(rings, j, k);
      NestableThree(rings, i, j, k);
      InnerTransitive(rings[i], rings[j], rings[k]);
    }
    forall i: nat, j: nat, k: nat | Siblings(n, inside, i, j, k) ensures Within(inside, j, k) || Within(inside, k, j) {
      WithinLess(rings, i, j);
      WithinLess(rings, i, k);
      NestableThree(rings, i, j, k);
      AroundOne(rings[i], rings[j], rings[k]);
    }
  }

  lemma {:induction false} SimpleIn(rings: seq<seq<Pt>>, r: seq<Pt>)
    requires Nestable(rings) && r in rings
    ensures Simple(r)
  {
    hide Simple, Apart;
  }

  lemma {:induction false} WithinLess(rings: seq<seq<Pt>>, i: nat, j: nat)
    requires Nestable(rings) && i < |rings| && j < |rings| && Within(RingsInside(rings), i, j)
    ensures i != j && Areas(rings)[i] < Areas(rings)[j]
  {
    hide Nestable, Verdict, Candidates, Area, Simple, Apart;
    NoneInItself(rings[i]);
    if i != j {
      NestableTwo(rings, i, j);
      InnerSmaller(rings[i], rings[j]);
    }
  }
}
