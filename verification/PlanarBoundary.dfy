// Directed boundaries: when they close, what that makes of the area integral, and the one
// repair that closes a boundary with a single short gap.
module PlanarBoundary {
  import opened GeoTriangulate
  import Solid = GeoSolid

  type Seg = (Pt, Pt)
  type Cell = (int, int)

  const QUANTUM: real := 100000.0

  /** The weld key of a plane point. */
  function Weld(p: Pt): Cell { (Solid.Round(p.x * QUANTUM), Solid.Round(p.y * QUANTUM)) }

  /** A weld key names the nearest point of a hundred-thousandth grid. */
  lemma {:induction false} WeldExact(p: Pt, k: Cell)
    ensures Weld(p) == k <==> Solid.Nearest(p.x * 100000.0, k.0) && Solid.Nearest(p.y * 100000.0, k.1)
  {
    Solid.RoundExact(p.x * QUANTUM, k.0);
    Solid.RoundExact(p.y * QUANTUM, k.1);
    hide Solid.Round, Solid.Nearest;
  }

  function One(k: Cell, p: Pt): int { if Weld(p) == k then 1 else 0 }

  /** Segments leaving a key less segments arriving at it. */
  function Degree(segs: seq<Seg>, k: Cell): int {
    if segs == [] then 0
    else
      var s := segs[|segs| - 1];
      Degree(segs[..|segs| - 1], k) + One(k, s.0) - One(k, s.1)
  }

  ghost predicate Closes(segs: seq<Seg>) { forall k: Cell {:trigger Degree(segs, k)} :: Degree(segs, k) == 0 }

  // ---------------------------------------------------------------- cancellation

  function Outflow(segs: seq<Seg>, g: Cell -> real): real {
    if segs == [] then 0.0
    else
      var s := segs[|segs| - 1];
      Outflow(segs[..|segs| - 1], g) + g(Weld(s.0)) - g(Weld(s.1))
  }

  /** Keys with weights: a finite sum over the keys some segments touch. */
  function Weighed(segs: seq<Seg>, keys: seq<Cell>, g: Cell -> real): real {
    if keys == [] then 0.0
    else Weighed(segs, keys[..|keys| - 1], g) + (Degree(segs, keys[|keys| - 1]) as real) * g(keys[|keys| - 1])
  }

  predicate Different(keys: seq<Cell>) { forall i, j :: 0 <= i < j < |keys| ==> keys[i] != keys[j] }

  lemma {:induction false} WeighedEmpty(keys: seq<Cell>, g: Cell -> real)
    ensures Weighed([], keys, g) == 0.0
  {
    if keys != [] { WeighedEmpty(keys[..|keys| - 1], g); }
  }

  function Picked(keys: seq<Cell>, p: Pt, g: Cell -> real): real {
    if Weld(p) in keys then g(Weld(p)) else 0.0
  }

  lemma {:induction false} DegreeMore(segs: seq<Seg>, s: Seg, k: Cell)
    ensures Degree(segs + [s], k) == Degree(segs, k) + One(k, s.0) - One(k, s.1)
  {
    assert (segs + [s])[..|segs|] == segs;
  }

  lemma {:induction false} WeightMore(d: int, a: int, b: int, v: real)
    requires 0 <= a <= 1 && 0 <= b <= 1
    ensures ((d + a - b) as real) * v == (d as real) * v + (if a == 1 then v else 0.0) - (if b == 1 then v else 0.0)
  {
    var r := d as real;
    if a == b {
      assert (d + a - b) as real == r;
    } else if a == 1 {
      assert (d + a - b) as real == r + 1.0;
    } else {
      assert (d + a - b) as real == r - 1.0;
    }
  }

  lemma {:induction false} WeighedMore(segs: seq<Seg>, s: Seg, keys: seq<Cell>, g: Cell -> real)
    requires Different(keys)
    ensures Weighed(segs + [s], keys, g) == Weighed(segs, keys, g) + Picked(keys, s.0, g) - Picked(keys, s.1, g)
  {
    hide Weld, Degree;
    if keys != [] {
      var k, front := keys[|keys| - 1], keys[..|keys| - 1];
      WeighedMore(segs, s, front, g);
      assert forall x :: x in keys <==> x in front || x == k;
      assert k !in front;
      DegreeMore(segs, s, k);
      WeightMore(Degree(segs, k), One(k, s.0), One(k, s.1), g(k));
    }
  }

  lemma {:induction false} OutflowWeighed(segs: seq<Seg>, keys: seq<Cell>, g: Cell -> real)
    requires Different(keys) && forall s <- segs :: Weld(s.0) in keys && Weld(s.1) in keys
    ensures Outflow(segs, g) == Weighed(segs, keys, g)
  {
    hide Weld;
    if segs == [] {
      WeighedEmpty(keys, g);
    } else {
      var front, s := segs[..|segs| - 1], segs[|segs| - 1];
      assert segs == front + [s] && s in segs;
      OutflowWeighed(front, keys, g);
      WeighedMore(front, s, keys, g);
    }
  }

  lemma {:induction false} WeighedClosed(segs: seq<Seg>, keys: seq<Cell>, g: Cell -> real)
    requires Closes(segs)
    ensures Weighed(segs, keys, g) == 0.0
  {
    if keys != [] { WeighedClosed(segs, keys[..|keys| - 1], g); }
  }

  function WithKey(keys: seq<Cell>, k: Cell): seq<Cell> { if k in keys then keys else keys + [k] }

  function KeysOf(segs: seq<Seg>): (keys: seq<Cell>)
    ensures Different(keys)
  {
    if segs == [] then []
    else
      var s := segs[|segs| - 1];
      WithKey(WithKey(KeysOf(segs[..|segs| - 1]), Weld(s.0)), Weld(s.1))
  }

  lemma {:induction false} KeysCover(segs: seq<Seg>)
    ensures forall s <- segs :: Weld(s.0) in KeysOf(segs) && Weld(s.1) in KeysOf(segs)
  {
    hide Weld;
    if segs != [] {
      var front := segs[..|segs| - 1];
      KeysCover(front);
      forall s | s in segs ensures Weld(s.0) in KeysOf(segs) && Weld(s.1) in KeysOf(segs) {
        assert s in front || s == segs[|segs| - 1];
      }
    }
  }

  /** Round a closed boundary, whatever is measured at the keys cancels. */
  lemma {:induction false} ClosedCancels(segs: seq<Seg>, g: Cell -> real)
    requires Closes(segs)
    ensures Outflow(segs, g) == 0.0
  {
    KeysCover(segs);
    OutflowWeighed(segs, KeysOf(segs), g);
    WeighedClosed(segs, KeysOf(segs), g);
  }

  // ---------------------------------------------------------------- the area integral

  /** Twice the area a directed boundary sweeps about the origin. */
  function Swept(segs: seq<Seg>): real {
    if segs == [] then 0.0 else Swept(segs[..|segs| - 1]) + Shoe(segs[|segs| - 1].0, segs[|segs| - 1].1)
  }

  function Moved(segs: seq<Seg>, t: Pt): (r: seq<Seg>)
    ensures |r| == |segs|
  {
    seq(|segs|, i requires 0 <= i < |segs| => (MovePt(segs[i].0, t), MovePt(segs[i].1, t)))
  }

  function MovePt(p: Pt, t: Pt): Pt { Pt(p.x + t.x, p.y + t.y) }

  /** The net displacement along an axis. */
  function NetX(segs: seq<Seg>): real {
    if segs == [] then 0.0 else NetX(segs[..|segs| - 1]) + (segs[|segs| - 1].0.x - segs[|segs| - 1].1.x)
  }

  function NetY(segs: seq<Seg>): real {
    if segs == [] then 0.0 else NetY(segs[..|segs| - 1]) + (segs[|segs| - 1].0.y - segs[|segs| - 1].1.y)
  }

  lemma {:induction false} ShoeMoved(a: Pt, b: Pt, t: Pt)
    ensures Shoe(MovePt(a, t), MovePt(b, t)) == Shoe(a, b) + t.y * (a.x - b.x) - t.x * (a.y - b.y)
  {
  }

  lemma {:induction false} Shared(z: real, a: real, b: real)
    ensures z * (a + b) == z * a + z * b
  {
  }

  lemma {:induction false} SweptMoved(segs: seq<Seg>, t: Pt)
    ensures Swept(Moved(segs, t)) == Swept(segs) + t.y * NetX(segs) - t.x * NetY(segs)
  {
    if segs != [] {
      var front, s := segs[..|segs| - 1], segs[|segs| - 1];
      SweptMoved(front, t);
      assert Moved(segs, t)[..|segs| - 1] == Moved(front, t);
      SweptLast(segs);
      SweptLast(Moved(segs, t));
      ShoeMoved(s.0, s.1, t);
      hide Shoe, Swept, MovePt;
      MovedSum(t.y, NetX(front), s.0.x - s.1.x, t.x, NetY(front), s.0.y - s.1.y);
    }
  }

  lemma {:induction false} SweptLast(segs: seq<Seg>)
    requires segs != []
    ensures Swept(segs) == Swept(segs[..|segs| - 1]) + Shoe(segs[|segs| - 1].0, segs[|segs| - 1].1)
  {
  }

  lemma {:induction false} MovedSum(a: real, b: real, c: real, d: real, e: real, f: real)
    ensures a * (b + c) == a * b + a * c && d * (e + f) == d * e + d * f
  {
  }

  const HALF: real := 0.000005

  lemma {:induction false} Rounded(r: real)
    ensures -HALF <= r - (Solid.Round(r * QUANTUM) as real) / QUANTUM <= HALF
  {
    var v, k := r * QUANTUM, Solid.Round(r * QUANTUM);
    assert -0.5 <= v - k as real <= 0.5;
  }

  function CellX(k: Cell): real { (k.0 as real) / QUANTUM }
  function CellY(k: Cell): real { (k.1 as real) / QUANTUM }

  /** A net displacement is the keys' own, give or take a rounding at each end. */
  lemma {:induction false} NetNearKeys(segs: seq<Seg>)
    ensures -(2.0 * HALF * |segs| as real) <= NetX(segs) - Outflow(segs, CellX) <= 2.0 * HALF * |segs| as real
    ensures -(2.0 * HALF * |segs| as real) <= NetY(segs) - Outflow(segs, CellY) <= 2.0 * HALF * |segs| as real
  {
    if segs != [] {
      var s := segs[|segs| - 1];
      NetNearKeys(segs[..|segs| - 1]);
      Rounded(s.0.x);
      Rounded(s.0.y);
      Rounded(s.1.x);
      Rounded(s.1.y);
      hide Solid.Round;
    }
  }

  lemma {:induction false} Scaled(t: real, v: real, e: real)
    requires -e <= v <= e
    ensures AbsReal(t * v) <= AbsReal(t) * e
  {
    if t >= 0.0 {
      assert t * v <= t * e && t * v >= t * -e;
    } else {
      assert -t * v <= -t * e && -t * v >= -t * -e;
    }
  }

  /** Translating a boundary that closes by weld key moves its doubled area by at most the
      size of the translation times one weld quantum a segment. */
  lemma {:induction false} ClosedAreaSteady(segs: seq<Seg>, t: Pt)
    requires Closes(segs)
    ensures AbsReal(Swept(Moved(segs, t)) - Swept(segs)) <= (AbsReal(t.x) + AbsReal(t.y)) * (0.00001 * |segs| as real)
  {
    hide Swept, Shoe, Outflow, Closes;
    var e := 0.00001 * |segs| as real;
    SweptMoved(segs, t);
    ClosedCancels(segs, CellX);
    ClosedCancels(segs, CellY);
    NetNearKeys(segs);
    ScaledBoth(t.x, t.y, NetX(segs), NetY(segs), e);
  }

  lemma {:induction false} ScaledBoth(tx: real, ty: real, nx: real, ny: real, e: real)
    requires -e <= nx <= e && -e <= ny <= e
    ensures AbsReal(ty * nx - tx * ny) <= (AbsReal(tx) + AbsReal(ty)) * e
  {
    Scaled(ty, nx, e);
    Scaled(tx, ny, e);
    Triangle(ty * nx, tx * ny);
    Shared(e, AbsReal(tx), AbsReal(ty));
  }

  lemma {:induction false} Triangle(a: real, b: real)
    ensures AbsReal(a - b) <= AbsReal(a) + AbsReal(b)
  {
  }

  /** End points that weld together are the same point. */
  ghost predicate WeldsExact(segs: seq<Seg>) {
    forall i, j :: 0 <= i < |segs| && 0 <= j < |segs| ==>
      && (Weld(segs[i].0) == Weld(segs[j].0) ==> segs[i].0 == segs[j].0)
      && (Weld(segs[i].0) == Weld(segs[j].1) ==> segs[i].0 == segs[j].1)
      && (Weld(segs[i].1) == Weld(segs[j].1) ==> segs[i].1 == segs[j].1)
  }

  /** The point a key stands for. */
  ghost function PointAt(segs: seq<Seg>, k: Cell): Pt {
    if exists i :: 0 <= i < |segs| && Weld(segs[i].0) == k then
      var i :| 0 <= i < |segs| && Weld(segs[i].0) == k; segs[i].0
    else if exists i :: 0 <= i < |segs| && Weld(segs[i].1) == k then
      var i :| 0 <= i < |segs| && Weld(segs[i].1) == k; segs[i].1
    else Pt(0.0, 0.0)
  }

  lemma {:induction false} EndsAt(segs: seq<Seg>, i: nat)
    requires WeldsExact(segs) && i < |segs|
    ensures PointAt(segs, Weld(segs[i].0)) == segs[i].0 && PointAt(segs, Weld(segs[i].1)) == segs[i].1
  {
    hide Weld;
  }

  lemma {:induction false} NetIsOutflow(all: seq<Seg>, n: nat, gx: Cell -> real, gy: Cell -> real)
    requires WeldsExact(all) && n <= |all|
    requires forall k: Cell :: gx(k) == PointAt(all, k).x && gy(k) == PointAt(all, k).y
    ensures NetX(all[..n]) == Outflow(all[..n], gx) && NetY(all[..n]) == Outflow(all[..n], gy)
  {
    if n > 0 {
      NetIsOutflow(all, n - 1, gx, gy);
      EndsAt(all, n - 1);
      assert all[..n][..n - 1] == all[..n - 1];
      hide PointAt, Weld;
    }
  }

  /** ... and by nothing at all when weld-equal end points coincide. */
  lemma {:induction false} ExactAreaFixed(segs: seq<Seg>, t: Pt)
    requires Closes(segs) && WeldsExact(segs)
    ensures Swept(Moved(segs, t)) == Swept(segs)
  {
    hide PointAt, Weld, Closes, WeldsExact, Outflow, Swept;
    var gx: Cell -> real, gy: Cell -> real := (k: Cell) => PointAt(segs, k).x, (k: Cell) => PointAt(segs, k).y;
    SweptMoved(segs, t);
    ClosedCancels(segs, gx);
    ClosedCancels(segs, gy);
    NetIsOutflow(segs, |segs|, gx, gy);
    assert segs[..|segs|] == segs;
  }

  // ---------------------------------------------------------------- deciding and repairing closure

  function Get(m: map<Cell, int>, k: Cell): int { if k in m then m[k] else 0 }

  /** The last point given for a key, in segment order, start before end. */
  function LastPoint(segs: seq<Seg>, k: Cell): Pt {
    if segs == [] then Pt(0.0, 0.0)
    else
      var s := segs[|segs| - 1];
      if Weld(s.1) == k then s.1 else if Weld(s.0) == k then s.0 else LastPoint(segs[..|segs| - 1], k)
  }

  /** Every key's degree and last point. */
  method Tally(segs: seq<Seg>) returns (degree: map<Cell, int>, point: map<Cell, Pt>)
    ensures forall k: Cell :: Get(degree, k) == Degree(segs, k)
    ensures degree.Keys == point.Keys
    ensures forall k <- point :: point[k] == LastPoint(segs, k) && Weld(point[k]) == k
  {
    hide Weld;
    degree, point := map[], map[];
    for i := 0 to |segs|
      invariant forall k: Cell :: Get(degree, k) == Degree(segs[..i], k)
      invariant degree.Keys == point.Keys
      invariant forall k <- point :: point[k] == LastPoint(segs[..i], k) && Weld(point[k]) == k
    {
      var a, b := Weld(segs[i].0), Weld(segs[i].1);
      assert segs[..i + 1][..i] == segs[..i];
      degree := degree[a := Get(degree, a) + 1];
      degree := degree[b := Get(degree, b) - 1];
      point := point[a := segs[i].0][b := segs[i].1];
    }
    assert segs[..|segs|] == segs;
  }

  /** Whether as many segments leave every key as arrive at it. */
  method BoundaryCloses(segs: seq<Seg>) returns (closes: bool)
    ensures closes <==> Closes(segs)
  {
    hide Degree;
    var degree, _ := Tally(segs);
    var left := degree.Keys;
    while left != {}
      invariant left <= degree.Keys
      invariant forall k <- degree :: k !in left ==> degree[k] == 0
      decreases |left|
    {
      var k :| k in left;
      left := left - {k};
      if degree[k] != 0 {
        assert Get(degree, k) == Degree(segs, k);
        return false;
      }
    }
    forall k: Cell ensures Degree(segs, k) == 0 {
      assert Get(degree, k) == Degree(segs, k);
    }
    closes := true;
  }

  /** Two points no further apart than a bridge may be. */
  predicate Near(a: Pt, b: Pt) {
    (b.x - a.x) * (b.x - a.x) + (b.y - a.y) * (b.y - a.y) <= 0.0001
  }

  /** One open chain: an end that wants a segment out, one that wants a segment in, and every
      other key balanced. */
  ghost predicate OpenChain(segs: seq<Seg>, out: Cell, into: Cell) {
    && Degree(segs, out) == -1 && Degree(segs, into) == 1
    && forall k: Cell {:trigger Degree(segs, k)} :: k != out && k != into ==> Degree(segs, k) == 0
  }

  ghost predicate Bridgeable(segs: seq<Seg>) {
    exists out: Cell, into: Cell :: OpenChain(segs, out, into) && Near(LastPoint(segs, out), LastPoint(segs, into))
  }

  /** The keys whose degree is not zero, each once. */
  method LooseKeys(degree: map<Cell, int>) returns (keys: seq<Cell>)
    ensures Different(keys)
    ensures forall k: Cell :: k in keys <==> Get(degree, k) != 0
  {
    keys := [];
    var left := degree.Keys;
    while left != {}
      invariant left <= degree.Keys && Different(keys)
      invariant forall k: Cell :: k in keys <==> Get(degree, k) != 0 && k !in left
      decreases |left|
    {
      var k :| k in left;
      left := left - {k};
      if degree[k] != 0 {
        keys := keys + [k];
      }
    }
  }

  predicate KeyLess(a: Cell, b: Cell) { if a.0 != b.0 then a.0 < b.0 else a.1 < b.1 }

  lemma {:induction false} ThirdKey(keys: seq<Cell>, a: Cell, b: Cell)
    requires Different(keys) && |keys| > 2
    ensures exists k :: k in keys && k != a && k != b
  {
    var x, y, z := keys[0], keys[1], keys[2];
    assert x in keys && y in keys && z in keys && x != y && y != z && x != z;
  }

  /** A chain's two ends are all the loose keys there are. */
  lemma {:induction false} ChainKeys(segs: seq<Seg>, keys: seq<Cell>, out: Cell, into: Cell)
    requires OpenChain(segs, out, into)
    requires Different(keys) && forall k: Cell :: k in keys <==> Degree(segs, k) != 0
    ensures |keys| == 2 && (keys == [out, into] || keys == [into, out])
  {
    assert out in keys && into in keys;
    assert forall k <- keys :: k == out || k == into;
    if |keys| > 2 { ThirdKey(keys, out, into); }
  }

  /** One segment between the loose ends closes the chain. */
  lemma {:induction false} BridgeCloses(segs: seq<Seg>, a: Pt, b: Pt)
    requires OpenChain(segs, Weld(a), Weld(b))
    ensures Closes(segs + [(a, b)])
  {
    hide Weld;
    forall k: Cell ensures Degree(segs + [(a, b)], k) == 0 {
      DegreeMore(segs, (a, b), k);
    }
  }

  /** Closes a boundary left open by one short gap, and refuses every other open boundary.
      The added segment always restores closure: the last refusal is never taken. */
  method BridgeOpenBoundary(segs: seq<Seg>) returns (out: seq<Seg>, bridged: bool, ok: bool)
    ensures ok <==> Closes(segs) || Bridgeable(segs)
    ensures bridged <==> ok && !Closes(segs)
    ensures ok ==> Closes(out)
    ensures ok && !bridged ==> out == segs
    ensures bridged ==> |out| == |segs| + 1 && out[..|segs|] == segs && Near(out[|segs|].0, out[|segs|].1)
    ensures !ok ==> out == []
  {
    hide Closes, Near;
    var closes := BoundaryCloses(segs);
    if closes {
      return segs, false, true;
    }
    var degree, point := Tally(segs);
    var keys := LooseKeys(degree);
    hide Degree, Weld, LastPoint;
    assert forall k: Cell :: k in keys <==> Degree(segs, k) != 0;
    if |keys| != 2 {
      forall o: Cell, i: Cell | OpenChain(segs, o, i) ensures false { ChainKeys(segs, keys, o, i); }
      return [], false, false;
    }
    assert Get(degree, keys[0]) != 0 && Get(degree, keys[1]) != 0;
    if KeyLess(keys[1], keys[0]) {
      keys := [keys[1], keys[0]];
    }
    assert Get(degree, keys[0]) != 0 && Get(degree, keys[1]) != 0;
    var from, to: Cell;
    if degree[keys[0]] == -1 && degree[keys[1]] == 1 {
      from, to := keys[0], keys[1];
    } else if degree[keys[0]] == 1 && degree[keys[1]] == -1 {
      from, to := keys[1], keys[0];
    } else {
      forall o: Cell, i: Cell | OpenChain(segs, o, i) ensures false { ChainKeys(segs, keys, o, i); }
      return [], false, false;
    }
    assert OpenChain(segs, from, to);
    var a, b := point[from], point[to];
    if !Near(a, b) {
      forall o: Cell, i: Cell | OpenChain(segs, o, i) ensures o == from && i == to { ChainKeys(segs, keys, o, i); }
      return [], false, false;
    }
    out := segs + [(a, b)];
    BridgeCloses(segs, a, b);
    closes := BoundaryCloses(out);
    if !closes {
      assert false;
    }
    bridged, ok := true, true;
  }
}
