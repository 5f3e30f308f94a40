// A closed chain cut by vertical lines: the cuts count its winding, and summed over slabs they
// measure its area. More winding everywhere is more area.
module PlanarCuts {
  import opened PolySimple

  // ---------------------------------------------------------------- cuts on a line

  /** Where an edge passes a vertical line, and which way. */
  datatype Cut = Cut(y: real, d: int)

  /** The direction, summed. */
  function Net(cs: seq<Cut>): int { if cs == [] then 0 else Net(cs[..|cs| - 1]) + cs[|cs| - 1].d }

  /** ... of the cuts below a height. */
  function Beneath(cs: seq<Cut>, y: real): int {
    if cs == [] then 0 else Beneath(cs[..|cs| - 1], y) + if cs[|cs| - 1].y < y then cs[|cs| - 1].d else 0
  }

  function Weigh(d: int, y: real): real { d as real * y }

  /** ... weighed by height. */
  function Moment(cs: seq<Cut>): real {
    if cs == [] then 0.0 else Moment(cs[..|cs| - 1]) + Weigh(cs[|cs| - 1].d, cs[|cs| - 1].y)
  }

  lemma {:induction false} WeighSum(d: int, e: int, y: real)
    ensures Weigh(d + e, y) == Weigh(d, y) + Weigh(e, y) && Weigh(-d, y) == -Weigh(d, y) && Weigh(0, y) == 0.0
  {
    assert (d + e) as real == d as real + e as real;
  }

  lemma {:induction false} WeighDrop(d: int, t: real, u: real)
    ensures Weigh(d, t) == Weigh(d, u) + Weigh(d, t - u)
  {
  }

  predicate Free(cs: seq<Cut>, y: real) { forall k :: 0 <= k < |cs| ==> cs[k].y != y }

  lemma {:induction false} JoinCuts(a: seq<Cut>, b: seq<Cut>, y: real)
    ensures Net(a + b) == Net(a) + Net(b) && Beneath(a + b, y) == Beneath(a, y) + Beneath(b, y) && Moment(a + b) == Moment(a) + Moment(b)
  {
    if b == [] {
      assert a + b == a;
    } else {
      assert (a + b)[..|a + b| - 1] == a + b[..|b| - 1];
      JoinCuts(a, b[..|b| - 1], y);
    }
  }

  function Negated(cs: seq<Cut>): (r: seq<Cut>)
    ensures |r| == |cs| && forall k :: 0 <= k < |cs| ==> r[k] == Cut(cs[k].y, -cs[k].d)
  {
    seq(|cs|, k requires 0 <= k < |cs| => Cut(cs[k].y, -cs[k].d))
  }

  lemma {:induction false} NegatedSums(cs: seq<Cut>, y: real)
    ensures Net(Negated(cs)) == -Net(cs) && Beneath(Negated(cs), y) == -Beneath(cs, y) && Moment(Negated(cs)) == -Moment(cs)
  {
    if cs != [] {
      var n := |cs| - 1;
      NegatedSums(cs[..n], y);
      assert Negated(cs)[..n] == Negated(cs[..n]);
      WeighSum(cs[n].d, 0, cs[n].y);
    }
  }

  /** Between heights with no cut from the one up to the other, the count below is the same. */
  lemma {:induction false} BelowSame(cs: seq<Cut>, y: real, z: real)
    requires y <= z && forall k :: 0 <= k < |cs| ==> !(y <= cs[k].y < z)
    ensures Beneath(cs, y) == Beneath(cs, z)
  {
    if cs != [] {
      var n := |cs| - 1;
      assert forall k :: 0 <= k < n ==> cs[..n][k] == cs[k];
      BelowSame(cs[..n], y, z);
      assert !(y <= cs[n].y < z);
    }
  }

  lemma {:induction false} BelowNone(cs: seq<Cut>, y: real)
    requires forall k :: 0 <= k < |cs| ==> cs[k].y >= y
    ensures Beneath(cs, y) == 0
  {
    if cs != [] {
      var n := |cs| - 1;
      assert forall k :: 0 <= k < n ==> cs[..n][k] == cs[k];
      BelowNone(cs[..n], y);
      assert cs[n].y >= y;
    }
  }

  lemma {:induction false} BelowAll(cs: seq<Cut>, y: real)
    requires forall k :: 0 <= k < |cs| ==> cs[k].y < y
    ensures Beneath(cs, y) == Net(cs)
  {
    if cs != [] {
      var n := |cs| - 1;
      assert forall k :: 0 <= k < n ==> cs[..n][k] == cs[k];
      BelowAll(cs[..n], y);
      assert cs[n].y < y;
    }
  }

  // ---------------------------------------------------------------- more below is less moment

  /** The highest cut. */
  function Top(cs: seq<Cut>): (t: real)
    requires cs != []
    ensures (forall k :: 0 <= k < |cs| ==> cs[k].y <= t) && exists k :: 0 <= k < |cs| && cs[k].y == t
  {
    if |cs| == 1 then
      assert cs[0].y == cs[0].y; cs[0].y
    else
      var n := |cs| - 1;
      var t := Top(cs[..n]);
      assert forall k :: 0 <= k < n ==> cs[..n][k] == cs[k];
      assert exists k :: 0 <= k < n && cs[k].y == t by { var k :| 0 <= k < n && cs[..n][k].y == t; assert cs[k].y == t; }
      if cs[n].y > t then cs[n].y else t
  }

  /** How many cuts are lower than a height. */
  function Lower(cs: seq<Cut>, t: real): nat {
    if cs == [] then 0 else Lower(cs[..|cs| - 1], t) + if cs[|cs| - 1].y < t then 1 else 0
  }

  /** The cuts at height `t` brought down to `u`. */
  function Lowered(cs: seq<Cut>, t: real, u: real): (r: seq<Cut>)
    ensures |r| == |cs| && forall k :: 0 <= k < |cs| ==> r[k] == Cut(if cs[k].y == t then u else cs[k].y, cs[k].d)
  {
    seq(|cs|, k requires 0 <= k < |cs| => Cut(if cs[k].y == t then u else cs[k].y, cs[k].d))
  }

  lemma {:induction false} LoweredFront(cs: seq<Cut>, t: real, u: real)
    requires cs != []
    ensures var n := |cs| - 1; Lowered(cs, t, u)[..n] == Lowered(cs[..n], t, u)
  {
  }

  lemma {:induction false} LoweredNet(cs: seq<Cut>, t: real, u: real, y: real)
    requires u < t
    ensures Net(Lowered(cs, t, u)) == Net(cs)
    ensures y <= u ==> Beneath(Lowered(cs, t, u), y) == Beneath(cs, y)
  {
    if cs != [] {
      LoweredNet(cs[..|cs| - 1], t, u, y);
      LoweredFront(cs, t, u);
    }
  }

  /** Lowering the top cuts lowers the moment by their own sum times the drop. */
  lemma {:induction false} LoweredSum(cs: seq<Cut>, t: real, u: real)
    requires u < t && forall k :: 0 <= k < |cs| ==> cs[k].y <= t
    ensures Moment(cs) == Moment(Lowered(cs, t, u)) + Weigh(Net(cs) - Beneath(cs, t), t - u)
  {
    if cs != [] {
      var n := |cs| - 1;
      var front, c, r := cs[..n], cs[n], Lowered(cs, t, u);
      assert c.y <= t && forall k :: 0 <= k < n ==> front[k] == cs[k];
      LoweredSum(front, t, u);
      LoweredFront(cs, t, u);
      WeighSum(Net(front) - Beneath(front, t), c.d, t - u);
      WeighDrop(c.d, t, u);
      hide Weigh;
    }
  }

  lemma {:induction false} LowerFewer(cs: seq<Cut>, t: real, u: real)
    requires u < t && (forall k :: 0 <= k < |cs| ==> cs[k].y <= u || cs[k].y == t)
    ensures Lower(Lowered(cs, t, u), u) <= Lower(cs, t)
    ensures (exists k :: 0 <= k < |cs| && cs[k].y == u) ==> Lower(Lowered(cs, t, u), u) < Lower(cs, t)
  {
    if cs != [] {
      var n := |cs| - 1;
      assert forall k :: 0 <= k < n ==> cs[..n][k] == cs[k];
      LowerFewer(cs[..n], t, u);
      assert Lowered(cs, t, u)[..n] == Lowered(cs[..n], t, u);
      if k :| 0 <= k < |cs| && cs[k].y == u {
        assert k < n ==> cs[..n][k].y == u;
      }
    }
  }

  /** The cuts under a height. */
  function Under(cs: seq<Cut>, t: real): (r: seq<Cut>)
    ensures forall k :: 0 <= k < |r| ==> r[k].y < t && r[k] in cs
    ensures forall k :: 0 <= k < |cs| && cs[k].y < t ==> cs[k] in r
  {
    if cs == [] then []
    else
      var n := |cs| - 1;
      var r := Under(cs[..n], t);
      assert forall k :: 0 <= k < n ==> cs[..n][k] == cs[k];
      if cs[n].y < t then r + [cs[n]] else r
  }

  /** Nowhere negative. */
  ghost predicate NeverBelow(cs: seq<Cut>) {
    forall y :: Free(cs, y) ==> Beneath(cs, y) >= 0
  }

  /** Cuts that come to nothing and whose count is nowhere negative have no positive moment, and
      a negative one when the count is positive somewhere. */
  lemma {:induction false} MomentFalls(cs: seq<Cut>)
    requires Net(cs) == 0 && NeverBelow(cs)
    ensures Moment(cs) <= 0.0
    ensures (exists y :: Free(cs, y) && Beneath(cs, y) > 0) ==> Moment(cs) < 0.0
    decreases if cs == [] then 0 else Lower(cs, Top(cs))
  {
    if cs != [] {
      var t := Top(cs);
      var rest := Under(cs, t);
      if rest == [] {
        LevelMoment(cs, t);
        forall y | Free(cs, y) ensures Beneath(cs, y) == 0 {
          if y < t { LevelBelow(cs, t, y); } else { TopBelow(cs, t, y); }
        }
      } else {
        var u := Top(rest);
        NextTop(cs, t, u);
        LowerStep(cs, t, u);
        var low := Lowered(cs, t, u);
        LowerFewer(cs, t, u);
        TopOfLowered(cs, t, u);
        MomentFalls(low);
        if y :| Free(cs, y) && Beneath(cs, y) > 0 { LowerWitness(cs, t, u, y); }
      }
    }
  }

  /** The heights of the cuts are at most `u`, or `t` above it, and some is `u`. */
  ghost predicate TwoTops(cs: seq<Cut>, t: real, u: real) {
    u < t && (forall k :: 0 <= k < |cs| ==> cs[k].y <= u || cs[k].y == t) && exists k :: 0 <= k < |cs| && cs[k].y == u
  }

  lemma {:induction false} NextTop(cs: seq<Cut>, t: real, u: real)
    requires (forall k :: 0 <= k < |cs| ==> cs[k].y <= t) && Under(cs, t) != [] && u == Top(Under(cs, t))
    ensures TwoTops(cs, t, u)
  {
    var rest := Under(cs, t);
    forall k | 0 <= k < |cs| ensures cs[k].y <= u || cs[k].y == t {
      if cs[k].y < t {
        var j :| 0 <= j < |rest| && rest[j] == cs[k];
        assert rest[j].y <= u;
      }
    }
    var j :| 0 <= j < |rest| && rest[j].y == u;
    var k :| 0 <= k < |cs| && cs[k] == rest[j];
    assert cs[k].y == u;
  }

  lemma {:induction false} TopOfLowered(cs: seq<Cut>, t: real, u: real)
    requires cs != [] && TwoTops(cs, t, u)
    ensures Top(Lowered(cs, t, u)) == u
  {
    var low := Lowered(cs, t, u);
    var k :| 0 <= k < |cs| && cs[k].y == u;
    assert low[k].y == u;
    var j :| 0 <= j < |low| && low[j].y == Top(low);
    assert low[j].y <= u;
  }

  /** Between the two top heights the count is that below the top. */
  lemma {:induction false} BetweenTops(cs: seq<Cut>, t: real, u: real, y: real)
    requires TwoTops(cs, t, u) && u < y < t
    ensures Free(cs, y) && Beneath(cs, y) == Beneath(cs, t)
  {
    BelowSame(cs, y, t);
  }

  /** Lowering the top cuts to the next height keeps the count from being negative, and lowers
      no moment. */
  lemma {:induction false} LowerStep(cs: seq<Cut>, t: real, u: real)
    requires Net(cs) == 0 && NeverBelow(cs) && TwoTops(cs, t, u)
    ensures Net(Lowered(cs, t, u)) == 0 && NeverBelow(Lowered(cs, t, u)) && Moment(cs) <= Moment(Lowered(cs, t, u))
  {
    var low := Lowered(cs, t, u);
    BetweenTops(cs, t, u, (t + u) / 2.0);
    LoweredNet(cs, t, u, u);
    LoweredSum(cs, t, u);
    DropSign(Beneath(cs, t), t - u);
    var k :| 0 <= k < |cs| && cs[k].y == u;
    assert low[k].y == u;
    forall y | Free(low, y) ensures Beneath(low, y) >= 0 {
      if y < u {
        LoweredNet(cs, t, u, y);
        StillFree(cs, t, u, y);
      } else {
        assert forall j :: 0 <= j < |low| ==> low[j].y <= u;
        assert y != u;
        BelowAll(low, y);
      }
    }
  }

  lemma {:induction false} DropSign(d: int, w: real)
    requires w > 0.0
    ensures d >= 0 ==> Weigh(0 - d, w) <= 0.0
    ensures d > 0 ==> Weigh(0 - d, w) < 0.0
  {
    var r := (0 - d) as real;
    if d >= 0 { Signs(w, r); }
  }

  lemma {:induction false} StillFree(cs: seq<Cut>, t: real, u: real, y: real)
    requires TwoTops(cs, t, u) && y < u
    ensures Free(Lowered(cs, t, u), y) <==> Free(cs, y)
  {
    var low := Lowered(cs, t, u);
    if Free(low, y) {
      forall k | 0 <= k < |cs| ensures cs[k].y != y { assert low[k].y != y; }
    }
  }

  /** Where the count is positive, it still is after lowering, or the moment has fallen. */
  lemma {:induction false} LowerWitness(cs: seq<Cut>, t: real, u: real, y: real)
    requires Net(cs) == 0 && TwoTops(cs, t, u) && Free(cs, y) && Beneath(cs, y) > 0
    ensures Moment(cs) < Moment(Lowered(cs, t, u)) || exists z :: Free(Lowered(cs, t, u), z) && Beneath(Lowered(cs, t, u), z) > 0
  {
    var k :| 0 <= k < |cs| && cs[k].y == u;
    assert cs[k].y != y;
    LoweredNet(cs, t, u, if y < u then y else u);
    LoweredSum(cs, t, u);
    if y < u {
      StillFree(cs, t, u, y);
    } else if y < t {
      BetweenTops(cs, t, u, y);
      DropSign(Beneath(cs, t), t - u);
    } else {
      TopBelow(cs, t, y);
    }
  }

  lemma {:induction false} LevelMoment(cs: seq<Cut>, t: real)
    requires forall k :: 0 <= k < |cs| ==> cs[k].y == t
    ensures Moment(cs) == Weigh(Net(cs), t)
  {
    if cs != [] {
      var n := |cs| - 1;
      assert forall k :: 0 <= k < n ==> cs[..n][k] == cs[k];
      LevelMoment(cs[..n], t);
      assert cs[n].y == t;
      WeighSum(Net(cs[..n]), cs[n].d, t);
    } else {
      WeighSum(0, 0, t);
    }
  }

  lemma {:induction false} LevelBelow(cs: seq<Cut>, t: real, y: real)
    requires (forall k :: 0 <= k < |cs| ==> cs[k].y == t) && y < t
    ensures Beneath(cs, y) == 0
  {
    BelowNone(cs, y);
  }

  lemma {:induction false} TopBelow(cs: seq<Cut>, t: real, y: real)
    requires (forall k :: 0 <= k < |cs| ==> cs[k].y <= t) && y >= t && Free(cs, y)
    ensures Beneath(cs, y) == Net(cs)
  {
    BelowAll(cs, y);
  }

  // ---------------------------------------------------------------- beside a cut

  /** How far the cuts at other heights keep from `t`. */
  function Gap(cs: seq<Cut>, t: real): (g: real)
    ensures g > 0.0 && forall k :: 0 <= k < |cs| ==> cs[k].y == t || cs[k].y <= t - g || cs[k].y >= t + g
  {
    if cs == [] then 1.0
    else
      var n := |cs| - 1;
      var g := Gap(cs[..n], t);
      assert forall k :: 0 <= k < n ==> cs[..n][k] == cs[k];
      var d := if cs[n].y < t then t - cs[n].y else cs[n].y - t;
      if 0.0 < d < g then d else g
  }

  lemma {:induction false} BelowPast(cs: seq<Cut>, i: nat, t: real, y: real)
    requires i < |cs| && cs[i].y == t < y && forall k :: 0 <= k < |cs| && k != i ==> !(t <= cs[k].y < y)
    ensures Beneath(cs, y) == Beneath(cs, t) + cs[i].d
  {
    var n := |cs| - 1;
    assert forall k :: 0 <= k < n ==> cs[..n][k] == cs[k];
    if i == n {
      BelowSame(cs[..n], t, y);
    } else {
      BelowPast(cs[..n], i, t, y);
      assert !(t <= cs[n].y < y);
    }
  }

  /** Just below and just above a height only one cut has: other chains count the same there,
      this one differs by that cut. */
  lemma {:induction false} BothSides(cs: seq<Cut>, ds: seq<Cut>, i: nat, t: real) returns (y: real, z: real)
    requires i < |cs| && cs[i].y == t && (forall k :: 0 <= k < |cs| && k != i ==> cs[k].y != t) && Free(ds, t)
    ensures Free(cs, y) && Free(ds, y) && Free(cs, z) && Free(ds, z)
    ensures Beneath(ds, y) == Beneath(ds, t) == Beneath(ds, z) && Beneath(cs, z) == Beneath(cs, y) + cs[i].d
  {
    var f, g := Gap(cs, t), Gap(ds, t);
    var e := (if f < g then f else g) / 2.0;
    y, z := t - e, t + e;
    hide Gap;
    BelowSame(cs, y, t);
    BelowPast(cs, i, t, z);
    BelowSame(ds, y, t);
    BelowSame(ds, t, z);
  }
}
