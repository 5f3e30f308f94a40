// Ear clipping over exact arithmetic: loop cleanup, the clipping run with its budget
// accounting, and what every run conserves: signed area and the directed-edge structure.
module GeoTriangulate {
  import opened GeoBudget

  datatype Pt = Pt(x: real, y: real)

  /** A triangle of indices into a polygon. */
  datatype Tri = Tri(a: nat, b: nat, c: nat)

  function Cross(a: Pt, b: Pt, c: Pt): real {
    (b.x - a.x) * (c.y - a.y) - (b.y - a.y) * (c.x - a.x)
  }

  /** The shoelace term of the directed segment from `p` to `q`. */
  function Shoe(p: Pt, q: Pt): real { p.x * q.y - q.x * p.y }

  /** A triangle's cross product is the shoelace sum round its three edges. */
  lemma {:induction false} CrossIsShoe(a: Pt, b: Pt, c: Pt)
    ensures Cross(a, b, c) == Shoe(a, b) + Shoe(b, c) + Shoe(c, a)
  {
  }

  lemma {:induction false} ShoeAntisymmetric(p: Pt, q: Pt)
    ensures Shoe(p, q) == -Shoe(q, p) && Shoe(p, p) == 0.0
  {
  }

  function AbsReal(r: real): real { if r < 0.0 then -r else r }

  predicate PointInTri(p: Pt, a: Pt, b: Pt, c: Pt) {
    var d1, d2, d3 := Cross(p, a, b), Cross(p, b, c), Cross(p, c, a);
    !(d1 < 0.0 || d2 < 0.0 || d3 < 0.0) || !(d1 > 0.0 || d2 > 0.0 || d3 > 0.0)
  }

  // ---------------------------------------------------------------- loops of indices

  predicate InRange(poly: seq<Pt>, loop: seq<nat>) {
    forall k :: 0 <= k < |loop| ==> loop[k] < |poly|
  }

  predicate Distinct(loop: seq<nat>) {
    forall i, j :: 0 <= i < j < |loop| ==> loop[i] != loop[j]
  }

  function RemoveAt(loop: seq<nat>, i: nat): (r: seq<nat>)
    requires i < |loop|
    ensures |r| == |loop| - 1
  {
    loop[..i] + loop[i + 1..]
  }

  function PrevOf(loop: seq<nat>, i: nat): nat
    requires i < |loop|
  {
    if i == 0 then loop[|loop| - 1] else loop[i - 1]
  }

  function NextOf(loop: seq<nat>, i: nat): nat
    requires i < |loop|
  {
    if i + 1 == |loop| then loop[0] else loop[i + 1]
  }

  /** Twice the area swept along an open path, and round a closed loop. */
  function PathShoe(poly: seq<Pt>, path: seq<nat>): real
    requires InRange(poly, path)
  {
    if |path| <= 1 then 0.0
    else PathShoe(poly, path[..|path| - 1]) + Shoe(poly[path[|path| - 2]], poly[path[|path| - 1]])
  }

  function LoopShoe(poly: seq<Pt>, loop: seq<nat>): real
    requires InRange(poly, loop)
  {
    if loop == [] then 0.0 else PathShoe(poly, loop) + Shoe(poly[loop[|loop| - 1]], poly[loop[0]])
  }

  lemma {:induction false} PathJoin(poly: seq<Pt>, a: seq<nat>, b: seq<nat>)
    requires InRange(poly, a + b) && InRange(poly, a) && InRange(poly, b) && a != [] && b != []
    ensures PathShoe(poly, a + b) == PathShoe(poly, a) + Shoe(poly[a[|a| - 1]], poly[b[0]]) + PathShoe(poly, b)
  {
    var ab := a + b;
    if |b| == 1 {
      assert ab[..|ab| - 1] == a;
    } else {
      assert ab[..|ab| - 1] == a + b[..|b| - 1];
      PathJoin(poly, a, b[..|b| - 1]);
    }
  }

  lemma {:induction false} InRangeParts(poly: seq<Pt>, a: seq<nat>, b: seq<nat>)
    requires InRange(poly, a + b)
    ensures InRange(poly, a) && InRange(poly, b)
  {
    forall k | 0 <= k < |a| ensures a[k] < |poly| { assert (a + b)[k] == a[k]; }
    forall k | 0 <= k < |b| ensures b[k] < |poly| { assert (a + b)[|a| + k] == b[k]; }
  }

  lemma {:induction false} PointShoe(poly: seq<Pt>, v: nat)
    requires v < |poly|
    ensures PathShoe(poly, [v]) == 0.0
  {
  }

  /** Cutting one corner off a loop replaces two of its edges by the chord: the loop's
      area drops by exactly the corner's triangle. */
  lemma {:induction false} CornerArea(poly: seq<Pt>, loop: seq<nat>, i: nat)
    requires InRange(poly, loop) && |loop| >= 3 && i < |loop|
    ensures InRange(poly, RemoveAt(loop, i))
    ensures LoopShoe(poly, loop) == LoopShoe(poly, RemoveAt(loop, i))
      + Cross(poly[PrevOf(loop, i)], poly[loop[i]], poly[NextOf(loop, i)])
  {
    hide Cross, Shoe, PathShoe;
    var a, b, c := poly[PrevOf(loop, i)], poly[loop[i]], poly[NextOf(loop, i)];
    CrossIsShoe(a, b, c);
    ShoeAntisymmetric(a, c);
    PointShoe(poly, loop[i]);
    var l, r := loop[..i], loop[i + 1..];
    assert loop == l + ([loop[i]] + r);
    InRangeParts(poly, l, [loop[i]] + r);
    InRangeParts(poly, [loop[i]], r);
    if i == 0 {
      assert loop == [loop[0]] + r && RemoveAt(loop, i) == r;
      PathJoin(poly, [loop[0]], r);
    } else if r == [] {
      assert loop == l + [loop[i]] && RemoveAt(loop, i) == l;
      PathJoin(poly, l, [loop[i]]);
    } else {
      PathMiddle(poly, l, loop[i], r);
    }
  }

  lemma {:induction false} PathMiddle(poly: seq<Pt>, l: seq<nat>, e: nat, r: seq<nat>)
    requires InRange(poly, l + ([e] + r)) && InRange(poly, l + r) && InRange(poly, l) && InRange(poly, r) && l != [] && r != [] && e < |poly|
    ensures PathShoe(poly, l + ([e] + r)) == PathShoe(poly, l + r) + Shoe(poly[l[|l| - 1]], poly[e]) + Shoe(poly[e], poly[r[0]])
      - Shoe(poly[l[|l| - 1]], poly[r[0]])
  {
    PointShoe(poly, e);
    InRangeParts(poly, l, [e] + r);
    InRangeParts(poly, [e], r);
    PathJoin(poly, l, [e] + r);
    PathJoin(poly, [e], r);
    PathJoin(poly, l, r);
    hide Shoe, PathShoe;
  }

  // ---------------------------------------------------------------- the loop area

  /** The fan sum about the first vertex is the shoelace area: which vertex the terms are
      taken relative to does not matter. */
  method IndexedLoopArea(poly: seq<Pt>, loop: seq<nat>) returns (a: real)
    requires InRange(poly, loop)
    ensures a == LoopShoe(poly, loop) / 2.0
  {
    hide Cross, Shoe, PathShoe, LoopShoe;
    a := 0.0;
    var n := |loop|;
    FanStarts(poly, loop);
    for i := 0 to n
      invariant a == FanSum(poly, loop, i) / 2.0
    {
      var j := (i + 1) % n;
      var p0, p, q := poly[loop[0]], poly[loop[i]], poly[loop[j]];
      FanStep(poly, loop, i, j);
      a := a + Cross(p0, p, q) / 2.0;
    }
  }

  /** The fan sum after `i` terms. */
  function FanSum(poly: seq<Pt>, loop: seq<nat>, i: nat): real
    requires InRange(poly, loop) && i <= |loop|
  {
    if i == |loop| then LoopShoe(poly, loop)
    else PathShoe(poly, loop[..i + 1]) + Shoe(poly[loop[i]], poly[loop[0]])
  }

  lemma {:induction false} FanStarts(poly: seq<Pt>, loop: seq<nat>)
    requires InRange(poly, loop)
    ensures FanSum(poly, loop, 0) == 0.0
  {
    if loop != [] {
      PointShoe(poly, loop[0]);
      ShoeAntisymmetric(poly[loop[0]], poly[loop[0]]);
      assert loop[..1] == [loop[0]];
    }
  }

  lemma {:induction false} FanStep(poly: seq<Pt>, loop: seq<nat>, i: nat, j: nat)
    requires InRange(poly, loop) && i < |loop| && j == if i + 1 == |loop| then 0 else i + 1
    ensures FanSum(poly, loop, i + 1) == FanSum(poly, loop, i) + Cross(poly[loop[0]], poly[loop[i]], poly[loop[j]])
  {
    hide Cross, Shoe;
    var n := |loop|;
    var p0, p, q := poly[loop[0]], poly[loop[i]], poly[loop[j]];
    CrossIsShoe(p0, p, q);
    ShoeAntisymmetric(p0, p);
    ShoeAntisymmetric(p0, q);
    if i + 1 < n {
      assert loop[..i + 2][..i + 1] == loop[..i + 1];
      assert PathShoe(poly, loop[..i + 2]) == PathShoe(poly, loop[..i + 1]) + Shoe(p, q);
    } else {
      assert loop[..n] == loop;
    }
  }

  function Identity(n: nat): (s: seq<nat>)
    ensures |s| == n && forall k :: 0 <= k < n ==> s[k] == k
  {
    seq(n, k requires 0 <= k < n => k)
  }

  function Reversed(s: seq<nat>): (r: seq<nat>)
    ensures |r| == |s| && forall k :: 0 <= k < |s| ==> r[k] == s[|s| - 1 - k]
  {
    seq(|s|, k requires 0 <= k < |s| => s[|s| - 1 - k])
  }

  lemma {:induction false} ReversedPath(poly: seq<Pt>, s: seq<nat>)
    requires InRange(poly, s)
    ensures InRange(poly, Reversed(s)) && PathShoe(poly, Reversed(s)) == -PathShoe(poly, s)
  {
    if |s| > 1 {
      var front, last := s[..|s| - 1], s[|s| - 1];
      ReversedPath(poly, front);
      assert Reversed(s) == [last] + Reversed(front);
      PathJoin(poly, [last], Reversed(front));
      ShoeAntisymmetric(poly[last], poly[s[|s| - 2]]);
    }
  }

  /** Reversing a loop negates its area. */
  lemma {:induction false} ReversedArea(poly: seq<Pt>, s: seq<nat>)
    requires InRange(poly, s)
    ensures InRange(poly, Reversed(s)) && LoopShoe(poly, Reversed(s)) == -LoopShoe(poly, s)
  {
    ReversedPath(poly, s);
    if s != [] { ShoeAntisymmetric(poly[s[0]], poly[s[|s| - 1]]); }
  }

  // ---------------------------------------------------------------- loop cleanup

  predicate Same(poly: seq<Pt>, eps: real, i: nat, j: nat)
    requires i < |poly| && j < |poly|
  {
    AbsReal(poly[i].x - poly[j].x) <= eps && AbsReal(poly[i].y - poly[j].y) <= eps
  }

  /** No consecutive repeats and no spikes along the open path. */
  predicate CleanPath(poly: seq<Pt>, eps: real, s: seq<nat>)
    requires InRange(poly, s)
  {
    && (forall k :: 1 <= k < |s| ==> !Same(poly, eps, s[k], s[k - 1]))
    && (forall k :: 2 <= k < |s| ==> !Same(poly, eps, s[k], s[k - 2]))
  }

  /** ... nor across the seam. */
  predicate CleanSeam(poly: seq<Pt>, eps: real, s: seq<nat>)
    requires InRange(poly, s) && |s| >= 3
  {
    && !Same(poly, eps, s[|s| - 1], s[0]) && !Same(poly, eps, s[|s| - 2], s[0]) && !Same(poly, eps, s[|s| - 1], s[1])
  }

  predicate Increasing(s: seq<nat>) {
    forall i, j :: 0 <= i < j < |s| ==> s[i] < s[j]
  }

  /** At zero tolerance, dropping a repeated end point leaves the swept area alone. */
  lemma {:induction false} DropRepeat(poly: seq<Pt>, s: seq<nat>)
    requires InRange(poly, s) && |s| >= 2 && poly[s[|s| - 1]] == poly[s[|s| - 2]]
    ensures PathShoe(poly, s[..|s| - 1]) == PathShoe(poly, s)
  {
    ShoeAntisymmetric(poly[s[|s| - 1]], poly[s[|s| - 1]]);
  }

  /** ... and so does dropping a spike: out to a point and straight back. */
  lemma {:induction false} DropSpike(poly: seq<Pt>, s: seq<nat>)
    requires InRange(poly, s) && |s| >= 3 && poly[s[|s| - 1]] == poly[s[|s| - 3]]
    ensures PathShoe(poly, s[..|s| - 2]) == PathShoe(poly, s)
  {
    var t := s[..|s| - 1];
    assert t[..|t| - 1] == s[..|s| - 2];
    ShoeAntisymmetric(poly[s[|s| - 3]], poly[s[|s| - 2]]);
  }

  /** ... and so do the three seam repairs, about the closed loop. */
  lemma {:induction false} DropSeam(poly: seq<Pt>, s: seq<nat>)
    requires InRange(poly, s) && |s| >= 3
    ensures poly[s[|s| - 1]] == poly[s[0]] ==> LoopShoe(poly, s[..|s| - 1]) == LoopShoe(poly, s)
    ensures poly[s[|s| - 2]] == poly[s[0]] ==> LoopShoe(poly, s[..|s| - 2]) == LoopShoe(poly, s)
    ensures poly[s[|s| - 1]] == poly[s[1]] ==> LoopShoe(poly, s[1..|s| - 1]) == LoopShoe(poly, s)
  {
    var first, last, before := poly[s[0]], poly[s[|s| - 1]], poly[s[|s| - 2]];
    ShoeAntisymmetric(first, last);
    ShoeAntisymmetric(before, before);
    ShoeAntisymmetric(before, last);
    ShoeAntisymmetric(first, before);
    var u := s[..|s| - 1];
    assert u[..|u| - 1] == s[..|s| - 2];
    assert PathShoe(poly, u) == PathShoe(poly, s[..|s| - 2]) + Shoe(poly[s[|s| - 3]], before);
    if last == poly[s[1]] {
      var t := s[..|s| - 1];
      assert t == [s[0]] + s[1..|s| - 1];
      PathJoin(poly, [s[0]], s[1..|s| - 1]);
    }
  }

  lemma {:induction false} SameAtZero(poly: seq<Pt>, i: nat, j: nat)
    requires i < |poly| && j < |poly|
    ensures Same(poly, 0.0, i, j) <==> poly[i] == poly[j]
  {
  }

  /** Two paths from one point to another sweeping the same area. */
  ghost predicate SameSweep(poly: seq<Pt>, s: seq<nat>, t: seq<nat>)
    requires InRange(poly, s) && InRange(poly, t) && s != [] && t != []
  {
    PathShoe(poly, s) == PathShoe(poly, t) && poly[s[0]] == poly[t[0]] && poly[s[|s| - 1]] == poly[t[|t| - 1]]
  }

  lemma {:induction false} SweepExtended(poly: seq<Pt>, s: seq<nat>, t: seq<nat>, i: nat)
    requires InRange(poly, s) && InRange(poly, t) && s != [] && t != [] && i < |poly| && SameSweep(poly, s, t)
    ensures InRange(poly, s + [i]) && InRange(poly, t + [i]) && SameSweep(poly, s + [i], t + [i])
  {
    PathJoin(poly, s, [i]);
    PathJoin(poly, t, [i]);
  }

  lemma {:induction false} SweepLoop(poly: seq<Pt>, s: seq<nat>, t: seq<nat>)
    requires InRange(poly, s) && InRange(poly, t) && s != [] && t != [] && SameSweep(poly, s, t)
    ensures LoopShoe(poly, s) == LoopShoe(poly, t)
  {
  }

  lemma {:induction false} PrefixClean(poly: seq<Pt>, eps: real, s: seq<nat>, n: nat)
    requires InRange(poly, s) && CleanPath(poly, eps, s) && n <= |s|
    ensures InRange(poly, s[..n]) && CleanPath(poly, eps, s[..n])
  {
  }

  lemma {:induction false} CleanEnd(poly: seq<Pt>, eps: real, s: seq<nat>)
    requires InRange(poly, s) && s != [] && CleanPath(poly, eps, s[..|s| - 1])
    requires |s| >= 2 ==> !Same(poly, eps, s[|s| - 1], s[|s| - 2])
    requires |s| >= 3 ==> !Same(poly, eps, s[|s| - 1], s[|s| - 3])
    ensures CleanPath(poly, eps, s)
  {
    var t := s[..|s| - 1];
    forall k | 1 <= k < |s| ensures !Same(poly, eps, s[k], s[k - 1]) {
      if k < |s| - 1 { assert !Same(poly, eps, t[k], t[k - 1]); }
    }
    forall k | 2 <= k < |s| ensures !Same(poly, eps, s[k], s[k - 2]) {
      if k < |s| - 1 { assert !Same(poly, eps, t[k], t[k - 2]); }
    }
  }

  /** Dropping the last `d` points of a path whose end repeats is a smaller path, clean up
      to its new end, and at zero tolerance sweeps the same area. */
  lemma {:induction false} EndDropped(poly: seq<Pt>, eps: real, s: seq<nat>, d: nat)
    requires InRange(poly, s) && 1 <= d <= 2 && |s| > d && CleanPath(poly, eps, s[..|s| - 1]) && Increasing(s)
    requires Same(poly, eps, s[|s| - 1], s[|s| - 1 - d])
    ensures var t := s[..|s| - d];
      && InRange(poly, t) && t != [] && Increasing(t) && t <= s && CleanPath(poly, eps, t[..|t| - 1])
      && (eps == 0.0 ==> SameSweep(poly, t, s))
  {
    var t := s[..|s| - d];
    PrefixClean(poly, eps, s[..|s| - 1], |t| - 1);
    assert s[..|s| - 1][..|t| - 1] == t[..|t| - 1];
    if eps == 0.0 {
      SameAtZero(poly, s[|s| - 1], s[|s| - 1 - d]);
      if d == 1 { DropRepeat(poly, s); } else { DropSpike(poly, s); }
    }
  }

  /** A path whose end repeats or spikes is cut back until it does neither. */
  function SettledEnd(poly: seq<Pt>, eps: real, path: seq<nat>): (idx: seq<nat>)
    requires InRange(poly, path)
    ensures InRange(poly, idx) && idx <= path && (path != [] ==> idx != [])
  {
    var k := |path|;
    if k >= 2 && Same(poly, eps, path[k - 1], path[k - 2]) then SettledEnd(poly, eps, path[..k - 1])
    else if k >= 3 && Same(poly, eps, path[k - 1], path[k - 3]) then SettledEnd(poly, eps, path[..k - 2])
    else path
  }

  /** ... and so is left without repeat or spike; at zero tolerance it sweeps the same area. */
  lemma {:induction false} SettledEndClean(poly: seq<Pt>, eps: real, path: seq<nat>)
    requires InRange(poly, path) && path != [] && CleanPath(poly, eps, path[..|path| - 1]) && Increasing(path)
    ensures var idx := SettledEnd(poly, eps, path);
      CleanPath(poly, eps, idx) && Increasing(idx) && (eps == 0.0 ==> SameSweep(poly, idx, path))
    ensures CleanPath(poly, eps, path) ==> SettledEnd(poly, eps, path) == path
    decreases |path|
  {
    hide Increasing, Same, SameSweep;
    var k := |path|;
    if k >= 2 && Same(poly, eps, path[k - 1], path[k - 2]) {
      EndSettles(poly, eps, path, 1);
    } else if k >= 3 && Same(poly, eps, path[k - 1], path[k - 3]) {
      EndSettles(poly, eps, path, 2);
    } else {
      CleanEnd(poly, eps, path);
      SweepSame(poly, path);
    }
  }

  lemma {:induction false} EndSettles(poly: seq<Pt>, eps: real, path: seq<nat>, d: nat)
    requires InRange(poly, path) && 1 <= d <= 2 && |path| > d && CleanPath(poly, eps, path[..|path| - 1]) && Increasing(path)
    requires Same(poly, eps, path[|path| - 1], path[|path| - 1 - d])
    ensures var idx := SettledEnd(poly, eps, path[..|path| - d]);
      CleanPath(poly, eps, idx) && Increasing(idx) && (eps == 0.0 ==> SameSweep(poly, idx, path))
    decreases |path|, 0
  {
    EndDropped(poly, eps, path, d);
    var t := path[..|path| - d];
    SettledEndClean(poly, eps, t);
    hide CleanPath, Increasing, Same, SameSweep;
    if eps == 0.0 { SweepChain(poly, SettledEnd(poly, eps, t), t, path); }
  }

  method SettleEnd(poly: seq<Pt>, eps: real, path: seq<nat>) returns (idx: seq<nat>)
    requires InRange(poly, path)
    ensures idx == SettledEnd(poly, eps, path)
  {
    idx := path;
    while true
      invariant InRange(poly, idx) && SettledEnd(poly, eps, idx) == SettledEnd(poly, eps, path)
      decreases |idx|
    {
      var k := |idx|;
      if k >= 2 && Same(poly, eps, idx[k - 1], idx[k - 2]) {
        idx := idx[..k - 1];
      } else if k >= 3 && Same(poly, eps, idx[k - 1], idx[k - 3]) {
        idx := idx[..k - 2];
      } else {
        return;
      }
    }
  }

  lemma {:induction false} SliceClean(poly: seq<Pt>, eps: real, s: seq<nat>, lo: nat, hi: nat)
    requires InRange(poly, s) && Increasing(s) && CleanPath(poly, eps, s) && lo <= hi <= |s|
    ensures var t := s[lo..hi]; InRange(poly, t) && Increasing(t) && CleanPath(poly, eps, t)
  {
    hide Same;
    var t := s[lo..hi];
    forall k | 0 <= k < |t| ensures t[k] == s[lo + k] { }
    forall k | 1 <= k < |t| ensures !Same(poly, eps, t[k], t[k - 1]) {
      assert !Same(poly, eps, s[lo + k], s[lo + k - 1]);
    }
    forall k | 2 <= k < |t| ensures !Same(poly, eps, t[k], t[k - 2]) {
      assert !Same(poly, eps, s[lo + k], s[lo + k - 2]);
    }
  }

  /** A path whose ends coincide across the seam is cut back until they do not. */
  function SettledSeam(poly: seq<Pt>, eps: real, path: seq<nat>): (idx: seq<nat>)
    requires InRange(poly, path)
    ensures InRange(poly, idx)
    decreases |path|
  {
    var k := |path|;
    if k < 3 then path
    else if Same(poly, eps, path[k - 1], path[0]) then SettledSeam(poly, eps, path[..k - 1])
    else if Same(poly, eps, path[k - 2], path[0]) then SettledSeam(poly, eps, path[..k - 2])
    else if Same(poly, eps, path[k - 1], path[1]) then SettledSeam(poly, eps, path[1..k - 1])
    else path
  }

  /** ... and so has none of the three seam coincidences; at zero tolerance its area is the
      same. */
  lemma {:induction false} SettledSeamClean(poly: seq<Pt>, eps: real, path: seq<nat>)
    requires InRange(poly, path) && Increasing(path) && CleanPath(poly, eps, path)
    ensures var idx := SettledSeam(poly, eps, path);
      && Increasing(idx) && CleanPath(poly, eps, idx) && |idx| <= |path|
      && (|idx| >= 3 ==> CleanSeam(poly, eps, idx))
      && (|idx| == |path| ==> idx == path)
      && (eps == 0.0 ==> LoopShoe(poly, idx) == LoopShoe(poly, path))
    ensures |path| >= 3 && CleanSeam(poly, eps, path) ==> SettledSeam(poly, eps, path) == path
    decreases |path|
  {
    hide Same, LoopShoe, PathShoe, Increasing, CleanPath;
    var k := |path|;
    if k >= 3 {
      if eps == 0.0 {
        SameAtZero(poly, path[k - 1], path[0]);
        SameAtZero(poly, path[k - 2], path[0]);
        SameAtZero(poly, path[k - 1], path[1]);
        DropSeam(poly, path);
      }
      SliceClean(poly, eps, path, 0, k - 1);
      SliceClean(poly, eps, path, 0, k - 2);
      SliceClean(poly, eps, path, 1, k - 1);
      assert path[0..k - 1] == path[..k - 1] && path[0..k - 2] == path[..k - 2];
      if Same(poly, eps, path[k - 1], path[0]) {
        SettledSeamClean(poly, eps, path[..k - 1]);
      } else if Same(poly, eps, path[k - 2], path[0]) {
        SettledSeamClean(poly, eps, path[..k - 2]);
      } else if Same(poly, eps, path[k - 1], path[1]) {
        SettledSeamClean(poly, eps, path[1..k - 1]);
      }
    }
  }

  method SettleSeam(poly: seq<Pt>, eps: real, path: seq<nat>) returns (idx: seq<nat>)
    requires InRange(poly, path)
    ensures idx == SettledSeam(poly, eps, path)
  {
    idx := path;
    while |idx| >= 3
      invariant InRange(poly, idx) && SettledSeam(poly, eps, idx) == SettledSeam(poly, eps, path)
      decreases |idx|
    {
      var k := |idx|;
      if Same(poly, eps, idx[k - 1], idx[0]) {
        idx := idx[..k - 1];
      } else if Same(poly, eps, idx[k - 2], idx[0]) {
        idx := idx[..k - 2];
      } else if Same(poly, eps, idx[k - 1], idx[1]) {
        idx := idx[1..k - 1];
      } else {
        return;
      }
    }
  }

  lemma {:induction false} SweepSame(poly: seq<Pt>, s: seq<nat>)
    requires InRange(poly, s) && s != []
    ensures SameSweep(poly, s, s)
  {
  }

  lemma {:induction false} SweepChain(poly: seq<Pt>, s: seq<nat>, t: seq<nat>, u: seq<nat>)
    requires InRange(poly, s) && InRange(poly, t) && InRange(poly, u) && s != [] && t != [] && u != []
    requires SameSweep(poly, s, t) && SameSweep(poly, t, u)
    ensures SameSweep(poly, s, u)
  {
  }

  /** One more point on a clean path of points before it. */
  lemma {:induction false} PathExtended(poly: seq<Pt>, eps: real, idx: seq<nat>, i: nat)
    requires i < |poly| && InRange(poly, idx) && Increasing(idx) && CleanPath(poly, eps, idx)
    requires (forall k :: 0 <= k < |idx| ==> idx[k] < i) && (i == 0) == (idx == [])
    requires eps == 0.0 && i > 0 ==> SameSweep(poly, idx, Identity(|poly|)[..i])
    ensures var path := idx + [i];
      && InRange(poly, path) && Increasing(path) && CleanPath(poly, eps, path[..|path| - 1])
      && (forall k :: 0 <= k < |path| ==> path[k] < i + 1)
      && (eps == 0.0 ==> SameSweep(poly, path, Identity(|poly|)[..i + 1]))
  {
    hide CleanPath, SameSweep;
    var path, all := idx + [i], Identity(|poly|);
    assert path[..|path| - 1] == idx;
    assert all[..i + 1] == all[..i] + [i];
    if eps == 0.0 {
      if i > 0 {
        SweepExtended(poly, idx, all[..i], i);
      } else {
        assert path == all[..1];
        SweepSame(poly, path);
      }
    }
  }

  /** The path kept of the first `i` points. */
  function PathTo(poly: seq<Pt>, eps: real, i: nat): (idx: seq<nat>)
    requires i <= |poly|
    ensures InRange(poly, idx) && (i > 0 ==> idx != [])
  {
    if i == 0 then [] else SettledEnd(poly, eps, PathTo(poly, eps, i - 1) + [i - 1])
  }

  /** The polygon's loop without repeated points or zero-width spikes, seam included. */
  function Simplified(poly: seq<Pt>, eps: real): (idx: seq<nat>)
    ensures InRange(poly, idx)
  {
    SettledSeam(poly, eps, PathTo(poly, eps, |poly|))
  }

  /** Nothing repeats and nothing spikes: consecutive points, and points two apart, differ by
      more than the tolerance, all the way round. */
  predicate Clean(poly: seq<Pt>, eps: real) {
    CleanPath(poly, eps, Identity(|poly|)) && (|poly| >= 3 ==> CleanSeam(poly, eps, Identity(|poly|)))
  }

  /** What is known of the path kept of the first `i` points. */
  ghost predicate PathOk(poly: seq<Pt>, eps: real, i: nat, idx: seq<nat>) {
    && i <= |poly| && InRange(poly, idx) && Increasing(idx) && CleanPath(poly, eps, idx)
    && (forall k :: 0 <= k < |idx| ==> idx[k] < i) && (i == 0) == (idx == [])
    && (eps == 0.0 && i > 0 ==> SameSweep(poly, idx, Identity(|poly|)[..i]))
    && (CleanPath(poly, eps, Identity(|poly|)) ==> idx == Identity(|poly|)[..i])
  }

  lemma {:induction false} PathStep(poly: seq<Pt>, eps: real, i: nat, idx: seq<nat>)
    requires i < |poly| && PathOk(poly, eps, i, idx)
    ensures PathOk(poly, eps, i + 1, SettledEnd(poly, eps, idx + [i]))
  {
    hide Same, CleanPath, Increasing, SameSweep, SettledEnd;
    var path, all := idx + [i], Identity(|poly|);
    PathExtended(poly, eps, idx, i);
    assert path[..|path| - 1] == idx;
    SettledEndClean(poly, eps, path);
    if eps == 0.0 { SweepChain(poly, SettledEnd(poly, eps, path), path, all[..i + 1]); }
    if CleanPath(poly, eps, all) {
      PrefixClean(poly, eps, all, i + 1);
      assert all[..i + 1] == all[..i] + [i];
    }
  }

  lemma {:induction false} PathToClean(poly: seq<Pt>, eps: real, i: nat)
    requires i <= |poly|
    ensures PathOk(poly, eps, i, PathTo(poly, eps, i))
  {
    hide PathOk, SettledEnd, Same, Identity;
    if i == 0 {
      PathStarts(poly, eps);
    } else {
      PathToClean(poly, eps, i - 1);
      PathStep(poly, eps, i - 1, PathTo(poly, eps, i - 1));
    }
  }

  lemma {:induction false} PathStarts(poly: seq<Pt>, eps: real)
    ensures PathOk(poly, eps, 0, [])
  {
    assert Identity(|poly|)[..0] == [];
  }

  /** The cleaned loop is in order, without repeats or spikes, seam included. At tolerance zero
      its area is the polygon's own. It keeps every point exactly when nothing was to clean. */
  lemma {:induction false} SimplifiedClean(poly: seq<Pt>, eps: real)
    ensures var idx := Simplified(poly, eps);
      && Increasing(idx) && CleanPath(poly, eps, idx) && |idx| <= |poly| && (|idx| >= 3 ==> CleanSeam(poly, eps, idx))
      && (eps == 0.0 && |idx| >= 3 ==> LoopShoe(poly, idx) == LoopShoe(poly, Identity(|poly|)))
      && (eps == 0.0 && |idx| < 3 ==> LoopShoe(poly, Identity(|poly|)) == 0.0)
    ensures |poly| >= 3 ==> (|Simplified(poly, eps)| == |poly| <==> Clean(poly, eps))
    ensures |Simplified(poly, eps)| == |poly| ==> Simplified(poly, eps) == Identity(|poly|)
  {
    hide PathShoe, LoopShoe, Same, CleanSeam, CleanPath, Increasing, SameSweep;
    var n, all := |poly|, Identity(|poly|);
    PathToClean(poly, eps, n);
    assert all[..n] == all;
    var path := PathTo(poly, eps, n);
    if eps == 0.0 && n > 0 { SweepLoop(poly, path, all); }
    SettledSeamClean(poly, eps, path);
    var idx := Simplified(poly, eps);
    IncreasingShort(path, n);
    if |idx| == n { IncreasingIdentity(idx, n); }
    if |idx| < 3 { ShortLoop(poly, idx); }
  }

  method SimplifyLoop(poly: seq<Pt>, eps: real) returns (idx: seq<nat>)
    ensures idx == Simplified(poly, eps)
  {
    hide SettledEnd, SettledSeam;
    idx := [];
    for i := 0 to |poly|
      invariant idx == PathTo(poly, eps, i)
    {
      idx := SettleEnd(poly, eps, idx + [i]);
    }
    idx := SettleSeam(poly, eps, idx);
  }

  lemma {:induction false} ShortLoop(poly: seq<Pt>, s: seq<nat>)
    requires InRange(poly, s) && |s| < 3
    ensures LoopShoe(poly, s) == 0.0
  {
    if |s| == 2 {
      ShoeAntisymmetric(poly[s[0]], poly[s[1]]);
      assert PathShoe(poly, s[..1]) == 0.0;
    }
    if |s| == 1 { ShoeAntisymmetric(poly[s[0]], poly[s[0]]); }
  }

  lemma {:induction false} IncreasingIdentity(s: seq<nat>, n: nat)
    requires Increasing(s) && |s| == n && forall k :: 0 <= k < n ==> s[k] < n
    ensures s == Identity(n)
  {
    var k := 0;
    while k < n
      invariant k <= n && forall j :: 0 <= j < k ==> s[j] >= j
    {
      assert k > 0 ==> s[k - 1] < s[k];
      k := k + 1;
    }
    while k > 0
      invariant 0 <= k <= n && forall j :: k <= j < n ==> s[j] <= j
    {
      assert k < n ==> s[k - 1] < s[k];
      k := k - 1;
    }
  }

  // ---------------------------------------------------------------- the clipping run

  function Corner(loop: seq<nat>, i: nat): Tri
    requires i < |loop|
  {
    Tri(PrevOf(loop, i), loop[i], NextOf(loop, i))
  }

  predicate TriInRange(poly: seq<Pt>, t: Tri) { t.a < |poly| && t.b < |poly| && t.c < |poly| }

  function TriCross(poly: seq<Pt>, t: Tri): real
    requires TriInRange(poly, t)
  {
    Cross(poly[t.a], poly[t.b], poly[t.c])
  }

  /** No vertex of the loop other than the corner's own lies in the corner's triangle. */
  predicate CornerEmpty(poly: seq<Pt>, loop: seq<nat>, t: Tri)
    requires InRange(poly, loop) && TriInRange(poly, t)
  {
    forall k :: 0 <= k < |loop| ==>
      loop[k] == t.a || loop[k] == t.b || loop[k] == t.c || !PointInTri(poly[loop[k]], poly[t.a], poly[t.b], poly[t.c])
  }

  /** Corner `i` is an ear: strictly convex, and empty. */
  predicate Ear(poly: seq<Pt>, loop: seq<nat>, i: nat)
    requires InRange(poly, loop) && i < |loop|
  {
    TriCross(poly, Corner(loop, i)) > 0.0 && CornerEmpty(poly, loop, Corner(loop, i))
  }

  /** The first ear at or after `i`, or the loop's length. */
  function FirstEar(poly: seq<Pt>, loop: seq<nat>, i: nat): (k: nat)
    requires InRange(poly, loop) && i <= |loop|
    ensures i <= k <= |loop|
    ensures k < |loop| ==> Ear(poly, loop, k)
    ensures forall j :: i <= j < k ==> !Ear(poly, loop, j)
    decreases |loop| - i
  {
    if i == |loop| then i else if Ear(poly, loop, i) then i else FirstEar(poly, loop, i + 1)
  }

  lemma {:induction false} RemovedInRange(poly: seq<Pt>, loop: seq<nat>, i: nat)
    requires InRange(poly, loop) && i < |loop|
    ensures InRange(poly, RemoveAt(loop, i))
  {
  }

  /** The run from `loop`: first ears clipped one by one while more than three vertices
      remain, and the loop it ends with. */
  function Clip(poly: seq<Pt>, loop: seq<nat>): (r: (seq<Tri>, seq<nat>))
    requires InRange(poly, loop)
    ensures InRange(poly, r.1) && |r.0| + |r.1| == |loop|
    ensures forall t <- r.0 :: TriInRange(poly, t)
    decreases |loop|
  {
    if |loop| <= 3 then ([], loop)
    else
      var i := FirstEar(poly, loop, 0);
      if i == |loop| then ([], loop)
      else
        RemovedInRange(poly, loop, i);
        var rest := Clip(poly, RemoveAt(loop, i));
        ([Corner(loop, i)] + rest.0, rest.1)
  }

  /** A run's output: its ears, and the last triangle if it came down to one. */
  function Emitted(poly: seq<Pt>, loop: seq<nat>): (ts: seq<Tri>)
    requires InRange(poly, loop)
    ensures forall t <- ts :: TriInRange(poly, t)
  {
    var (ears, rest) := Clip(poly, loop);
    if |rest| == 3 then ears + [Tri(rest[0], rest[1], rest[2])] else ears
  }

  predicate Completed(poly: seq<Pt>, loop: seq<nat>)
    requires InRange(poly, loop)
  {
    |Clip(poly, loop).1| == 3
  }

  function SumCross(poly: seq<Pt>, ts: seq<Tri>): real
    requires forall t <- ts :: TriInRange(poly, t)
  {
    if ts == [] then 0.0 else TriCross(poly, ts[0]) + SumCross(poly, ts[1..])
  }

  /** Conservation: the ears' area and the remaining loop's area always add up to the
      starting loop's, and every ear clipped is strictly positive. */
  lemma {:induction false} AreaConserved(poly: seq<Pt>, loop: seq<nat>)
    requires InRange(poly, loop)
    ensures SumCross(poly, Clip(poly, loop).0) + LoopShoe(poly, Clip(poly, loop).1) == LoopShoe(poly, loop)
    ensures forall t <- Clip(poly, loop).0 :: TriCross(poly, t) > 0.0
    decreases |loop|
  {
    if |loop| > 3 {
      var i := FirstEar(poly, loop, 0);
      if i < |loop| {
        RemovedInRange(poly, loop, i);
        AreaConserved(poly, RemoveAt(loop, i));
        CornerArea(poly, loop, i);
        var rest := Clip(poly, RemoveAt(loop, i));
        assert Clip(poly, loop).0[1..] == rest.0;
      }
    }
  }

  /** A completed run covers the starting area with exactly two triangles fewer than the
      loop has vertices. */
  lemma {:induction false} CompletedRun(poly: seq<Pt>, loop: seq<nat>)
    requires InRange(poly, loop) && Completed(poly, loop)
    ensures |loop| >= 3 && |Emitted(poly, loop)| == |loop| - 2
    ensures SumCross(poly, Emitted(poly, loop)) == LoopShoe(poly, loop)
  {
    AreaConserved(poly, loop);
    var (ears, rest) := Clip(poly, loop);
    var last := Tri(rest[0], rest[1], rest[2]);
    SumCrossAppend(poly, ears, last);
    CrossIsShoe(poly[rest[0]], poly[rest[1]], poly[rest[2]]);
    assert rest[..2][..1] == rest[..1];
    assert PathShoe(poly, rest[..1]) == 0.0;
    assert PathShoe(poly, rest[..2]) == Shoe(poly[rest[0]], poly[rest[1]]);
  }

  lemma {:induction false} SumCrossAppend(poly: seq<Pt>, ts: seq<Tri>, t: Tri)
    requires (forall u <- ts :: TriInRange(poly, u)) && TriInRange(poly, t)
    ensures SumCross(poly, ts + [t]) == SumCross(poly, ts) + TriCross(poly, t)
  {
    if ts == [] {
      assert ts + [t] == [t];
    } else {
      assert (ts + [t])[1..] == ts[1..] + [t];
      SumCrossAppend(poly, ts[1..], t);
    }
  }

  // ---------------------------------------------------------------- the method

  /** Tests one candidate corner, charging one unit plus one per vertex examined. */
  method TestEar(poly: seq<Pt>, loop: seq<nat>, i: nat, b: Budget?) returns (ear: bool, paid: bool)
    requires InRange(poly, loop) && i < |loop|
    modifies b
    ensures b != null ==> old(b.left) - (|loop| + 1) <= b.left < old(b.left)
    ensures paid == !Exhausted(b)
    ensures paid ==> ear == Ear(poly, loop, i)
  {
    var work := 1;
    var t := Corner(loop, i);
    if Cross(poly[t.a], poly[t.b], poly[t.c]) <= 0.0 {
      paid := Spend(b, work);
      return false, paid;
    }
    ear := true;
    var k := 0;
    while k < |loop|
      invariant k <= |loop| && 1 <= work <= k + 1
      invariant ear ==> forall m :: 0 <= m < k ==>
        loop[m] == t.a || loop[m] == t.b || loop[m] == t.c || !PointInTri(poly[loop[m]], poly[t.a], poly[t.b], poly[t.c])
      invariant !ear ==> !CornerEmpty(poly, loop, t)
      decreases ear, |loop| - k
    {
      var j := loop[k];
      work := work + 1;
      k := k + 1;
      if j == t.a || j == t.b || j == t.c {
        continue;
      }
      if PointInTri(poly[j], poly[t.a], poly[t.b], poly[t.c]) {
        ear := false;
        break;
      }
    }
    paid := Spend(b, work);
  }

  /** One pass over the loop's corners, up to its first ear. */
  method FindEar(poly: seq<Pt>, loop: seq<nat>, b: Budget?) returns (i: nat, paid: bool)
    requires InRange(poly, loop)
    requires !Exhausted(b)
    modifies b
    ensures b != null ==> -(|loop| + 1) <= b.left <= old(b.left)
    ensures paid == !Exhausted(b)
    ensures paid ==> i == FirstEar(poly, loop, 0)
  {
    i, paid := 0, true;
    while i < |loop|
      invariant i <= |loop| && paid && !Exhausted(b)
      invariant b != null ==> b.left <= old(b.left)
      invariant FirstEar(poly, loop, 0) == FirstEar(poly, loop, i)
      decreases |loop| - i
    {
      var ear;
      ear, paid := TestEar(poly, loop, i, b);
      if !paid || ear {
        return;
      }
      i := i + 1;
    }
  }

  /** The clipping loop: clips first ears until three vertices remain or none is an ear. */
  method ClipEars(poly: seq<Pt>, start: seq<nat>, b: Budget?) returns (out: seq<Tri>, covered: real, paid: bool)
    requires InRange(poly, start)
    requires !Exhausted(b)
    modifies b
    ensures b != null ==> -(|start| + 1) <= b.left <= old(b.left)
    ensures paid == !Exhausted(b)
    ensures paid ==> out == Emitted(poly, start)
    ensures paid ==> covered == CoveredBy(poly, start)
  {
    hide Clip, SumCross, FirstEar, TriCross, Emitted, CoveredBy, Cross;
    var idx := start;
    out, covered := [], 0.0;
    RunStarts(poly, start);
    while |idx| > 3
      invariant RunAt(poly, start, out, idx, covered) && |idx| <= |start| && !Exhausted(b)
      invariant b != null ==> b.left <= old(b.left)
      decreases |idx|
    {
      var i;
      i, paid := FindEar(poly, idx, b);
      if !paid {
        return;
      }
      if i == |idx| {
        break;
      }
      var t := Corner(idx, i);
      RunGoesOn(poly, start, out, idx, covered, i);
      out := out + [t];
      covered := covered + TriCross(poly, t) / 2.0;
      idx := RemoveAt(idx, i);
    }
    RunEnds(poly, start, out, idx, covered);
    if |idx| == 3 {
      out := out + [Tri(idx[0], idx[1], idx[2])];
      covered := covered + AbsReal(Cross(poly[idx[0]], poly[idx[1]], poly[idx[2]])) / 2.0;
    }
    paid := true;
  }

  /** Partway through a run: what is out, what is left, and the area covered so far. */
  ghost predicate RunAt(poly: seq<Pt>, start: seq<nat>, out: seq<Tri>, idx: seq<nat>, covered: real)
    requires InRange(poly, start)
  {
    && InRange(poly, idx) && (forall t <- out :: TriInRange(poly, t))
    && Clip(poly, start) == (out + Clip(poly, idx).0, Clip(poly, idx).1)
    && covered == SumCross(poly, out) / 2.0
  }

  lemma {:induction false} RunStarts(poly: seq<Pt>, start: seq<nat>)
    requires InRange(poly, start)
    ensures RunAt(poly, start, [], start, 0.0)
  {
    assert [] + Clip(poly, start).0 == Clip(poly, start).0;
    hide Clip;
  }

  lemma {:induction false} RunGoesOn(poly: seq<Pt>, start: seq<nat>, out: seq<Tri>, idx: seq<nat>, covered: real, i: nat)
    requires InRange(poly, start) && RunAt(poly, start, out, idx, covered)
    requires |idx| > 3 && i < |idx| && i == FirstEar(poly, idx, 0)
    ensures TriInRange(poly, Corner(idx, i))
    ensures RunAt(poly, start, out + [Corner(idx, i)], RemoveAt(idx, i), covered + TriCross(poly, Corner(idx, i)) / 2.0)
  {
    var t := Corner(idx, i);
    RemovedInRange(poly, idx, i);
    var rest := Clip(poly, RemoveAt(idx, i));
    assert Clip(poly, idx) == ([t] + rest.0, rest.1);
    hide Clip, FirstEar, TriCross, SumCross, RemoveAt, Corner, InRange, TriInRange;
    SumCrossAppend(poly, out, t);
    Regroup(out, t, rest.0);
  }

  lemma {:induction false} Regroup(out: seq<Tri>, t: Tri, rest: seq<Tri>)
    ensures out + ([t] + rest) == (out + [t]) + rest
  {
  }

  lemma {:induction false} RunEnds(poly: seq<Pt>, start: seq<nat>, out: seq<Tri>, idx: seq<nat>, covered: real)
    requires InRange(poly, start) && RunAt(poly, start, out, idx, covered)
    requires |idx| <= 3 || FirstEar(poly, idx, 0) == |idx|
    ensures Clip(poly, start) == (out, idx)
    ensures Emitted(poly, start) == if |idx| == 3 then out + [Tri(idx[0], idx[1], idx[2])] else out
    ensures CoveredBy(poly, start) == covered + if |idx| == 3 then AbsReal(Cross(poly[idx[0]], poly[idx[1]], poly[idx[2]])) / 2.0 else 0.0
  {
    assert Clip(poly, idx) == ([], idx);
    assert out + [] == out;
    hide Clip, FirstEar, TriCross, Cross;
  }

  /** What a run reports as covered: its ears' area, and the last triangle's in absolute value. */
  function CoveredBy(poly: seq<Pt>, loop: seq<nat>): real
    requires InRange(poly, loop)
  {
    var (ears, rest) := Clip(poly, loop);
    SumCross(poly, ears) / 2.0
      + if |rest| == 3 then AbsReal(Cross(poly[rest[0]], poly[rest[1]], poly[rest[2]])) / 2.0 else 0.0
  }

  /** `ext` is the larger side of the polygon's bounding box: the widest gap along an axis. */
  ghost predicate IsExtent(poly: seq<Pt>, ext: real) {
    && (forall i, j :: 0 <= i < |poly| && 0 <= j < |poly| ==> poly[i].x - poly[j].x <= ext && poly[i].y - poly[j].y <= ext)
    && (exists i, j :: 0 <= i < |poly| && 0 <= j < |poly| && (ext == poly[i].x - poly[j].x || ext == poly[i].y - poly[j].y))
  }

  method LoopExtent(poly: seq<Pt>) returns (ext: real)
    requires poly != []
    ensures IsExtent(poly, ext)
  {
    var lx, hx, ly, hy := 0, 0, 0, 0;
    for k := 1 to |poly|
      invariant lx < |poly| && hx < |poly| && ly < |poly| && hy < |poly|
      invariant forall i :: 0 <= i < k ==> poly[lx].x <= poly[i].x <= poly[hx].x && poly[ly].y <= poly[i].y <= poly[hy].y
    {
      if poly[k].x < poly[lx].x { lx := k; }
      if poly[k].x > poly[hx].x { hx := k; }
      if poly[k].y < poly[ly].y { ly := k; }
      if poly[k].y > poly[hy].y { hy := k; }
    }
    var dx, dy := poly[hx].x - poly[lx].x, poly[hy].y - poly[ly].y;
    ext := if dx >= dy then dx else dy;
    assert ext == poly[hx].x - poly[lx].x || ext == poly[hy].y - poly[ly].y;
  }

  function MaxReal(a: real, b: real): real { if a >= b then a else b }

  /** The extent is one value. */
  lemma {:induction false} ExtentUnique(poly: seq<Pt>, e: real, f: real)
    requires IsExtent(poly, e) && IsExtent(poly, f)
    ensures e == f
  {
  }

  lemma {:induction false} SomeExtent(poly: seq<Pt>) returns (e: real)
    requires poly != []
    ensures IsExtent(poly, e)
  {
    var lx, hx, ly, hy := Extremes(poly, |poly|);
    var dx, dy := poly[hx].x - poly[lx].x, poly[hy].y - poly[ly].y;
    e := if dx >= dy then dx else dy;
  }

  lemma {:induction false} Extremes(poly: seq<Pt>, n: nat) returns (lx: nat, hx: nat, ly: nat, hy: nat)
    requires 0 < n <= |poly|
    ensures lx < n && hx < n && ly < n && hy < n
    ensures forall i :: 0 <= i < n ==> poly[lx].x <= poly[i].x <= poly[hx].x && poly[ly].y <= poly[i].y <= poly[hy].y
  {
    lx, hx, ly, hy := 0, 0, 0, 0;
    if n > 1 {
      lx, hx, ly, hy := Extremes(poly, n - 1);
      if poly[n - 1].x < poly[lx].x { lx := n - 1; }
      if poly[n - 1].x > poly[hx].x { hx := n - 1; }
      if poly[n - 1].y < poly[ly].y { ly := n - 1; }
      if poly[n - 1].y > poly[hy].y { hy := n - 1; }
    }
  }

  ghost function Extent(poly: seq<Pt>): (e: real)
    requires poly != []
    ensures IsExtent(poly, e)
  {
    assert exists e :: IsExtent(poly, e) by { var e := SomeExtent(poly); }
    var e :| IsExtent(poly, e);
    e
  }

  /** Points closer than this on both axes count as one. */
  function ToleranceAt(ext: real): real { 0.000000001 * ext }

  ghost function Tolerance(poly: seq<Pt>): real
    requires poly != []
  {
    ToleranceAt(Extent(poly))
  }

  /** The loop clipping starts from: cleaned, and wound counter-clockwise. */
  function Start(poly: seq<Pt>, eps: real): (start: seq<nat>)
    ensures InRange(poly, start)
  {
    var idx := Simplified(poly, eps);
    if |idx| >= 3 && LoopShoe(poly, idx) < 0.0 then ReversedRange(poly, idx); Reversed(idx) else idx
  }

  lemma {:induction false} ReversedRange(poly: seq<Pt>, idx: seq<nat>)
    requires InRange(poly, idx)
    ensures InRange(poly, Reversed(idx))
  {
  }

  /** The starting loop has no vertex twice, is not clockwise, and is the whole polygon, one
      way or the other, exactly when the polygon is clean. */
  lemma {:induction false} StartLoop(poly: seq<Pt>, eps: real)
    ensures var start, all := Start(poly, eps), Identity(|poly|);
      && Distinct(start) && |start| <= |poly|
      && (|start| >= 3 ==> LoopShoe(poly, start) >= 0.0)
      && (|poly| >= 3 ==> (|start| == |poly| <==> Clean(poly, eps)))
      && (|start| == |poly| >= 3 ==> start == if LoopShoe(poly, all) < 0.0 then Reversed(all) else all)
  {
    SimplifiedClean(poly, eps);
    var idx := Simplified(poly, eps);
    hide Simplified, LoopShoe, CleanPath, CleanSeam;
    ReversedArea(poly, idx);
  }

  lemma {:induction false} StartShort(poly: seq<Pt>, eps: real)
    ensures |Start(poly, eps)| <= |poly|
  {
    StartLoop(poly, eps);
  }

  /** The triangles a polygon is cut into, if it is. */
  ghost function Cap(poly: seq<Pt>): (ts: seq<Tri>)
    ensures forall t <- ts :: TriInRange(poly, t)
  {
    if |poly| < 3 then []
    else
      var start := Start(poly, Tolerance(poly));
      if |start| < 3 then [] else Emitted(poly, start)
  }

  /** Areas below this are taken for nothing. */
  function FloorAt(ext: real): real { (0.0000001 * ext) * (0.0000001 * ext) }

  /** The coverage verdict: the area the triangles cover, against the polygon's own. */
  ghost predicate Covers(poly: seq<Pt>)
    requires |poly| >= 3
  {
    Matches(poly, Start(poly, Tolerance(poly)), Extent(poly))
  }

  predicate Matches(poly: seq<Pt>, start: seq<nat>, ext: real)
    requires InRange(poly, start)
  {
    var floor := FloorAt(ext);
    var area := AbsReal(LoopShoe(poly, Identity(|poly|)) / 2.0);
    if |start| < 3 then area <= floor
    else AbsReal(CoveredBy(poly, start) - area) <= 0.000001 * MaxReal(CoveredBy(poly, start), area) + floor
  }

  /** Cleans a polygon's loop and winds it counter-clockwise. */
  method Prepare(poly: seq<Pt>, eps: real) returns (start: seq<nat>)
    ensures start == Start(poly, eps)
  {
    start := SimplifyLoop(poly, eps);
    if |start| < 3 {
      return;
    }
    var signed := IndexedLoopArea(poly, start);
    if signed < 0.0 {
      start := Reversed(start);
    }
  }

  lemma {:induction false} IncreasingShort(s: seq<nat>, n: nat)
    requires Increasing(s) && forall k :: 0 <= k < |s| ==> s[k] < n
    ensures |s| <= n
  {
    if s != [] {
      var m := s[|s| - 1];
      var t := s[..|s| - 1];
      forall k | 0 <= k < |t| ensures t[k] < m { assert s[k] < s[|s| - 1]; }
      IncreasingShort(t, m);
    }
  }

  /** Ear-clips a polygon. When it answers, the output is the whole clipping run of the cleaned,
      counter-clockwise loop. It declines only over the budget, or when the area covered is not
      the polygon's own within the tolerance. A budget that held on entry is overdrawn by at
      most the polygon's length plus one. */
  method TriangulatePolygon(poly: seq<Pt>, b: Budget?) returns (tris: seq<Tri>, ok: bool)
    modifies b
    ensures b != null ==> b.left <= old(b.left) && (old(b.left) >= 0 ==> -(|poly| + 1) <= b.left)
    ensures ok ==> tris == Cap(poly)
    ensures ok && |poly| >= 3 ==> Accounts(poly, tris, Extent(poly))
    ensures ok <==> |poly| < 3 || (!Exhausted(b) && Covers(poly))
  {
    tris := [];
    if |poly| < 3 {
      return tris, true;
    }
    ok := Spend(b, |poly|);
    if !ok {
      return;
    }
    hide IsExtent, ToleranceAt, Start, Emitted, Matches, LoopShoe, Identity, Cap, Covers, Accounts;
    var ext := LoopExtent(poly);
    var whole := IndexedLoopArea(poly, Identity(|poly|));
    var start := Prepare(poly, ToleranceAt(ext));
    CapAt(poly, ext);
    tris, ok := Clipped(poly, start, ext, whole, b);
    if ok { AcceptedAccounts(poly); }
  }

  lemma {:induction false} CapAt(poly: seq<Pt>, ext: real)
    requires |poly| >= 3 && IsExtent(poly, ext)
    ensures var start := Start(poly, ToleranceAt(ext));
      && |start| <= |poly| && Cap(poly) == (if |start| < 3 then [] else Emitted(poly, start))
      && (Covers(poly) <==> Matches(poly, start, ext))
  {
    ExtentUnique(poly, ext, Extent(poly));
    hide IsExtent, Start, Emitted, Matches, InRange, ToleranceAt;
    StartShort(poly, Tolerance(poly));
  }

  /** The triangles' areas, none counted negative, twice over. */
  function Laid(poly: seq<Pt>, ts: seq<Tri>): real
    requires forall t <- ts :: TriInRange(poly, t)
  {
    if ts == [] then 0.0 else AbsReal(TriCross(poly, ts[0])) + Laid(poly, ts[1..])
  }

  /** Of ears and a last triangle, that is what the verdict counts as covered. */
  lemma {:induction false} EarsLaid(poly: seq<Pt>, ears: seq<Tri>, last: seq<Tri>)
    requires (forall t <- ears :: TriInRange(poly, t) && TriCross(poly, t) > 0.0) && forall t <- last :: TriInRange(poly, t)
    ensures forall t <- ears + last :: TriInRange(poly, t)
    ensures Laid(poly, ears + last) == SumCross(poly, ears) + Laid(poly, last)
  {
    hide TriCross;
    if ears == [] {
      assert ears + last == last;
    } else {
      assert (ears + last)[1..] == ears[1..] + last && (ears + last)[0] == ears[0] && ears[0] in ears;
      EarsLaid(poly, ears[1..], last);
    }
  }

  lemma {:induction false} CoveredIsLaid(poly: seq<Pt>, start: seq<nat>)
    requires InRange(poly, start)
    ensures CoveredBy(poly, start) == Laid(poly, Emitted(poly, start)) / 2.0
  {
    hide TriCross, Clip;
    AreaConserved(poly, start);
    var (ears, rest) := Clip(poly, start);
    var last := if |rest| == 3 then [Tri(rest[0], rest[1], rest[2])] else [];
    EarsLaid(poly, ears, last);
    LastLaid(poly, rest);
    assert Emitted(poly, start) == ears + last;
  }

  lemma {:induction false} LastLaid(poly: seq<Pt>, rest: seq<nat>)
    requires InRange(poly, rest)
    ensures Laid(poly, []) == 0.0
    ensures |rest| == 3 ==> Laid(poly, [Tri(rest[0], rest[1], rest[2])]) == AbsReal(Cross(poly[rest[0]], poly[rest[1]], poly[rest[2]]))
  {
    if |rest| == 3 { assert [Tri(rest[0], rest[1], rest[2])][1..] == []; }
  }

  /** The area laid out is the polygon's own, to within a millionth of the larger and the
      square of a ten-millionth of the extent. */
  predicate Accounts(poly: seq<Pt>, ts: seq<Tri>, ext: real)
    requires forall t <- ts :: TriInRange(poly, t)
  {
    var laid, area := Laid(poly, ts) / 2.0, AbsReal(LoopShoe(poly, Identity(|poly|))) / 2.0;
    AbsReal(laid - area) <= 0.000001 * (if laid >= area then laid else area) + (0.0000001 * ext) * (0.0000001 * ext)
  }

  /** What acceptance says of the output itself. */
  lemma {:induction false} AcceptedAccounts(poly: seq<Pt>)
    requires |poly| >= 3 && Covers(poly)
    ensures Accounts(poly, Cap(poly), Extent(poly))
  {
    hide LoopShoe, IsExtent, Emitted, Start, Identity, CoveredBy, Laid, FloorAt;
    var ext, start, whole := Extent(poly), Start(poly, Tolerance(poly)), LoopShoe(poly, Identity(|poly|));
    CoveredIsLaid(poly, start);
    LastLaid(poly, []);
    CoverVerdict(CoveredBy(poly, start), Laid(poly, Emitted(poly, start)), whole, ext);
    CoverVerdict(0.0, 0.0, whole, ext);
  }

  lemma {:induction false} CoverVerdict(covered: real, laid: real, whole: real, ext: real)
    requires covered == laid / 2.0
    ensures var area := AbsReal(whole / 2.0);
      AbsReal(covered - area) <= 0.000001 * MaxReal(covered, area) + FloorAt(ext) ==>
        var l, a := laid / 2.0, AbsReal(whole) / 2.0;
        AbsReal(l - a) <= 0.000001 * (if l >= a then l else a) + (0.0000001 * ext) * (0.0000001 * ext)
  {
  }

  /** Clips the starting loop and judges what was covered. */
  method Clipped(poly: seq<Pt>, start: seq<nat>, ext: real, whole: real, b: Budget?) returns (tris: seq<Tri>, ok: bool)
    requires InRange(poly, start) && !Exhausted(b) && whole == LoopShoe(poly, Identity(|poly|)) / 2.0
    modifies b
    ensures b != null ==> -(|start| + 1) <= b.left <= old(b.left) || b.left == old(b.left)
    ensures ok ==> tris == if |start| < 3 then [] else Emitted(poly, start)
    ensures ok <==> !Exhausted(b) && Matches(poly, start, ext)
  {
    hide Emitted, CoveredBy, LoopShoe;
    tris := [];
    var floor := FloorAt(ext);
    var area := AbsReal(whole);
    if |start| < 3 {
      return tris, area <= floor;
    }
    var out, covered, paid := ClipEars(poly, start, b);
    if !paid || AbsReal(covered - area) > 0.000001 * MaxReal(covered, area) + floor {
      return tris, false;
    }
    return out, true;
  }
}
