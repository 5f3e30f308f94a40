// Where a tree spells a reference, by index path alone, and that the reference walk lists
// exactly those places, in the order they are written.
module StepPaths {
  import opened StepGrammar
  import opened StepSlab

  /** The members of a list or a typed value. */
  function Members(t: Tree): seq<Tree> {
    if t.TList? || t.TTyped? then t.items else []
  }

  /** Going down from `t` by the indices of `p` comes to a reference to `id`. */
  ghost predicate RefAt(t: Tree, p: seq<nat>, id: nat)
    decreases p
  {
    if p == [] then t == TRef(id)
    else p[0] < |Members(t)| && RefAt(Members(t)[p[0]], p[1..], id)
  }

  /** ... from the member of `ts` the first index names. */
  ghost predicate RefIn(ts: seq<Tree>, p: seq<nat>, id: nat) {
    p != [] && p[0] < |ts| && RefAt(ts[p[0]], p[1..], id)
  }

  /** A tree spells an id somewhere. */
  ghost predicate Spells(t: Tree, id: nat) { exists p :: RefAt(t, p, id) }

  /** Paths in the order of what stands at them. */
  predicate PathLess(p: seq<nat>, q: seq<nat>) {
    q != [] && (p == [] || p[0] < q[0] || (p[0] == q[0] && PathLess(p[1..], q[1..])))
  }

  predicate Rising(ps: seq<seq<nat>>) { forall i, j :: 0 <= i < j < |ps| ==> PathLess(ps[i], ps[j]) }

  /** The paths one index further down. */
  function Under(a: nat, ps: seq<seq<nat>>): (r: seq<seq<nat>>)
    ensures |r| == |ps| && forall i :: 0 <= i < |ps| ==> r[i] == [a] + ps[i]
  {
    seq(|ps|, i requires 0 <= i < |ps| => [a] + ps[i])
  }

  lemma {:induction false} UnderRising(a: nat, ps: seq<seq<nat>>)
    requires Rising(ps)
    ensures Rising(Under(a, ps))
  {
    var r := Under(a, ps);
    forall i, j | 0 <= i < j < |r| ensures PathLess(r[i], r[j]) {
      assert r[i][1..] == ps[i] && r[j][1..] == ps[j];
    }
  }

  /** Paths led by smaller indices come first. */
  lemma {:induction false} JoinRising(ps: seq<seq<nat>>, a: nat, qs: seq<seq<nat>>)
    requires Rising(ps) && Rising(qs) && (forall p <- ps :: p != [] && p[0] < a)
    ensures Rising(ps + Under(a, qs))
  {
    UnderRising(a, qs);
    var r := ps + Under(a, qs);
    forall i, j | 0 <= i < j < |r| ensures PathLess(r[i], r[j]) {
      if i < |ps| <= j { assert ps[i] in ps; }
    }
  }

  /** The walk lists one id a path, in the order of the paths, and misses no path. */
  ghost predicate ListsTree(t: Tree, ids: seq<nat>, ps: seq<seq<nat>>) {
    && |ps| == |ids| && Rising(ps)
    && (forall i :: 0 <= i < |ps| ==> RefAt(t, ps[i], ids[i]))
    && (forall p, id :: RefAt(t, p, id) ==> p in ps)
  }

  /** ... of the first `k` trees. */
  ghost predicate ListsTrees(ts: seq<Tree>, k: nat, ids: seq<nat>, ps: seq<seq<nat>>) {
    && |ps| == |ids| && Rising(ps)
    && (forall i :: 0 <= i < |ps| ==> RefIn(ts, ps[i], ids[i]) && ps[i][0] < k)
    && (forall p, id :: RefIn(ts, p, id) && p[0] < k ==> p in ps)
  }

  /** The references of a tree are exactly the ids that stand in it, one a place, in order. */
  lemma {:induction false} TreeRefsExact(t: Tree) returns (ps: seq<seq<nat>>)
    ensures ListsTree(t, TreeRefs(t), ps)
    decreases t, 2
  {
    var ts := Members(t);
    if t.TRef? {
      ps := [[]];
      forall p, id | RefAt(t, p, id) ensures p == [] { }
    } else {
      ps := TreesRefsExact(t, ts, |ts|);
      assert ts[..|ts|] == ts;
      forall i | 0 <= i < |ps| ensures RefAt(t, ps[i], TreeRefs(t)[i]) { assert RefIn(ts, ps[i], TreeRefs(t)[i]); }
      forall p, id | RefAt(t, p, id) ensures p in ps { assert RefIn(ts, p, id); }
    }
  }

  lemma {:induction false} TreesRefsExact(t: Tree, ts: seq<Tree>, k: nat) returns (ps: seq<seq<nat>>)
    requires k <= |ts| && ts == Members(t)
    ensures ListsTrees(ts, k, TreesRefs(ts[..k]), ps)
    decreases t, 1, k
  {
    ps := [];
    if k > 0 {
      var front := TreesRefsExact(t, ts, k - 1);
      var last := TreeRefsExact(ts[k - 1]);
      TreesRefsMore(ts, k - 1);
      ps := front + Under(k - 1, last);
      TreesMore(ts, k - 1, TreesRefs(ts[..k - 1]), front, TreeRefs(ts[k - 1]), last);
    }
  }

  lemma {:induction false} TreesMore(ts: seq<Tree>, k: nat, ids: seq<nat>, ps: seq<seq<nat>>, more: seq<nat>, qs: seq<seq<nat>>)
    requires k < |ts| && ListsTrees(ts, k, ids, ps) && ListsTree(ts[k], more, qs)
    ensures ListsTrees(ts, k + 1, ids + more, ps + Under(k, qs))
  {
    hide RefAt, PathLess;
    var r := ps + Under(k, qs);
    JoinRising(ps, k, qs);
    forall i | 0 <= i < |r| ensures RefIn(ts, r[i], (ids + more)[i]) && r[i][0] < k + 1 {
      if i >= |ps| { assert r[i] == [k] + qs[i - |ps|] && r[i][1..] == qs[i - |ps|]; }
    }
    forall p, id | RefIn(ts, p, id) && p[0] < k + 1 ensures p in r {
      if p[0] == k {
        var j :| 0 <= j < |qs| && qs[j] == p[1..];
        assert r[|ps| + j] == [k] + qs[j] == p;
      }
    }
  }

  lemma {:induction false} TreesRefsMore(ts: seq<Tree>, k: nat)
    requires k < |ts|
    ensures TreesRefs(ts[..k + 1]) == TreesRefs(ts[..k]) + TreeRefs(ts[k])
  {
    assert ts[..k + 1] == ts[..k] + [ts[k]];
    TreesRefsJoin(ts[..k], [ts[k]]);
    assert TreesRefs([ts[k]]) == TreeRefs(ts[k]) by { assert [ts[k]][1..] == []; }
  }

  lemma {:induction false} TreesRefsJoin(a: seq<Tree>, b: seq<Tree>)
    ensures TreesRefs(a + b) == TreesRefs(a) + TreesRefs(b)
  {
    if a == [] {
      assert a + b == b;
    } else {
      assert (a + b)[1..] == a[1..] + b;
      TreesRefsJoin(a[1..], b);
    }
  }

  /** An id is among a tree's references exactly when the tree spells it somewhere. */
  lemma {:induction false} SpelledIsListed(t: Tree, id: nat)
    ensures id in TreeRefs(t) <==> Spells(t, id)
  {
    hide RefAt, TreeRefs, PathLess;
    var ps := TreeRefsExact(t);
    var ids := TreeRefs(t);
    if id in ids {
      var i :| 0 <= i < |ids| && ids[i] == id;
      assert RefAt(t, ps[i], id);
    }
    if p :| RefAt(t, p, id) {
      var i :| 0 <= i < |ps| && ps[i] == p;
      OneIdThere(t, p, id, ids[i]);
    }
  }

  /** At one place stands one id. */
  lemma {:induction false} OneIdThere(t: Tree, p: seq<nat>, id: nat, other: nat)
    requires RefAt(t, p, id) && RefAt(t, p, other)
    ensures id == other
    decreases p
  {
    if p != [] { OneIdThere(Members(t)[p[0]], p[1..], id, other); }
  }
}
