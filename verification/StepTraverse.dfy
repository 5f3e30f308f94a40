// The bounded forward closure over the reference graph: a label-correcting worklist that
// re-expands an instance when a shorter path reaches it, in either visiting order.
module StepTraverse {

  /** Each instance's resolved reference targets, in attribute order. */
  type Graph = seq<seq<nat>>

  predicate WellFormed(g: Graph) {
    forall u :: 0 <= u < |g| ==> forall v <- g[u] :: v < |g|
  }

  /** Instance `v` is `k` reference steps from `s` along some path. */
  ghost predicate Reaches(g: Graph, s: nat, v: nat, k: nat)
    decreases k
  {
    if k == 0 then v == s
    else exists u: nat :: u < |g| && v in g[u] && Reaches(g, s, u, k - 1)
  }

  predicate Allowed(maxLevels: int, k: nat) { maxLevels < 0 || k <= maxLevels }

  // The termination measure: undiscovered instances, then the sum of best depths.
  ghost function Undiscovered(best: map<nat, nat>, n: nat): nat {
    if n == 0 then 0 else Undiscovered(best, n - 1) + if n - 1 in best then 0 else 1
  }

  ghost function DepthSum(best: map<nat, nat>, n: nat): nat {
    if n == 0 then 0 else DepthSum(best, n - 1) + if n - 1 in best then best[n - 1] else 0
  }

  lemma {:induction false} Improved(best: map<nat, nat>, v: nat, d: nat, n: nat)
    requires v in best ==> d < best[v]
    ensures v !in best ==> Undiscovered(best[v := d], n) == Undiscovered(best, n) - if v < n then 1 else 0
    ensures v in best ==> Undiscovered(best[v := d], n) == Undiscovered(best, n)
    ensures v in best ==> DepthSum(best[v := d], n) == DepthSum(best, n) - if v < n then best[v] - d else 0
  {
    if n > 0 { Improved(best, v, d, n - 1); }
  }

  /** `u` needs no further expansion: the limit stops it, or its targets are all known at
      least as close as through it. */
  ghost predicate Expanded(g: Graph, maxLevels: int, best: map<nat, nat>, u: nat)
    requires u < |g| && u in best
  {
    || (maxLevels >= 0 && best[u] >= maxLevels)
    || forall v <- g[u] :: v in best && best[v] <= best[u] + 1
  }

  ghost predicate Sound(g: Graph, s: nat, maxLevels: int, best: map<nat, nat>) {
    forall v <- best :: v < |g| && Reaches(g, s, v, best[v]) && Allowed(maxLevels, best[v])
  }

  datatype Visit = Visit(inst: nat, depth: nat)

  ghost predicate QueueSound(g: Graph, s: nat, maxLevels: int, best: map<nat, nat>, queue: seq<Visit>) {
    forall q <- queue :: q.inst in best && best[q.inst] <= q.depth && Reaches(g, s, q.inst, q.depth) && Allowed(maxLevels, q.depth)
  }

  ghost predicate Listed(best: map<nat, nat>, out: seq<nat>) {
    && (forall v :: v in out <==> v in best)
    && (forall i, j :: 0 <= i < j < |out| ==> out[i] != out[j])
  }

  /** Every discovered instance is expanded or still queued at its best depth, but for `skip`. */
  ghost predicate Covered(g: Graph, maxLevels: int, best: map<nat, nat>, queue: seq<Visit>, skip: int)
    requires forall v <- best :: v < |g|
  {
    forall u <- best :: u != skip ==> Visit(u, best[u]) in queue || Expanded(g, maxLevels, best, u)
  }

  /** Once nothing is queued, every allowed path has been followed at its full length or shorter. */
  lemma {:induction false} Complete(g: Graph, s: nat, maxLevels: int, best: map<nat, nat>, v: nat, k: nat)
    requires WellFormed(g) && Sound(g, s, maxLevels, best) && Covered(g, maxLevels, best, [], -1)
    requires s in best && best[s] == 0
    requires Reaches(g, s, v, k) && Allowed(maxLevels, k)
    ensures v in best && best[v] <= k
    decreases k
  {
    if k > 0 {
      var u: nat :| u < |g| && v in g[u] && Reaches(g, s, u, k - 1);
      Complete(g, s, maxLevels, best, u, k - 1);
      assert Expanded(g, maxLevels, best, u);
    }
  }

  // ---------------------------------------------------------------- ids that repeat

  /** References go to the last holder of an id. */
  ghost predicate LastHolders(g: Graph, ids: seq<nat>) {
    |ids| == |g| && forall u, v, w: nat :: 0 <= u < |g| && v in g[u] && v < w < |ids| ==> ids[w] != ids[v]
  }

  /** Depths are kept by id, so any holder of the start's id counts as the start. */
  function Redirect(ids: seq<nat>, start: nat, v: nat): nat {
    if v < |ids| && start < |ids| && ids[v] == ids[start] then start else v
  }

  function RedirectRow(ids: seq<nat>, start: nat, row: seq<nat>): (r: seq<nat>)
    ensures |r| == |row|
  {
    seq(|row|, j requires 0 <= j < |row| => Redirect(ids, start, row[j]))
  }

  /** The reference graph as the traversal sees it. */
  function Redirected(g: Graph, ids: seq<nat>, start: nat): (r: Graph)
    ensures |r| == |g|
  {
    seq(|g|, u requires 0 <= u < |g| => RedirectRow(ids, start, g[u]))
  }

  lemma {:induction false} RedirectedWell(g: Graph, ids: seq<nat>, start: nat)
    requires WellFormed(g) && |ids| == |g| && start < |g|
    ensures WellFormed(Redirected(g, ids, start))
  {
    var r := Redirected(g, ids, start);
    forall u, v | 0 <= u < |r| && v in r[u] ensures v < |r| {
      var j :| 0 <= j < |r[u]| && r[u][j] == v;
      assert g[u][j] in g[u];
    }
  }

  /** A holder of the start's id other than the start is within the limit. */
  ghost predicate MeetsNamesake(g: Graph, ids: seq<nat>, start: nat, maxLevels: int) {
    exists v: nat, k: nat :: IsNamesake(ids, start, v) && Allowed(maxLevels, k) && Reaches(g, start, v, k)
  }

  predicate IsNamesake(ids: seq<nat>, start: nat, v: nat) { v != start && v < |ids| && start < |ids| && ids[v] == ids[start] }

  /** The traversal's graph and the file's reach the same instances in as many steps, until a
      namesake of the start turns up. */
  lemma {:induction false} SameReach(g: Graph, ids: seq<nat>, start: nat, maxLevels: int, v: nat, k: nat)
    requires WellFormed(g) && |ids| == |g| && start < |g| && Allowed(maxLevels, k) && !MeetsNamesake(g, ids, start, maxLevels)
    ensures Reaches(Redirected(g, ids, start), start, v, k) <==> Reaches(g, start, v, k)
    decreases k
  {
    var r := Redirected(g, ids, start);
    if k > 0 {
      if Reaches(r, start, v, k) {
        var u: nat :| u < |r| && v in r[u] && Reaches(r, start, u, k - 1);
        SameReach(g, ids, start, maxLevels, u, k - 1);
        var j :| 0 <= j < |r[u]| && r[u][j] == v;
        var t := g[u][j];
        assert t in g[u] && Reaches(g, start, t, k);
        assert !IsNamesake(ids, start, t);
      }
      if Reaches(g, start, v, k) {
        var u: nat :| u < |g| && v in g[u] && Reaches(g, start, u, k - 1);
        SameReach(g, ids, start, maxLevels, u, k - 1);
        var j :| 0 <= j < |g[u]| && g[u][j] == v;
        assert !IsNamesake(ids, start, v);
        assert r[u][j] == v && v in r[u];
      }
    }
  }

  /** No namesake of the start is ever reached in the traversal's graph. */
  lemma {:induction false} NamesakeUnreached(g: Graph, ids: seq<nat>, start: nat, v: nat, k: nat)
    requires |ids| == |g| && IsNamesake(ids, start, v)
    ensures !Reaches(Redirected(g, ids, start), start, v, k)
  {
    var r := Redirected(g, ids, start);
    forall u, j | 0 <= u < |r| && 0 <= j < |r[u]| ensures r[u][j] != v {
      assert r[u][j] == Redirect(ids, start, g[u][j]);
    }
    assert forall u :: 0 <= u < |r| ==> v !in r[u];
  }

  /** Exactly when the traversal finds the whole bounded closure of its start: when it meets no
      other holder of the start's id. */
  lemma {:induction false} ClosureIff(g: Graph, ids: seq<nat>, start: nat, maxLevels: int)
    requires WellFormed(g) && |ids| == |g| && start < |g|
    ensures (forall v: nat :: Within(Redirected(g, ids, start), start, maxLevels, v) <==> Within(g, start, maxLevels, v))
      <==> !MeetsNamesake(g, ids, start, maxLevels)
  {
    var r := Redirected(g, ids, start);
    if v: nat, k: nat :| IsNamesake(ids, start, v) && Allowed(maxLevels, k) && Reaches(g, start, v, k) {
      assert Within(g, start, maxLevels, v);
      forall m: nat ensures !Reaches(r, start, v, m) { NamesakeUnreached(g, ids, start, v, m); }
    } else {
      forall v: nat ensures Within(r, start, maxLevels, v) <==> Within(g, start, maxLevels, v) {
        forall k: nat | Allowed(maxLevels, k) ensures Reaches(r, start, v, k) <==> Reaches(g, start, v, k) {
          SameReach(g, ids, start, maxLevels, v, k);
        }
        hide Reaches;
      }
    }
  }

  /** The instance is within the limit of the start. */
  ghost predicate Within(g: Graph, start: nat, maxLevels: int, v: nat) {
    exists k: nat :: Allowed(maxLevels, k) && Reaches(g, start, v, k)
  }

  /** A start that a lookup by its id returns meets no namesake: references only go there. */
  lemma {:induction false} HolderMeetsNone(g: Graph, ids: seq<nat>, start: nat, maxLevels: int)
    requires LastHolders(g, ids) && start < |g| && forall w: nat :: start < w < |ids| ==> ids[w] != ids[start]
    ensures !MeetsNamesake(g, ids, start, maxLevels)
  {
    forall v: nat, k: nat | IsNamesake(ids, start, v) ensures !Reaches(g, start, v, k) {
      assert forall u: nat :: u < |g| ==> v !in g[u];
    }
  }

  /** The depths by id, against those by instance: one instance an id, the start or the id's
      last holder. */
  ghost predicate Keyed(ids: seq<nat>, start: nat, best: map<nat, nat>, at: map<nat, nat>) {
    && (forall p <- at :: p < |ids| && ids[p] in best && best[ids[p]] == at[p] && Stands(ids, start, p))
    && (forall k <- best :: exists p <- at :: ids[p] == k)
  }

  ghost predicate Stands(ids: seq<nat>, start: nat, p: nat)
    requires p < |ids|
  {
    p == start || (!IsNamesake(ids, start, p) && forall w: nat :: p < w < |ids| ==> ids[w] != ids[p])
  }

  /** Looking a reference's id up finds the depth of the instance that stands for it. */
  lemma {:induction false} LookedUp(g: Graph, ids: seq<nat>, start: nat, best: map<nat, nat>, at: map<nat, nat>, u: nat, v: nat)
    requires LastHolders(g, ids) && start < |g| && Keyed(ids, start, best, at) && start in at && u < |g| && v in g[u] && v < |g|
    ensures var t := Redirect(ids, start, v); (ids[v] in best <==> t in at) && (t in at ==> best[ids[v]] == at[t])
  {
    var t := Redirect(ids, start, v);
    assert ids[t] == ids[v];
    if ids[v] in best {
      var p :| p in at && ids[p] == ids[v];
      assert p == t;
    }
  }

  lemma {:induction false} KeyedMore(g: Graph, ids: seq<nat>, start: nat, best: map<nat, nat>, at: map<nat, nat>, u: nat, v: nat, d: nat)
    requires LastHolders(g, ids) && start < |g| && Keyed(ids, start, best, at) && start in at && u < |g| && v in g[u] && v < |g|
    requires Redirect(ids, start, v) == v
    ensures Keyed(ids, start, best[ids[v] := d], at[v := d])
  {
    var best', at' := best[ids[v] := d], at[v := d];
    assert v in at';
    forall p | p in at' ensures ids[p] in best' && best'[ids[p]] == at'[p] && Stands(ids, start, p) {
      assert p in at ==> Stands(ids, start, p);
    }
    forall k | k in best' ensures exists p <- at' :: ids[p] == k {
      if k != ids[v] {
        var p :| p in at && ids[p] == k;
        assert p in at';
      }
    }
  }

  /** The instances within `maxLevels` reference steps of `start` (any number when
      negative), each once, whatever the order; `depth` is each one's shortest distance. Depths
      are kept by id, so that other holders of the start's id count as the start. */
  method Traverse(g: Graph, ids: seq<nat>, start: nat, maxLevels: int, breadthFirst: bool) returns (out: seq<nat>, ghost depth: map<nat, nat>)
    requires WellFormed(g) && LastHolders(g, ids) && start < |g|
    ensures forall i, j :: 0 <= i < j < |out| ==> out[i] != out[j]
    ensures out != [] && out[0] == start
    ensures var r := Redirected(g, ids, start);
      && (forall v :: v in out <==> Within(r, start, maxLevels, v))
      && (forall v <- out :: v in depth && Reaches(r, start, v, depth[v]))
      && forall v <- out :: forall k: nat :: Allowed(maxLevels, k) && Reaches(r, start, v, k) ==> depth[v] <= k
    ensures !MeetsNamesake(g, ids, start, maxLevels) ==> forall v: nat :: v in out <==> Within(g, start, maxLevels, v)
    ensures breadthFirst ==> forall i, j :: 0 <= i < j < |out| ==> depth[out[i]] <= depth[out[j]]
  {
    hide Keyed, Reaches, Sound, QueueSound, Listed, Covered, Redirected, WellFormed, MeetsNamesake, Undiscovered, DepthSum, ByLevel, Searching, Within, LastHolders;
    IdsOfGraph(g, ids);
    ghost var r := Redirected(g, ids, start);
    RedirectedWell(g, ids, start);
    TraversalStarts(r, start, maxLevels);
    var best: map<nat, nat> := map[ids[start] := 0];
    ghost var at: map<nat, nat> := map[start := 0];
    KeyedStart(ids, start);
    out := [start];
    var queue := [Visit(start, 0)];
    ghost var level := 0;
    LevelStarts(start);
    while |queue| > 0
      invariant breadthFirst ==> ByLevel(at, out, queue, level)
      invariant Keyed(ids, start, best, at)
      invariant Searching(r, start, maxLevels, at, out, queue)
      decreases Undiscovered(at, |g|), DepthSum(at, |g|), |queue|
    {
      var cur: Visit;
      ghost var whole := queue;
      if breadthFirst {
        cur, queue := queue[0], queue[1..];
      } else {
        cur, queue := queue[|queue| - 1], queue[..|queue| - 1];
      }
      QueueSplit(whole, cur, queue);
      QueueLess(r, start, maxLevels, at, out, whole, queue, cur);
      if breadthFirst {
        NextLevel(at, out, whole, level);
        level := cur.depth;
      }
      if maxLevels >= 0 && cur.depth >= maxLevels {
        continue;
      }
      StartExpanding(r, start, maxLevels, cur, at, out, queue, whole);
      best, out, queue, at := Expand(g, ids, start, maxLevels, cur, best, out, queue, at);
    }
    TraversalEnds(r, start, maxLevels, at, out, queue);
    if breadthFirst { LevelsRise(at, out, queue, level); }
    depth := at;
    ClosureIff(g, ids, start, maxLevels);
  }

  lemma {:induction false} IdsOfGraph(g: Graph, ids: seq<nat>)
    requires LastHolders(g, ids)
    ensures |ids| == |g|
  {
  }

  /** The state between visits: every depth real, and every discovered instance expanded or
      queued. */
  ghost predicate Searching(g: Graph, s: nat, maxLevels: int, best: map<nat, nat>, out: seq<nat>, queue: seq<Visit>) {
    && Sound(g, s, maxLevels, best) && QueueSound(g, s, maxLevels, best, queue)
    && s in best && best[s] == 0
    && Listed(best, out) && |out| > 0 && out[0] == s
    && Covered(g, maxLevels, best, queue, -1)
  }

  lemma {:induction false} QueueSplit(whole: seq<Visit>, cur: Visit, queue: seq<Visit>)
    requires whole == [cur] + queue || whole == queue + [cur]
    ensures cur in whole && (forall q <- whole :: q == cur || q in queue) && forall q <- queue :: q in whole
  {
  }

  lemma {:induction false} TraversalStarts(g: Graph, start: nat, maxLevels: int)
    requires start < |g|
    ensures Searching(g, start, maxLevels, map[start := 0], [start], [Visit(start, 0)])
  {
  }

  /** A breadth-first state: the queue in order of depth, no more than one step past `level`, and
      what came out in order of depth too. */
  ghost predicate ByLevel(at: map<nat, nat>, out: seq<nat>, queue: seq<Visit>, level: nat) {
    && (forall v <- at :: at[v] <= level + 1)
    && (forall v <- out :: v in at)
    && (forall i, j :: 0 <= i < j < |out| ==> at[out[i]] <= at[out[j]])
    && (forall q <- queue :: level <= q.depth <= level + 1)
    && (forall i, j :: 0 <= i < j < |queue| ==> queue[i].depth <= queue[j].depth)
  }

  lemma {:induction false} LevelStarts(start: nat)
    ensures ByLevel(map[start := 0], [start], [Visit(start, 0)], 0)
  {
  }

  /** The first of the queue sets the level. */
  lemma {:induction false} NextLevel(at: map<nat, nat>, out: seq<nat>, queue: seq<Visit>, level: nat)
    requires ByLevel(at, out, queue, level) && queue != []
    ensures ByLevel(at, out, queue[1..], queue[0].depth)
  {
    assert queue[0] in queue;
    forall q | q in queue[1..] ensures queue[0].depth <= q.depth && q in queue { }
  }

  /** A newcomer is a step further than the level, and a known instance is never improved. */
  lemma {:induction false} LevelMore(at: map<nat, nat>, out: seq<nat>, queue: seq<Visit>, v: nat, level: nat)
    requires ByLevel(at, out, queue, level) && (v in at ==> level + 1 < at[v])
    ensures ByLevel(at[v := level + 1], out + [v], queue + [Visit(v, level + 1)], level)
  {
  }

  lemma {:induction false} LevelsRise(at: map<nat, nat>, out: seq<nat>, queue: seq<Visit>, level: nat)
    requires ByLevel(at, out, queue, level)
    ensures forall i, j :: 0 <= i < j < |out| ==> out[i] in at && out[j] in at && at[out[i]] <= at[out[j]]
  {
  }

  /** A visit fewer in the queue: what is left is still sound. */
  lemma {:induction false} QueueLess(g: Graph, start: nat, maxLevels: int, at: map<nat, nat>, out: seq<nat>, whole: seq<Visit>, queue: seq<Visit>, cur: Visit)
    requires Searching(g, start, maxLevels, at, out, whole)
    requires (forall q <- queue :: q in whole) && (forall q <- whole :: q == cur || q in queue)
    ensures QueueSound(g, start, maxLevels, at, queue)
    ensures maxLevels >= 0 && cur.depth >= maxLevels ==> Searching(g, start, maxLevels, at, out, queue)
  {
    hide Reaches;
  }

  /** With nothing queued, the discovered instances are those within the limit, at their
      shortest distances. */
  lemma {:induction false} TraversalEnds(g: Graph, start: nat, maxLevels: int, at: map<nat, nat>, out: seq<nat>, queue: seq<Visit>)
    requires WellFormed(g) && Searching(g, start, maxLevels, at, out, queue) && queue == []
    ensures out != [] && out[0] == start
    ensures forall i, j :: 0 <= i < j < |out| ==> out[i] != out[j]
    ensures forall v :: v in out <==> Within(g, start, maxLevels, v)
    ensures forall v <- out :: v in at && Reaches(g, start, v, at[v])
    ensures forall v <- out :: forall k: nat :: Allowed(maxLevels, k) && Reaches(g, start, v, k) ==> at[v] <= k
  {
    forall v: nat, k: nat | Allowed(maxLevels, k) && Reaches(g, start, v, k) ensures v in at && at[v] <= k {
      Complete(g, start, maxLevels, at, v, k);
    }
    hide Reaches, WellFormed, Covered;
  }

  lemma {:induction false} KeyedStart(ids: seq<nat>, start: nat)
    requires start < |ids|
    ensures Keyed(ids, start, map[ids[start] := 0], map[start := 0])
  {
    var best, at := map[ids[start] := 0], map[start := 0];
    assert start in at;
  }

  /** The measure dropped, or nothing was recorded. */
  ghost predicate Progress(n: nat, best0: map<nat, nat>, queue0: seq<Visit>, best: map<nat, nat>, queue: seq<Visit>) {
    || Undiscovered(best, n) < Undiscovered(best0, n)
    || (Undiscovered(best, n) == Undiscovered(best0, n) && DepthSum(best, n) < DepthSum(best0, n))
    || (best == best0 && queue == queue0)
  }

  lemma {:induction false} NoProgress(n: nat, best: map<nat, nat>, queue: seq<Visit>)
    ensures Progress(n, best, queue, best, queue)
  {
  }

  /** Recording a depth makes progress, whatever came before. */
  lemma {:induction false} RecordedProgress(n: nat, best0: map<nat, nat>, queue0: seq<Visit>, best: map<nat, nat>, queue: seq<Visit>, v: nat, d: nat)
    requires Progress(n, best0, queue0, best, queue) && v < n && (v in best ==> d < best[v])
    ensures Progress(n, best0, queue0, best[v := d], queue + [Visit(v, d)])
  {
    Improved(best, v, d, n);
  }

  /** The state while `u`, dequeued at `depth`, is being expanded. */
  ghost predicate Expanding(g: Graph, s: nat, maxLevels: int, best: map<nat, nat>, out: seq<nat>, queue: seq<Visit>, u: nat, depth: nat) {
    && Sound(g, s, maxLevels, best) && QueueSound(g, s, maxLevels, best, queue)
    && s in best && best[s] == 0 && s < |g| && u < |g|
    && Listed(best, out) && |out| > 0 && out[0] == s
    && Covered(g, maxLevels, best, queue, u)
    && u in best && best[u] <= depth
    && (best[u] == depth || Visit(u, best[u]) in queue || Expanded(g, maxLevels, best, u))
  }

  /** A shorter depth recorded and queued: every recorded and every queued depth is real. */
  lemma {:induction false} RecordedSound(g: Graph, s: nat, maxLevels: int, best: map<nat, nat>, queue: seq<Visit>, v: nat, d: nat)
    requires Sound(g, s, maxLevels, best) && QueueSound(g, s, maxLevels, best, queue)
    requires v < |g| && Reaches(g, s, v, d) && Allowed(maxLevels, d) && (v in best ==> d < best[v])
    ensures Sound(g, s, maxLevels, best[v := d]) && QueueSound(g, s, maxLevels, best[v := d], queue + [Visit(v, d)])
  {
    hide Reaches;
    forall q | q in queue + [Visit(v, d)] ensures q in queue || q == Visit(v, d) { }
  }

  /** ... and every other discovered instance is still expanded or queued. */
  lemma {:induction false} RecordedCovered(g: Graph, maxLevels: int, best: map<nat, nat>, queue: seq<Visit>, u: int, v: nat, d: nat)
    requires (forall w <- best :: w < |g|) && v < |g| && Covered(g, maxLevels, best, queue, u) && (v in best ==> d < best[v])
    ensures Covered(g, maxLevels, best[v := d], queue + [Visit(v, d)], u)
  {
    var best', queue' := best[v := d], queue + [Visit(v, d)];
    assert Visit(v, d) in queue';
    forall w | w in best && Expanded(g, maxLevels, best, w) && w != v ensures Expanded(g, maxLevels, best', w) { }
    forall w | w in best' && w != u ensures Visit(w, best'[w]) in queue' || Expanded(g, maxLevels, best', w) {
      if w != v && Visit(w, best[w]) in queue { assert Visit(w, best[w]) in queue'; }
    }
  }

  /** Recording a shorter depth and queueing the instance again keeps that state. */
  lemma {:induction false} Recorded(g: Graph, s: nat, maxLevels: int, best: map<nat, nat>, out: seq<nat>, queue: seq<Visit>,
                                    u: nat, depth: nat, v: nat)
    requires Expanding(g, s, maxLevels, best, out, queue, u, depth)
    requires v < |g| && Reaches(g, s, v, depth + 1) && Allowed(maxLevels, depth + 1)
    requires v in best ==> depth + 1 < best[v]
    ensures Expanding(g, s, maxLevels, best[v := depth + 1], if v in best then out else out + [v],
                      queue + [Visit(v, depth + 1)], u, depth)
  {
    hide Reaches, QueueSound;
    var best', queue' := best[v := depth + 1], queue + [Visit(v, depth + 1)];
    RecordedSound(g, s, maxLevels, best, queue, v, depth + 1);
    RecordedCovered(g, maxLevels, best, queue, u, v, depth + 1);
    hide Sound, Covered;
    if Visit(u, best[u]) in queue { assert Visit(u, best[u]) in queue'; }
  }

  /** Follows every reference of a dequeued visit, recording shorter depths as they turn up. */
  method Expand(g: Graph, ids: seq<nat>, start: nat, maxLevels: int, cur: Visit, best0: map<nat, nat>, out0: seq<nat>, queue0: seq<Visit>,
                ghost at0: map<nat, nat>)
    returns (best: map<nat, nat>, out: seq<nat>, queue: seq<Visit>, ghost at: map<nat, nat>)
    requires WellFormed(g) && LastHolders(g, ids) && start < |g| && cur.inst < |g| && Keyed(ids, start, best0, at0)
    requires Expanding(Redirected(g, ids, start), start, maxLevels, at0, out0, queue0, cur.inst, cur.depth)
    requires Reaches(Redirected(g, ids, start), start, cur.inst, cur.depth)
    requires maxLevels < 0 || cur.depth < maxLevels
    ensures var r := Redirected(g, ids, start);
      && Keyed(ids, start, best, at) && Searching(r, start, maxLevels, at, out, queue)
      && Progress(|g|, at0, queue0, at, queue)
    ensures ByLevel(at0, out0, queue0, cur.depth) ==> ByLevel(at, out, queue, cur.depth)
  {
    hide Reaches, Listed, Covered, Sound, QueueSound, Expanded, Expanding, Keyed, Redirected, WellFormed, LastHolders, Progress, ByLevel;
    ghost var u := cur.inst;
    NoProgress(|g|, at0, queue0);
    best, out, queue, at := best0, out0, queue0, at0;
    assert Following(g, ids, start, maxLevels, u, cur.depth, at0, queue0, best, at, out, queue, 0);
    hide Following;
    var j := 0;
    while j < |g[cur.inst]|
      invariant j <= |g[cur.inst]| && Following(g, ids, start, maxLevels, u, cur.depth, at0, queue0, best, at, out, queue, j)
      invariant ByLevel(at0, out0, queue0, cur.depth) ==> ByLevel(at, out, queue, cur.depth)
      decreases |g[cur.inst]| - j
    {
      var v := g[cur.inst][j];
      FollowedLevel(g, ids, start, maxLevels, u, cur.depth, at0, queue0, best, at, out, queue, j);
      Followed(g, ids, start, maxLevels, u, cur.depth, at0, queue0, best, at, out, queue, j);
      if !(ids[v] in best && best[ids[v]] <= cur.depth + 1) {
        if ids[v] !in best {
          out := out + [v];
        }
        best := best[ids[v] := cur.depth + 1];
        at := at[v := cur.depth + 1];
        queue := queue + [Visit(v, cur.depth + 1)];
      }
      j := j + 1;
    }
    FollowedAll(g, ids, start, maxLevels, u, cur.depth, at0, queue0, best, at, out, queue);
  }

  /** The state while `u`, dequeued at `depth`, is being expanded, its first `j` references
      followed. */
  ghost predicate Following(g: Graph, ids: seq<nat>, start: nat, maxLevels: int, u: nat, depth: nat, at0: map<nat, nat>, queue0: seq<Visit>,
                            best: map<nat, nat>, at: map<nat, nat>, out: seq<nat>, queue: seq<Visit>, j: nat) {
    var r := Redirected(g, ids, start);
    && WellFormed(g) && LastHolders(g, ids) && start < |g| && u < |g| && j <= |g[u]| && Keyed(ids, start, best, at)
    && Expanding(r, start, maxLevels, at, out, queue, u, depth) && Reaches(r, start, u, depth) && (maxLevels < 0 || depth < maxLevels)
    && (forall i :: 0 <= i < j ==> r[u][i] in at && at[r[u][i]] <= depth + 1)
    && Progress(|g|, at0, queue0, at, queue)
  }

  /** One reference followed: passed over when what stands for its target is known as close,
      recorded and queued otherwise. */
  lemma {:induction false} Followed(g: Graph, ids: seq<nat>, start: nat, maxLevels: int, u: nat, depth: nat, at0: map<nat, nat>, queue0: seq<Visit>,
                                    best: map<nat, nat>, at: map<nat, nat>, out: seq<nat>, queue: seq<Visit>, j: nat)
    requires Following(g, ids, start, maxLevels, u, depth, at0, queue0, best, at, out, queue, j) && j < |g[u]|
    ensures g[u][j] < |ids|
    ensures var v, nd := g[u][j], depth + 1;
      if ids[v] in best && best[ids[v]] <= nd then Following(g, ids, start, maxLevels, u, depth, at0, queue0, best, at, out, queue, j + 1)
      else Following(g, ids, start, maxLevels, u, depth, at0, queue0, best[ids[v] := nd], at[v := nd],
                     if ids[v] in best then out else out + [v], queue + [Visit(v, nd)], j + 1)
  {
    hide Reaches, Listed, Covered, Sound, QueueSound, Expanded, Expanding, Keyed, Redirected, RedirectRow, WellFormed, LastHolders, Progress;
    var r, v, nd := Redirected(g, ids, start), g[u][j], depth + 1;
    TargetOf(g, ids, start, u, j);
    StartKnown(r, start, maxLevels, at, out, queue, u, depth);
    RedirectedWell(g, ids, start);
    LookedUp(g, ids, start, best, at, u, v);
    if !(ids[v] in best && best[ids[v]] <= nd) {
      StepReaches(r, start, u, v, depth);
      Recorded(r, start, maxLevels, at, out, queue, u, depth, v);
      RecordedProgress(|g|, at0, queue0, at, queue, v, nd);
      KeyedMore(g, ids, start, best, at, u, v, nd);
    }
  }

  /** ... in breadth-first order too: what is known is never improved on. */
  lemma {:induction false} FollowedLevel(g: Graph, ids: seq<nat>, start: nat, maxLevels: int, u: nat, depth: nat, at0: map<nat, nat>, queue0: seq<Visit>,
                                         best: map<nat, nat>, at: map<nat, nat>, out: seq<nat>, queue: seq<Visit>, j: nat)
    requires Following(g, ids, start, maxLevels, u, depth, at0, queue0, best, at, out, queue, j) && j < |g[u]|
    ensures g[u][j] < |ids|
    ensures var v := g[u][j]; ByLevel(at, out, queue, depth) && !(ids[v] in best && best[ids[v]] <= depth + 1) ==>
      ids[v] !in best && ByLevel(at[v := depth + 1], out + [v], queue + [Visit(v, depth + 1)], depth)
  {
    hide Reaches, Listed, Covered, Sound, QueueSound, Expanded, Expanding, Keyed, Redirected, RedirectRow, WellFormed, LastHolders, Progress, ByLevel;
    var r, v := Redirected(g, ids, start), g[u][j];
    TargetOf(g, ids, start, u, j);
    StartKnown(r, start, maxLevels, at, out, queue, u, depth);
    LookedUp(g, ids, start, best, at, u, v);
    var t := Redirect(ids, start, v);
    if ByLevel(at, out, queue, depth) && !(ids[v] in best && best[ids[v]] <= depth + 1) {
      LevelBound(at, out, queue, depth, t);
      if t == v {
        LevelMore(at, out, queue, v, depth);
      } else {
        assert false;
      }
    }
  }

  lemma {:induction false} LevelBound(at: map<nat, nat>, out: seq<nat>, queue: seq<Visit>, level: nat, t: nat)
    requires ByLevel(at, out, queue, level)
    ensures t in at ==> at[t] <= level + 1
  {
  }

  lemma {:induction false} RowLength(g: Graph, ids: seq<nat>, start: nat, u: nat)
    requires u < |g|
    ensures |Redirected(g, ids, start)[u]| == |g[u]|
  {
  }

  lemma {:induction false} TargetOf(g: Graph, ids: seq<nat>, start: nat, u: nat, j: nat)
    requires WellFormed(g) && LastHolders(g, ids) && u < |g| && j < |g[u]|
    ensures var r, v := Redirected(g, ids, start), g[u][j];
      |ids| == |g| && v in g[u] && v < |g| && |r[u]| == |g[u]| && r[u][j] == Redirect(ids, start, v) && r[u][j] in r[u]
  {
  }

  lemma {:induction false} StartKnown(g: Graph, s: nat, maxLevels: int, best: map<nat, nat>, out: seq<nat>, queue: seq<Visit>, u: nat, depth: nat)
    requires Expanding(g, s, maxLevels, best, out, queue, u, depth)
    ensures s in best && best[s] == 0
  {
    hide Sound, QueueSound, Listed, Covered, Expanded;
  }

  lemma {:induction false} FollowedAll(g: Graph, ids: seq<nat>, start: nat, maxLevels: int, u: nat, depth: nat, at0: map<nat, nat>, queue0: seq<Visit>,
                                       best: map<nat, nat>, at: map<nat, nat>, out: seq<nat>, queue: seq<Visit>)
    requires u < |g| && Following(g, ids, start, maxLevels, u, depth, at0, queue0, best, at, out, queue, |g[u]|)
    ensures var r := Redirected(g, ids, start);
      && Keyed(ids, start, best, at) && Searching(r, start, maxLevels, at, out, queue)
      && Progress(|g|, at0, queue0, at, queue)
  {
    hide Reaches, Listed, Covered, Sound, QueueSound, Expanded, Keyed, Redirected, RedirectRow, WellFormed, LastHolders, Progress, Expanding;
    var r := Redirected(g, ids, start);
    RowLength(g, ids, start, u);
    StartKnown(r, start, maxLevels, at, out, queue, u, depth);
    DoneExpanding(r, start, maxLevels, at, out, queue, u, depth);
  }

  lemma {:induction false} StartExpanding(g: Graph, s: nat, maxLevels: int, cur: Visit, best: map<nat, nat>, out: seq<nat>,
                                          queue: seq<Visit>, whole: seq<Visit>)
    requires s < |g| && Searching(g, s, maxLevels, best, out, whole)
    requires cur in whole && (forall q <- whole :: q == cur || q in queue) && (forall q <- queue :: q in whole)
    ensures cur.inst < |g| && Expanding(g, s, maxLevels, best, out, queue, cur.inst, cur.depth)
    ensures Reaches(g, s, cur.inst, cur.depth)
  {
  }

  lemma {:induction false} StepReaches(g: Graph, s: nat, u: nat, v: nat, k: nat)
    requires WellFormed(g) && u < |g| && v in g[u] && Reaches(g, s, u, k)
    ensures v < |g| && Reaches(g, s, v, k + 1)
  {
  }

  lemma {:induction false} DoneExpanding(g: Graph, s: nat, maxLevels: int, best: map<nat, nat>, out: seq<nat>, queue: seq<Visit>, u: nat, depth: nat)
    requires Expanding(g, s, maxLevels, best, out, queue, u, depth)
    requires forall i :: 0 <= i < |g[u]| ==> g[u][i] in best && best[g[u][i]] <= depth + 1
    ensures Searching(g, s, maxLevels, best, out, queue)
  {
    if best[u] == depth {
      forall v | v in g[u] ensures v in best && best[v] <= best[u] + 1 {
        var i :| 0 <= i < |g[u]| && g[u][i] == v;
      }
      assert Expanded(g, maxLevels, best, u);
    }
  }
}
