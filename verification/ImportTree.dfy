// The import order: which parent an element gets, and an order that puts parents first
// wherever a parent chain ends.
module ImportTree {
  import opened Common

  /** A containment relation: its parent, if the reference resolves, and its children. */
  datatype Rel = Rel(parent: Option<nat>, children: seq<nat>)

  // ---------------------------------------------------------------- the parent map

  /** The last relation that names a child. */
  ghost predicate LastNamed(rels: seq<Rel>, c: nat, k: nat) {
    && k < |rels| && rels[k].parent.Some? && c in rels[k].children
    && forall j :: k < j < |rels| && rels[j].parent.Some? ==> c !in rels[j].children
  }

  /** A parent for exactly the children some relation names, the last one's. */
  ghost predicate ParentsOf(rels: seq<Rel>, parent: map<nat, nat>) {
    && (forall c: nat, k: nat :: LastNamed(rels, c, k) ==> c in parent && parent[c] == rels[k].parent.value)
    && (forall c <- parent :: exists k: nat :: LastNamed(rels, c, k))
  }

  /** Adds one relation's children. */
  method AddChildren(parent: map<nat, nat>, rel: Rel) returns (more: map<nat, nat>)
    ensures rel.parent.None? ==> more == parent
    ensures rel.parent.Some? ==> more.Keys == parent.Keys + (set c | c in rel.children)
    ensures rel.parent.Some? ==> forall c <- more :: more[c] == if c in rel.children then rel.parent.value else parent[c]
  {
    more := parent;
    if rel.parent.None? {
      return;
    }
    for i := 0 to |rel.children|
      invariant more.Keys == parent.Keys + (set c | c in rel.children[..i])
      invariant forall c <- more :: more[c] == if c in rel.children[..i] then rel.parent.value else parent[c]
    {
      assert rel.children[..i + 1] == rel.children[..i] + [rel.children[i]];
      more := more[rel.children[i] := rel.parent.value];
    }
    assert rel.children[..|rel.children|] == rel.children;
  }

  lemma {:induction false} ParentStep(rels: seq<Rel>, rel: Rel, parent: map<nat, nat>, more: map<nat, nat>)
    requires ParentsOf(rels, parent)
    requires rel.parent.None? ==> more == parent
    requires rel.parent.Some? ==> more.Keys == parent.Keys + (set c | c in rel.children)
    requires rel.parent.Some? ==> forall c <- more :: more[c] == if c in rel.children then rel.parent.value else parent[c]
    ensures ParentsOf(rels + [rel], more)
  {
    var all, n := rels + [rel], |rels|;
    forall c: nat, k: nat | LastNamed(all, c, k) ensures c in more && more[c] == all[k].parent.value {
      if k < n {
        assert all[n] == rel;
        assert LastNamed(rels, c, k) by {
          forall j | k < j < n && rels[j].parent.Some? ensures c !in rels[j].children { assert all[j] == rels[j]; }
        }
      }
    }
    forall c | c in more ensures exists k: nat :: LastNamed(all, c, k) {
      if rel.parent.Some? && c in rel.children {
        assert LastNamed(all, c, n);
      } else {
        var k: nat :| LastNamed(rels, c, k);
        assert LastNamed(all, c, k);
      }
    }
  }

  /** The parent map: aggregations first, then spatial containment, later relations winning. */
  method ForwardParentMap(aggregates: seq<Rel>, contained: seq<Rel>) returns (parent: map<nat, nat>)
    ensures ParentsOf(aggregates + contained, parent)
  {
    hide ParentsOf;
    parent := map[];
    NoParents();
    for i := 0 to |aggregates|
      invariant ParentsOf(aggregates[..i], parent)
    {
      var more := AddChildren(parent, aggregates[i]);
      ParentStep(aggregates[..i], aggregates[i], parent, more);
      assert aggregates[..i + 1] == aggregates[..i] + [aggregates[i]];
      parent := more;
    }
    assert aggregates[..|aggregates|] == aggregates == aggregates + contained[..0];
    for i := 0 to |contained|
      invariant ParentsOf(aggregates + contained[..i], parent)
    {
      var more := AddChildren(parent, contained[i]);
      ParentStep(aggregates + contained[..i], contained[i], parent, more);
      assert aggregates + contained[..i + 1] == aggregates + contained[..i] + [contained[i]];
      parent := more;
    }
    assert contained[..|contained|] == contained;
  }

  lemma {:induction false} NoParents()
    ensures ParentsOf([], map[])
  {
  }

  // ---------------------------------------------------------------- parent chains

  /** Its parent is not in the set. */
  predicate Root(parent: map<nat, nat>, ids: set<nat>, id: nat) { !(id in parent && parent[id] in ids) }

  /** The ancestor `n` steps up, if the chain goes that far. */
  function Ancestor(parent: map<nat, nat>, ids: set<nat>, id: nat, n: nat): Option<nat>
    decreases n
  {
    if n == 0 then Some(id)
    else if Root(parent, ids, id) then None
    else Ancestor(parent, ids, parent[id], n - 1)
  }

  /** The parent chain ends at a root. */
  ghost predicate Rooted(parent: map<nat, nat>, ids: set<nat>, id: nat) {
    exists n: nat :: RootAt(parent, ids, id, n)
  }

  predicate RootAt(parent: map<nat, nat>, ids: set<nat>, id: nat, n: nat) {
    var a := Ancestor(parent, ids, id, n);
    a.Some? && Root(parent, ids, a.value)
  }

  /** On a parent cycle, or below one: two steps up the chain meet the same ancestor. */
  ghost predicate UnderCycle(parent: map<nat, nat>, ids: set<nat>, id: nat) {
    exists i: nat, j: nat :: i < j && Meets(parent, ids, id, i, j)
  }

  predicate Meets(parent: map<nat, nat>, ids: set<nat>, id: nat, i: nat, j: nat) {
    Ancestor(parent, ids, id, i).Some? && Ancestor(parent, ids, id, i) == Ancestor(parent, ids, id, j)
  }

  lemma {:induction false} RootedStep(parent: map<nat, nat>, ids: set<nat>, id: nat)
    ensures Root(parent, ids, id) ==> Rooted(parent, ids, id)
    ensures !Root(parent, ids, id) ==> (Rooted(parent, ids, id) <==> Rooted(parent, ids, parent[id]))
  {
    if Root(parent, ids, id) {
      assert RootAt(parent, ids, id, 0);
    } else {
      if Rooted(parent, ids, id) {
        var n: nat :| RootAt(parent, ids, id, n);
        assert n > 0;
        assert RootAt(parent, ids, parent[id], n - 1);
      }
      if Rooted(parent, ids, parent[id]) {
        var n: nat :| RootAt(parent, ids, parent[id], n);
        assert RootAt(parent, ids, id, n + 1);
      }
    }
  }

  lemma {:induction false} AncestorPast(parent: map<nat, nat>, ids: set<nat>, id: nat, n: nat, m: nat)
    requires RootAt(parent, ids, id, n) && m > n
    ensures Ancestor(parent, ids, id, m).None?
    decreases n
  {
    if n > 0 { AncestorPast(parent, ids, parent[id], n - 1, m - 1); }
  }

  lemma {:induction false} AncestorOfAncestor(parent: map<nat, nat>, ids: set<nat>, id: nat, i: nat, j: nat)
    requires Ancestor(parent, ids, id, i).Some?
    ensures Ancestor(parent, ids, id, i + j) == Ancestor(parent, ids, Ancestor(parent, ids, id, i).value, j)
    decreases i
  {
    if i > 0 { AncestorOfAncestor(parent, ids, parent[id], i - 1, j); }
  }

  lemma {:induction false} AncestorInIds(parent: map<nat, nat>, ids: set<nat>, id: nat, n: nat)
    requires id in ids && Ancestor(parent, ids, id, n).Some?
    ensures Ancestor(parent, ids, id, n).value in ids
    decreases n
  {
    if n > 0 { AncestorInIds(parent, ids, parent[id], n - 1); }
  }

  /** A chain that never reaches a root goes on for ever. */
  lemma {:induction false} Endless(parent: map<nat, nat>, ids: set<nat>, id: nat, n: nat)
    requires !Rooted(parent, ids, id)
    ensures Ancestor(parent, ids, id, n).Some?
    decreases n
  {
    RootedStep(parent, ids, id);
    if n > 0 { Endless(parent, ids, parent[id], n - 1); }
  }

  /** Among more values of a finite set than it has members, two are the same. */
  lemma {:induction false} Pigeonhole(s: seq<nat>, ids: set<nat>) returns (i: nat, j: nat)
    requires |s| > |ids| && forall v <- s :: v in ids
    ensures i < j < |s| && s[i] == s[j]
    decreases |ids|
  {
    var n := |s| - 1;
    var v := s[n];
    assert v in s;
    if k :| 0 <= k < n && s[k] == v {
      i, j := k, n;
    } else {
      assert forall x <- s[..n] :: x in ids - {v};
      i, j := Pigeonhole(s[..n], ids - {v});
    }
  }

  function Chain(parent: map<nat, nat>, ids: set<nat>, id: nat, n: nat): (s: seq<nat>)
    requires forall k: nat :: k < n ==> Ancestor(parent, ids, id, k).Some?
    ensures |s| == n
  {
    seq(n, k requires 0 <= k < n => Ancestor(parent, ids, id, k).value)
  }

  /** Exactly the ids whose parent chain ends at no root are on or below a parent cycle. */
  lemma {:induction false} UnrootedIsUnderCycle(parent: map<nat, nat>, ids: set<nat>, id: nat)
    requires id in ids
    ensures !Rooted(parent, ids, id) <==> UnderCycle(parent, ids, id)
  {
    if !Rooted(parent, ids, id) {
      forall k: nat ensures Ancestor(parent, ids, id, k).Some? { Endless(parent, ids, id, k); }
      var s := Chain(parent, ids, id, |ids| + 1);
      forall v | v in s ensures v in ids {
        var k :| 0 <= k < |s| && s[k] == v;
        AncestorInIds(parent, ids, id, k);
      }
      var i, j := Pigeonhole(s, ids);
      assert Meets(parent, ids, id, i, j);
    }
    if UnderCycle(parent, ids, id) && Rooted(parent, ids, id) {
      CycleUnrooted(parent, ids, id);
    }
  }

  lemma {:induction false} CycleUnrooted(parent: map<nat, nat>, ids: set<nat>, id: nat)
    requires UnderCycle(parent, ids, id)
    ensures !Rooted(parent, ids, id)
  {
    var i: nat, j: nat :| i < j && Meets(parent, ids, id, i, j);
    if Rooted(parent, ids, id) {
      var n: nat :| RootAt(parent, ids, id, n);
      Periodic(parent, ids, id, i, j, n);
      AncestorPast(parent, ids, id, n, i + (n + 1) * (j - i));
    }
  }

  /** Once an ancestor repeats, the chain goes round for ever. */
  lemma {:induction false} Periodic(parent: map<nat, nat>, ids: set<nat>, id: nat, i: nat, j: nat, n: nat)
    requires i < j && Meets(parent, ids, id, i, j)
    ensures i + (n + 1) * (j - i) > n && Ancestor(parent, ids, id, i + (n + 1) * (j - i)).Some?
  {
    Rounds(parent, ids, id, i, j, n + 1);
    assert (n + 1) * (j - i) >= n + 1 by { AtLeast(n + 1, j - i); }
  }

  lemma {:induction false} AtLeast(a: nat, b: nat)
    requires b >= 1
    ensures a * b >= a
  {
    assert a * b == a + a * (b - 1);
  }

  lemma {:induction false} Rounds(parent: map<nat, nat>, ids: set<nat>, id: nat, i: nat, j: nat, m: nat)
    requires i < j && Meets(parent, ids, id, i, j)
    ensures Ancestor(parent, ids, id, i + m * (j - i)) == Ancestor(parent, ids, id, i)
  {
    if m > 0 {
      var d := j - i;
      Rounds(parent, ids, id, i, j, m - 1);
      assert m * d == (m - 1) * d + d;
      AncestorOfAncestor(parent, ids, id, i + (m - 1) * d, d);
      AncestorOfAncestor(parent, ids, id, i, d);
    }
  }

  // ---------------------------------------------------------------- parents first

  /** Each id is a root or comes after its parent. */
  predicate ParentsFirst(parent: map<nat, nat>, ids: set<nat>, s: seq<nat>) {
    forall i :: 0 <= i < |s| ==> Root(parent, ids, s[i]) || parent[s[i]] in s[..i]
  }

  /** Listed under its parent, or as a root. */
  ghost predicate Filed(all: seq<nat>, n: nat, parent: map<nat, nat>, ids: set<nat>, children: map<nat, seq<nat>>, roots: seq<nat>)
    requires n <= |all|
  {
    && (forall p: nat, c: nat :: (p in children && c in children[p]) <==> c in all[..n] && !Root(parent, ids, c) && parent[c] == p)
    && (forall c: nat :: c in roots <==> c in all[..n] && Root(parent, ids, c))
  }

  method FileChildren(all: seq<nat>, parent: map<nat, nat>, ids: set<nat>) returns (children: map<nat, seq<nat>>, roots: seq<nat>)
    ensures Filed(all, |all|, parent, ids, children, roots)
  {
    children, roots := map[], [];
    for n := 0 to |all|
      invariant Filed(all, n, parent, ids, children, roots)
    {
      var id := all[n];
      assert all[..n + 1] == all[..n] + [id];
      if id in parent && parent[id] in ids {
        FiledChild(all, n, parent, ids, children, roots);
        children := children[parent[id] := (if parent[id] in children then children[parent[id]] else []) + [id]];
      } else {
        roots := roots + [id];
      }
    }
  }

  lemma {:induction false} FiledChild(all: seq<nat>, n: nat, parent: map<nat, nat>, ids: set<nat>, children: map<nat, seq<nat>>, roots: seq<nat>)
    requires n < |all| && Filed(all, n, parent, ids, children, roots) && !Root(parent, ids, all[n])
    ensures var id := all[n]; var p := parent[id];
      Filed(all, n + 1, parent, ids, children[p := (if p in children then children[p] else []) + [id]], roots)
  {
    var id := all[n];
    var q := parent[id];
    var more := children[q := (if q in children then children[q] else []) + [id]];
    assert all[..n + 1] == all[..n] + [id];
    forall p: nat, c: nat ensures (p in more && c in more[p]) <==> c in all[..n + 1] && !Root(parent, ids, c) && parent[c] == p {
      assert (p in children && c in children[p]) <==> c in all[..n] && !Root(parent, ids, c) && parent[c] == p;
    }
  }

  /** The traversal under way: what is ordered, what is queued, and that nothing ready is lost. */
  ghost predicate Ordering(parent: map<nat, nat>, ids: set<nat>, ordered: seq<nat>, queue: seq<nat>) {
    && NoRepeats(ordered) && ParentsFirst(parent, ids, ordered)
    && (forall v <- ordered :: v in ids)
    && (forall v <- queue :: v in ids && (Root(parent, ids, v) || parent[v] in ordered))
    && (forall v <- ids :: Root(parent, ids, v) || parent[v] in ordered ==> v in ordered || v in queue)
  }

  lemma {:induction false} OrderedSkips(parent: map<nat, nat>, ids: set<nat>, ordered: seq<nat>, queue: seq<nat>)
    requires queue != [] && Ordering(parent, ids, ordered, queue) && queue[0] in ordered
    ensures Ordering(parent, ids, ordered, queue[1..])
  {
    assert queue == [queue[0]] + queue[1..];
    hide NoRepeats, ParentsFirst, Root;
  }

  lemma {:induction false} OrderedAdds(parent: map<nat, nat>, ids: set<nat>, ordered: seq<nat>, queue: seq<nat>, kids: seq<nat>)
    requires queue != [] && Ordering(parent, ids, ordered, queue) && queue[0] !in ordered
    requires forall c: nat :: c in kids <==> c in ids && !Root(parent, ids, c) && parent[c] == queue[0]
    ensures Ordering(parent, ids, ordered + [queue[0]], queue[1..] + kids)
  {
    var id := queue[0];
    var now, next := ordered + [id], queue[1..] + kids;
    assert queue == [id] + queue[1..];
    assert id in queue;
    assert NoRepeats(now) by { forall i, j | 0 <= i < j < |now| ensures now[i] != now[j] { if j == |ordered| { assert ordered[i] in ordered; } } }
    assert ParentsFirst(parent, ids, now) by {
      forall i | 0 <= i < |now| ensures Root(parent, ids, now[i]) || parent[now[i]] in now[..i] {
        if i < |ordered| { assert now[..i] == ordered[..i]; } else { assert now[..i] == ordered; }
      }
    }
    hide NoRepeats, ParentsFirst;
    assert forall v :: v in now <==> v in ordered || v == id;
    assert forall v :: v in next <==> v in queue[1..] || v in kids;
  }

  /** Whatever is ordered parents-first is rooted. */
  lemma {:induction false} OrderedRooted(parent: map<nat, nat>, ids: set<nat>, ordered: seq<nat>, i: nat)
    requires ParentsFirst(parent, ids, ordered) && i < |ordered|
    ensures Rooted(parent, ids, ordered[i])
    decreases i
  {
    RootedStep(parent, ids, ordered[i]);
    if !Root(parent, ids, ordered[i]) {
      var j :| 0 <= j < i && ordered[..i][j] == parent[ordered[i]];
      OrderedRooted(parent, ids, ordered, j);
    }
  }

  /** With nothing left in the queue, every rooted id is ordered. */
  lemma {:induction false} RootedOrdered(parent: map<nat, nat>, ids: set<nat>, ordered: seq<nat>, id: nat, n: nat)
    requires Ordering(parent, ids, ordered, []) && id in ids && RootAt(parent, ids, id, n)
    ensures id in ordered
    decreases n
  {
    if n > 0 && !Root(parent, ids, id) { RootedOrdered(parent, ids, ordered, parent[id], n - 1); }
  }

  lemma {:induction false} OrderingStarts(all: seq<nat>, parent: map<nat, nat>, ids: set<nat>, children: map<nat, seq<nat>>, roots: seq<nat>)
    requires (forall v :: v in ids <==> v in all) && Filed(all, |all|, parent, ids, children, roots)
    ensures Ordering(parent, ids, [], roots)
  {
    assert all[..|all|] == all;
  }

  /** The traversal from the roots. */
  method FromRoots(ghost all: seq<nat>, children: map<nat, seq<nat>>, roots: seq<nat>, ghost parent: map<nat, nat>, ghost ids: set<nat>)
    returns (first: seq<nat>, seen: set<nat>)
    requires (forall v :: v in ids <==> v in all) && Filed(all, |all|, parent, ids, children, roots)
    ensures Ordering(parent, ids, first, [])
    ensures forall v :: v in seen <==> v in first
  {
    hide Root, ParentsFirst, NoRepeats, Filed, Ordering;
    first, seen := [], {};
    var queue := roots;
    OrderingStarts(all, parent, ids, children, roots);
    while |queue| > 0
      invariant Ordering(parent, ids, first, queue)
      invariant forall v :: v in seen <==> v in first
      decreases |ids - seen|, |queue|
    {
      var id := queue[0];
      QueuedInIds(parent, ids, first, queue);
      if id in seen {
        OrderedSkips(parent, ids, first, queue);
        queue := queue[1..];
        continue;
      }
      var kids := if id in children then children[id] else [];
      KidsOf(all, parent, ids, children, roots, id);
      OrderedAdds(parent, ids, first, queue, kids);
      assert ids - (seen + {id}) == ids - seen - {id};
      queue := queue[1..];
      seen := seen + {id};
      first := first + [id];
      queue := queue + kids;
    }
    assert queue == [];
  }

  lemma {:induction false} QueuedInIds(parent: map<nat, nat>, ids: set<nat>, ordered: seq<nat>, queue: seq<nat>)
    requires queue != [] && Ordering(parent, ids, ordered, queue)
    ensures queue[0] in ids
  {
    assert queue[0] in queue;
  }

  /** Appends the ids not seen yet, in input order. */
  method AppendRest(all: seq<nat>, first: seq<nat>, seen0: set<nat>) returns (ordered: seq<nat>)
    requires NoRepeats(first) && forall v :: v in seen0 <==> v in first
    ensures NoRepeats(ordered) && |first| <= |ordered| && ordered[..|first|] == first
    ensures forall v :: v in ordered <==> v in first || v in all
    ensures forall k :: |first| <= k < |ordered| ==> ordered[k] !in first
  {
    hide NoRepeats;
    ordered := first;
    var seen := seen0;
    for i := 0 to |all|
      invariant first <= ordered && NoRepeats(ordered) && (forall v :: v in seen <==> v in ordered)
      invariant forall v :: v in ordered <==> v in first || v in all[..i]
      invariant forall k :: |first| <= k < |ordered| ==> ordered[k] !in first
    {
      assert all[..i + 1] == all[..i] + [all[i]];
      if all[i] !in seen {
        AppendNew(ordered, all[i]);
        seen := seen + {all[i]};
        ordered := ordered + [all[i]];
      }
    }
    assert all[..|all|] == all;
  }

  /** The import order. Every distinct id comes out exactly once. The first `b` are the rooted
      ids, parents before children; the rest are the ids on or below a parent cycle. */
  method TopoOrder(all: seq<nat>, parent: map<nat, nat>, ids: set<nat>) returns (ordered: seq<nat>, ghost b: nat)
    requires forall v :: v in ids <==> v in all
    ensures NoRepeats(ordered) && forall v :: v in ordered <==> v in all
    ensures b <= |ordered| && ParentsFirst(parent, ids, ordered[..b])
    ensures forall i :: 0 <= i < b ==> Rooted(parent, ids, ordered[i])
    ensures forall i :: b <= i < |ordered| ==> UnderCycle(parent, ids, ordered[i])
  {
    hide Rooted, UnderCycle, Root, ParentsFirst, NoRepeats, Filed, Ordering;
    var children, roots := FileChildren(all, parent, ids);
    var first, seen := FromRoots(all, children, roots, parent, ids);
    Traversed(parent, ids, first);
    ordered := AppendRest(all, first, seen);
    b := |first|;
    FirstInAll(first, all, ids);
    assert forall i :: 0 <= i < b ==> ordered[i] == ordered[..b][i];
    forall k | b <= k < |ordered| ensures UnderCycle(parent, ids, ordered[k]) {
      assert ordered[k] in ordered;
      UnrootedIsUnderCycle(parent, ids, ordered[k]);
    }
  }

  lemma {:induction false} FirstInAll(first: seq<nat>, all: seq<nat>, ids: set<nat>)
    requires (forall v :: v in ids <==> v in all) && forall i :: 0 <= i < |first| ==> first[i] in ids
    ensures forall v <- first :: v in all
  {
  }

  lemma {:induction false} AppendNew(s: seq<nat>, v: nat)
    requires NoRepeats(s) && v !in s
    ensures NoRepeats(s + [v])
  {
  }

  lemma {:induction false} KidsOf(all: seq<nat>, parent: map<nat, nat>, ids: set<nat>, children: map<nat, seq<nat>>, roots: seq<nat>, id: nat)
    requires (forall v :: v in ids <==> v in all) && Filed(all, |all|, parent, ids, children, roots)
    ensures var kids := if id in children then children[id] else [];
      forall c: nat :: c in kids <==> c in ids && !Root(parent, ids, c) && parent[c] == id
  {
    assert all[..|all|] == all;
    forall c: nat ensures (id in children && c in children[id]) <==> c in ids && !Root(parent, ids, c) && parent[c] == id { }
  }

  /** The drained traversal has ordered exactly the rooted ids. */
  lemma {:induction false} Traversed(parent: map<nat, nat>, ids: set<nat>, first: seq<nat>)
    requires Ordering(parent, ids, first, [])
    ensures ParentsFirst(parent, ids, first) && NoRepeats(first)
    ensures forall v <- ids :: v in first <==> Rooted(parent, ids, v)
    ensures forall i :: 0 <= i < |first| ==> Rooted(parent, ids, first[i]) && first[i] in ids
  {
    forall i | 0 <= i < |first| ensures Rooted(parent, ids, first[i]) { OrderedRooted(parent, ids, first, i); }
    forall v | v in ids && Rooted(parent, ids, v) ensures v in first {
      var n: nat :| RootAt(parent, ids, v, n);
      RootedOrdered(parent, ids, first, v, n);
    }
  }

  // ---------------------------------------------------------------- parent indexes

  /** Each node's index into the emitted order of its parent, if the parent is emitted. */
  method ParentIndexes(ordered: seq<nat>, parent: map<nat, nat>, ids: set<nat>) returns (index: seq<Option<nat>>)
    requires NoRepeats(ordered) && forall v :: v in ordered <==> v in ids
    ensures |index| == |ordered|
    ensures forall i :: 0 <= i < |ordered| ==> IndexOk(ordered, parent, ids, i, index[i])
  {
    var pos: map<nat, nat> := map[];
    for i := 0 to |ordered|
      invariant forall v :: v in pos <==> v in ordered[..i]
      invariant forall v <- pos :: pos[v] < i && ordered[pos[v]] == v
    {
      assert ordered[..i + 1] == ordered[..i] + [ordered[i]];
      pos := pos[ordered[i] := i];
    }
    assert ordered[..|ordered|] == ordered;
    index := [];
    for i := 0 to |ordered|
      invariant |index| == i && forall j :: 0 <= j < i ==> IndexOk(ordered, parent, ids, j, index[j])
    {
      var id := ordered[i];
      index := index + [if id in parent && parent[id] in ids then Some(pos[parent[id]]) else None];
    }
  }

  predicate IndexOk(ordered: seq<nat>, parent: map<nat, nat>, ids: set<nat>, i: nat, r: Option<nat>)
    requires i < |ordered|
  {
    if Root(parent, ids, ordered[i]) then r == None
    else r.Some? && r.value < |ordered| && ordered[r.value] == parent[ordered[i]]
  }

  /** In the rooted part every parent index is smaller: parents strictly precede. Where no
      parent chain goes round, that is the whole order. */
  lemma {:induction false} IndexDecreases(ordered: seq<nat>, b: nat, parent: map<nat, nat>, ids: set<nat>, index: seq<Option<nat>>, i: nat)
    requires NoRepeats(ordered) && b <= |ordered| == |index| && ParentsFirst(parent, ids, ordered[..b]) && i < b
    requires forall i :: 0 <= i < |ordered| ==> IndexOk(ordered, parent, ids, i, index[i])
    ensures index[i].Some? ==> index[i].value < i
  {
    if index[i].Some? {
      assert ordered[..b][..i] == ordered[..i];
      var j :| 0 <= j < i && ordered[..i][j] == parent[ordered[i]];
      assert ordered[j] == ordered[index[i].value];
    }
  }

  /** Exactly when a parent precedes its child throughout the import order: when no parent
      chain goes round. */
  lemma {:induction false} ParentsFirstIffAcyclic(all: seq<nat>, ordered: seq<nat>, b: nat, parent: map<nat, nat>, ids: set<nat>)
    requires (forall v :: v in ids <==> v in all) && forall v :: v in ordered <==> v in all
    requires b <= |ordered| && ParentsFirst(parent, ids, ordered[..b])
    requires forall i :: b <= i < |ordered| ==> UnderCycle(parent, ids, ordered[i])
    ensures ParentsFirst(parent, ids, ordered) <==> forall v <- ids :: !UnderCycle(parent, ids, v)
  {
    hide UnderCycle, Rooted, ParentsFirst;
    if ParentsFirst(parent, ids, ordered) {
      forall v | v in ids ensures !UnderCycle(parent, ids, v) {
        var i :| 0 <= i < |ordered| && ordered[i] == v;
        OrderedRooted(parent, ids, ordered, i);
        UnrootedIsUnderCycle(parent, ids, v);
      }
    }
    if b == |ordered| { assert ordered[..b] == ordered; } else { assert ordered[b] in ordered; }
  }

  /** Two ids that are each other's parent: no order of them has every parent first. */
  lemma {:induction false} TwoCycleNeverParentsFirst(ordered: seq<nat>)
    requires forall v :: v in ordered <==> v == 1 || v == 2
    ensures !ParentsFirst(map[1 := 2, 2 := 1], {1, 2}, ordered)
  {
    var parent: map<nat, nat>, ids: set<nat> := map[1 := 2, 2 := 1], {1, 2};
    assert 1 in ordered;
    assert ordered[0] in ordered;
    assert !Root(parent, ids, ordered[0]);
    assert ordered[..0] == [];
  }
}
