// The reference graph of a file's instances: forward edges and the inverse index are each
// other's converse.
module StepGraph {
  import opened StepGrammar
  import opened StepSlab
  import opened StepPaths
  import opened StepIndex
  import opened StepRefs
  import Tr = StepTraverse

  /** The targets of references that resolve, in source order. */
  function Resolved(items: seq<Item<int, Link>>): seq<nat> {
    if items == [] then []
    else Resolved(items[..|items| - 1]) + if items[|items| - 1].key >= 0 then [items[|items| - 1].key] else []
  }

  /** Each instance's resolved targets, what a traversal follows. */
  function RefGraph(insts: seq<Record>): (g: Tr.Graph)
    ensures |g| == |insts|
  {
    seq(|insts|, i requires 0 <= i < |insts| => Resolved(InstItems(insts, i)))
  }

  lemma {:induction false} ResolvedExact(items: seq<Item<int, Link>>, v: nat)
    ensures v in Resolved(items) <==> exists k :: 0 <= k < |items| && items[k].key == v
  {
    if items != [] {
      var front := items[..|items| - 1];
      ResolvedExact(front, v);
      if k :| 0 <= k < |front| && front[k].key == v { assert items[k].key == v; }
      if k :| 0 <= k < |items| && items[k].key == v { assert k < |front| ==> front[k].key == v; }
    }
  }

  lemma {:induction false} IdItemsExact(insts: seq<Record>, i: nat, a: nat, ids: seq<nat>, x: Item<int, Link>)
    ensures x in IdItems(insts, i, a, ids) <==>
      x.value.from == i && x.value.attr == a && x.value.id in ids && x.key == Position(insts, x.value.id)
  {
    hide Position;
    var row := IdItems(insts, i, a, ids);
    if x.value.from == i && x.value.attr == a && x.value.id in ids && x.key == Position(insts, x.value.id) {
      var k :| 0 <= k < |ids| && ids[k] == x.value.id;
      assert row[k] == x;
    }
  }

  lemma {:induction false} AttrItemsExact(insts: seq<Record>, i: nat, a: nat, x: Item<int, Link>)
    requires i < |insts| && a <= |insts[i].args|
    ensures x in AttrItems(insts, i, a) <==>
      x.value.from == i && x.value.attr < a && x.value.id in TreeRefs(insts[i].args[x.value.attr]) && x.key == Position(insts, x.value.id)
  {
    hide Position, TreeRefs, IdItems;
    if a > 0 {
      AttrItemsExact(insts, i, a - 1, x);
      IdItemsExact(insts, i, a - 1, TreeRefs(insts[i].args[a - 1]), x);
    }
  }

  lemma {:induction false} ReferrersInFile(insts: seq<Record>, v: nat)
    ensures InFile(Ids(insts), Froms(Referrers(insts, v, |insts|)))
  {
    var refs := Referrers(insts, v, |insts|);
    forall k | 0 <= k < |refs| ensures refs[k].from < |insts| {
      assert refs[k] in refs;
      ReferrersExact(insts, v, |insts|, refs[k]);
    }
  }

  /** The distinct referrers of instance `v`. */
  function Distinct(insts: seq<Record>, v: nat): seq<nat> {
    ReferrersInFile(insts, v);
    FirstSeen(Ids(insts), Froms(Referrers(insts, v, |insts|)))
  }

  /** No other instance of `u`'s id points at `v`. */
  ghost predicate Alone(insts: seq<Record>, u: nat, v: nat)
    requires u < |insts| && v < |insts|
  {
    forall w: nat :: w < |insts| && insts[w].id == insts[u].id && v in RefGraph(insts)[w] ==> w == u
  }

  /** Instance `u` points at `v` exactly when the inverse index lists a reference to `v` from
      `u`. Then a holder of `u`'s id is among `v`'s distinct referrers, and it is `u` when no
      other holder points at `v` too. */
  lemma {:induction false} ForwardIsInverse(insts: seq<Record>, u: nat, v: nat)
    requires u < |insts| && v < |insts|
    ensures v in RefGraph(insts)[u] <==> exists l :: l in Referrers(insts, v, |insts|) && l.from == u
    ensures v in RefGraph(insts)[u] ==> exists f <- Distinct(insts, v) :: f < |insts| && insts[f].id == insts[u].id
    ensures Alone(insts, u, v) ==> (v in RefGraph(insts)[u] <==> u in Distinct(insts, v))
  {
    var ids, xs, out := Ids(insts), Froms(Referrers(insts, v, |insts|)), Distinct(insts, v);
    ReferrersInFile(insts, v);
    FirstSeenExact(ids, xs);
    PointsAt(insts, u, v);
    forall w: nat | w < |insts| ensures v in RefGraph(insts)[w] <==> w in xs { PointsAt(insts, w, v); }
    hide Referrers, FirstSeen, RefGraph, IsFirst, Ids, Froms;
    if u in xs {
      var m :| 0 <= m < |xs| && xs[m] == u;
      var i :| 0 <= i < |out| && ids[out[i]] == ids[xs[m]];
      assert out[i] in out;
      SameIds(insts, out[i], u);
      var k: nat :| k < |xs| && xs[k] == out[i] && IsFirst(ids, xs, k);
      assert out[i] in xs;
    }
    if u in out {
      var m: nat :| m < |xs| && xs[m] == u && IsFirst(ids, xs, m);
    }
  }

  lemma {:induction false} SameIds(insts: seq<Record>, f: nat, u: nat)
    requires f < |Ids(insts)| && u < |insts|
    ensures f < |insts| && (Ids(insts)[f] == Ids(insts)[u] <==> insts[f].id == insts[u].id)
  {
  }

  lemma {:induction false} PointsAt(insts: seq<Record>, u: nat, v: nat)
    requires u < |insts| && v < |insts|
    ensures v in RefGraph(insts)[u] <==> exists l :: l in Referrers(insts, v, |insts|) && l.from == u
    ensures v in RefGraph(insts)[u] <==> u in Froms(Referrers(insts, v, |insts|))
  {
    var items, refs := InstItems(insts, u), Referrers(insts, v, |insts|);
    ResolvedExact(items, v);
    hide InstItems, Referrers, Resolved, Position, TreeRefs, AttrItems;
    if v in RefGraph(insts)[u] {
      var k :| 0 <= k < |items| && items[k].key == v;
      assert items[k] in items;
      InstItemsExact(insts, u, items[k]);
      ReferrersExact(insts, v, |insts|, items[k].value);
    }
    if l :| l in refs && l.from == u {
      ReferrersExact(insts, v, |insts|, l);
      InstItemsExact(insts, u, Item(v, l));
      var k :| 0 <= k < |items| && items[k] == Item(v, l);
      var m :| 0 <= m < |refs| && refs[m] == l;
      assert Froms(refs)[m] == u;
    }
    if u in Froms(refs) {
      var m :| 0 <= m < |refs| && Froms(refs)[m] == u;
      assert refs[m] in refs;
    }
  }

  lemma {:induction false} InstItemsExact(insts: seq<Record>, i: nat, x: Item<int, Link>)
    requires i < |insts|
    ensures x in InstItems(insts, i) <==>
      x.value.from == i && x.value.attr < |insts[i].args| && Spells(insts[i].args[x.value.attr], x.value.id) && x.key == Position(insts, x.value.id)
  {
    hide Position, TreeRefs, AttrItems, Spells;
    if x.value.attr < |insts[i].args| { SpelledIsListed(insts[i].args[x.value.attr], x.value.id); }
    AttrItemsExact(insts, i, |insts[i].args|, x);
  }

  /** A traversal follows `u` to `v` exactly when some attribute of `u` spells an id of which `v`
      is the last holder. */
  lemma {:induction false} GraphExact(insts: seq<Record>, u: nat, v: nat)
    requires u < |insts|
    ensures v in RefGraph(insts)[u] <==> exists a: nat :: a < |insts[u].args| && SpellsHolder(insts, insts[u].args[a], v)
  {
    var items := InstItems(insts, u);
    ResolvedExact(items, v);
    hide InstItems, Resolved, Position, Spells;
    if v in RefGraph(insts)[u] {
      var k :| 0 <= k < |items| && items[k].key == v;
      assert items[k] in items;
      InstItemsExact(insts, u, items[k]);
      var a := items[k].value.attr;
      PositionLast(insts, items[k].value.id, v);
      assert SpellsHolder(insts, insts[u].args[a], v);
    }
    if a: nat :| a < |insts[u].args| && SpellsHolder(insts, insts[u].args[a], v) {
      var x: Item<int, Link> := Item(v, Link(u, a, insts[v].id));
      PositionLast(insts, insts[v].id, v);
      InstItemsExact(insts, u, x);
      var k :| 0 <= k < |items| && items[k] == x;
    }
  }

  /** The tree spells the id of instance `v`, which no later instance has. */
  ghost predicate SpellsHolder(insts: seq<Record>, t: Tree, v: nat) {
    v < |insts| && Spells(t, insts[v].id) && forall w: nat :: v < w < |insts| ==> insts[w].id != insts[v].id
  }

  lemma {:induction false} PositionLast(insts: seq<Record>, id: nat, v: nat)
    ensures Position(insts, id) == v <==>
      v < |insts| && insts[v].id == id && forall w: nat :: v < w < |insts| ==> insts[w].id != insts[v].id
  {
  }

  /** A traversal's graph names only instances of the file. */
  lemma {:induction false} GraphWellFormed(insts: seq<Record>)
    ensures Tr.WellFormed(RefGraph(insts))
  {
    forall u, v | 0 <= u < |insts| && v in RefGraph(insts)[u] ensures v < |insts| {
      var items := InstItems(insts, u);
      ResolvedExact(items, v);
      var k :| 0 <= k < |items| && items[k].key == v;
      assert items[k] in items;
      InstItemsExact(insts, u, items[k]);
    }
  }

  /** ... and of those that share an id, only the last. */
  lemma {:induction false} GraphLastHolders(insts: seq<Record>)
    ensures Tr.LastHolders(RefGraph(insts), Ids(insts))
  {
    forall u: nat, v: nat, w: nat | 0 <= u < |insts| && v in RefGraph(insts)[u] && v < w < |insts| ensures insts[w].id != insts[v].id {
      var items := InstItems(insts, u);
      ResolvedExact(items, v);
      var k :| 0 <= k < |items| && items[k].key == v;
      assert items[k] in items;
      InstItemsExact(insts, u, items[k]);
    }
  }
}
