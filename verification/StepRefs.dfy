// The file's indexes over parsed instances: id lookup, the referrers of every instance
// with the missing-reference warnings, and the instances of every type.
module StepRefs {
  import opened StepLexer
  import opened StepGrammar
  import opened StepSlab
  import opened StepPaths
  import opened StepIndex

  // ---------------------------------------------------------------- ids

  datatype IdIndex = Dense(cells: seq<int>) | Sparse(entries: map<nat, int>)

  /** An id's position, or -1. */
  function Index(ix: IdIndex, id: nat): int {
    match ix
    case Dense(cells) => if id < |cells| then cells[id] - 1 else -1
    case Sparse(entries) => if id in entries then entries[id] else -1
  }

  /** The last of the first `n` instances named `id`, or -1. */
  function Last(insts: seq<Record>, id: nat, n: nat): (i: int)
    requires n <= |insts|
    ensures -1 <= i < n
    ensures i >= 0 ==> insts[i].id == id
    ensures forall j :: i < j < n ==> insts[j].id != id
  {
    if n == 0 then -1 else if insts[n - 1].id == id then n - 1 else Last(insts, id, n - 1)
  }

  function Position(insts: seq<Record>, id: nat): int { Last(insts, id, |insts|) }

  const DENSE_SLACK: nat := 4

  /** Builds the id index: a slice when ids are compact, a map when they are not. Either
      way a lookup finds the last instance of that name. */
  method IndexIDs(insts: seq<Record>) returns (ix: IdIndex)
    ensures forall id: nat :: Index(ix, id) == Position(insts, id)
  {
    var maxID: nat := 0;
    for i := 0 to |insts|
      invariant forall j :: 0 <= j < i ==> insts[j].id <= maxID
    {
      if insts[i].id > maxID { maxID := insts[i].id; }
    }
    if maxID < DENSE_SLACK * |insts| + 1024 {
      var dense: seq<int> := seq(maxID + 1, _ => 0);
      for i := 0 to |insts|
        invariant |dense| == maxID + 1
        invariant forall id :: 0 <= id <= maxID ==> dense[id] == Last(insts, id, i) + 1
      {
        dense := dense[insts[i].id := i + 1];
      }
      return Dense(dense);
    }
    var sparse: map<nat, int> := map[];
    for i := 0 to |insts|
      invariant forall id: nat :: (if id in sparse then sparse[id] else -1) == Last(insts, id, i)
    {
      sparse := sparse[insts[i].id := i];
    }
    ix := Sparse(sparse);
  }

  // ---------------------------------------------------------------- references

  /** One reference: the instance and attribute it stands in, and the id it names. */
  datatype Link = Link(from: nat, attr: nat, id: nat)

  function IdItems(insts: seq<Record>, from: nat, attr: nat, ids: seq<nat>): (s: seq<Item<int, Link>>)
    ensures |s| == |ids|
  {
    seq(|ids|, k requires 0 <= k < |ids| => Item(Position(insts, ids[k]), Link(from, attr, ids[k])))
  }

  /** The references of instance `i`'s first `a` attributes, keyed by their targets. */
  function AttrItems(insts: seq<Record>, i: nat, a: nat): seq<Item<int, Link>>
    requires i < |insts| && a <= |insts[i].args|
  {
    if a == 0 then [] else AttrItems(insts, i, a - 1) + IdItems(insts, i, a - 1, TreeRefs(insts[i].args[a - 1]))
  }

  function InstItems(insts: seq<Record>, i: nat): seq<Item<int, Link>>
    requires i < |insts|
  {
    AttrItems(insts, i, |insts[i].args|)
  }

  /** The references of instances [lo, hi), in source order and then attribute order. */
  function Stream(insts: seq<Record>, lo: nat, hi: nat): seq<Item<int, Link>>
    requires lo <= hi <= |insts|
    decreases hi
  {
    if lo == hi then [] else Stream(insts, lo, hi - 1) + InstItems(insts, hi - 1)
  }

  lemma {:induction false} StreamSplit(insts: seq<Record>, lo: nat, mid: nat, hi: nat)
    requires lo <= mid <= hi <= |insts|
    ensures Stream(insts, lo, mid) + Stream(insts, mid, hi) == Stream(insts, lo, hi)
  {
    if mid < hi { StreamSplit(insts, lo, mid, hi - 1); }
  }

  function Streams(insts: seq<Record>, rs: seq<(nat, nat)>): (ss: seq<seq<Item<int, Link>>>)
    requires Partition(rs, |insts|)
    ensures |ss| == |rs|
  {
    seq(|rs|, g requires 0 <= g < |rs| => Stream(insts, rs[g].0, rs[g].1))
  }

  lemma {:induction false} StreamAt(insts: seq<Record>, rs: seq<(nat, nat)>, g: nat)
    requires Partition(rs, |insts|) && g < |rs|
    ensures rs[g].0 <= rs[g].1 <= |insts| && Streams(insts, rs)[g] == Stream(insts, rs[g].0, rs[g].1)
  {
  }

  lemma {:induction false} ConcatMore<T>(ss: seq<seq<T>>, s: seq<T>)
    ensures Concat(ss + [s]) == Concat(ss) + s
  {
    assert (ss + [s])[..|ss|] == ss;
  }

  lemma {:induction false} PrefixMore<T>(s: seq<T>, g: nat)
    requires g < |s|
    ensures s[..g + 1] == s[..g] + [s[g]]
  {
  }

  /** However the instances are cut into ranges, the ranges' streams join to the whole. */
  lemma {:induction false} StreamsJoin(insts: seq<Record>, rs: seq<(nat, nat)>, g: nat)
    requires Partition(rs, |insts|) && g <= |rs|
    ensures Concat(Streams(insts, rs)[..g]) == Stream(insts, 0, if g == 0 then 0 else rs[g - 1].1)
  {
    var ss := Streams(insts, rs);
    if g > 0 {
      StreamsJoin(insts, rs, g - 1);
      assert ss[..g][..g - 1] == ss[..g - 1];
      StreamSplit(insts, 0, rs[g - 1].0, rs[g - 1].1);
    }
  }

  /** A range's walk over its instances' arguments. */
  method WalkRange(insts: seq<Record>, ix: IdIndex, lo: nat, hi: nat) returns (items: seq<Item<int, Link>>)
    requires lo <= hi <= |insts|
    requires forall id: nat :: Index(ix, id) == Position(insts, id)
    ensures items == Stream(insts, lo, hi)
  {
    hide TreeRefs, Position, Index;
    items := [];
    for i := lo to hi
      invariant items == Stream(insts, lo, i)
    {
      ghost var before := items;
      for a := 0 to |insts[i].args|
        invariant items == before + AttrItems(insts, i, a)
      {
        var ids := TreeRefs(insts[i].args[a]);
        ghost var upto := items;
        for k := 0 to |ids|
          invariant items == upto + IdItems(insts, i, a, ids)[..k]
        {
          items := items + [Item(Index(ix, ids[k]), Link(i, a, ids[k]))];
        }
        assert IdItems(insts, i, a, ids)[..|ids|] == IdItems(insts, i, a, ids);
      }
    }
  }

  // ---------------------------------------------------------------- the inverse index

  /** The references of the first `a` attributes of instance `i` that resolve to `t`. */
  function AttrReferrers(insts: seq<Record>, t: int, i: nat, a: nat): seq<Link>
    requires i < |insts| && a <= |insts[i].args|
  {
    if a == 0 then [] else AttrReferrers(insts, t, i, a - 1) + IdReferrers(insts, t, i, a - 1, TreeRefs(insts[i].args[a - 1]))
  }

  function IdReferrers(insts: seq<Record>, t: int, i: nat, a: nat, ids: seq<nat>): seq<Link> {
    if ids == [] then []
    else IdReferrers(insts, t, i, a, ids[..|ids| - 1]) + (if Position(insts, ids[|ids| - 1]) == t then [Link(i, a, ids[|ids| - 1])] else [])
  }

  /** The naive referrer list of `t` among the first `n` instances: source order, then
      attribute order, then the order references are written in. With t == -1, the
      references to missing instances. */
  function Referrers(insts: seq<Record>, t: int, n: nat): seq<Link>
    requires n <= |insts|
  {
    if n == 0 then [] else Referrers(insts, t, n - 1) + AttrReferrers(insts, t, n - 1, |insts[n - 1].args|)
  }

  lemma {:induction false} ListedIds(insts: seq<Record>, t: int, i: nat, a: nat, ids: seq<nat>)
    ensures Listed(IdItems(insts, i, a, ids), t) == IdReferrers(insts, t, i, a, ids)
  {
    if ids != [] {
      ListedIds(insts, t, i, a, ids[..|ids| - 1]);
      assert IdItems(insts, i, a, ids)[..|ids| - 1] == IdItems(insts, i, a, ids[..|ids| - 1]);
    }
  }

  lemma {:induction false} ListedAttrs(insts: seq<Record>, t: int, i: nat, a: nat)
    requires i < |insts| && a <= |insts[i].args|
    ensures Listed(AttrItems(insts, i, a), t) == AttrReferrers(insts, t, i, a)
  {
    if a > 0 {
      ListedAttrs(insts, t, i, a - 1);
      ListedIds(insts, t, i, a - 1, TreeRefs(insts[i].args[a - 1]));
      ListedAppend(AttrItems(insts, i, a - 1), IdItems(insts, i, a - 1, TreeRefs(insts[i].args[a - 1])), t);
    }
  }

  lemma {:induction false} ListedIsReferrers(insts: seq<Record>, t: int, n: nat)
    requires n <= |insts|
    ensures Listed(Stream(insts, 0, n), t) == Referrers(insts, t, n)
  {
    if n > 0 {
      ListedIsReferrers(insts, t, n - 1);
      ListedAttrs(insts, t, n - 1, |insts[n - 1].args|);
      ListedAppend(Stream(insts, 0, n - 1), InstItems(insts, n - 1), t);
    }
  }

  /** The ranges' walks, one after the other, and their warnings in source order. */
  method WalkRanges(insts: seq<Record>, ix: IdIndex, rs: seq<(nat, nat)>) returns (ss: seq<seq<Item<int, Link>>>, warnings: seq<Link>)
    requires Partition(rs, |insts|)
    requires forall id: nat :: Index(ix, id) == Position(insts, id)
    ensures ss == Streams(insts, rs)
    ensures warnings == Referrers(insts, -1, |insts|)
  {
    assert Listed<int, Link>(Concat([]), -1) == [];
    hide Stream, Streams, Referrers, Listed, Position, Index, Concat;
    ss, warnings := [], [];
    ghost var all := Streams(insts, rs);
    for g := 0 to |rs|
      invariant ss == all[..g]
      invariant warnings == Listed(Concat(ss), -1)
    {
      var items := WalkRange(insts, ix, rs[g].0, rs[g].1);
      var missing := MissingOf(items);
      StreamAt(insts, rs, g);
      PrefixMore(all, g);
      ListedAppend(Concat(ss), items, -1);
      ConcatMore(ss, items);
      ss := ss + [items];
      warnings := warnings + missing;
    }
    assert all[..|rs|] == all;
    StreamsJoin(insts, rs, |rs|);
    ListedIsReferrers(insts, -1, |insts|);
  }

  /** The inverse index over concurrent ranges: for any cut into ranges and any interleaving
      of their writes, instance `t`'s cells hold its naive referrer list, the cells of all
      instances fill the index, and the warnings list missing references in source order. */
  method IndexInverse(insts: seq<Record>, ix: IdIndex, rs: seq<(nat, nat)>)
    returns (inv: array<Link>, start: seq<nat>, warnings: seq<Link>)
    requires Partition(rs, |insts|)
    requires forall id: nat :: Index(ix, id) == Position(insts, id)
    ensures |start| == |insts| + 1 && start[0] == 0 && start[|insts|] == inv.Length
    ensures forall t :: 0 <= t < |insts| ==> KeySlice(inv[..], start, t, Referrers(insts, t, |insts|))
    ensures warnings == Referrers(insts, -1, |insts|)
  {
    hide Stream, Streams, Referrers, Listed, Position, Index, KeySlice, Concat;
    var n := |insts|;
    var ss;
    ss, warnings := WalkRanges(insts, ix, rs);
    StreamsJoin(insts, rs, |rs|);
    assert ss[..|ss|] == ss;
    var next := CountRanges(ss, n);
    start := PrefixSums(ss, n, next);
    inv := new Link[start[n]](_ => Link(0, 0, 0));
    Fill(ss, n, start, next, inv);
    forall t | 0 <= t < n ensures KeySlice(inv[..], start, t, Referrers(insts, t, n)) {
      ListedIsReferrers(insts, t, n);
    }
  }

  /** A range's warnings: its items with no target. */
  method MissingOf(items: seq<Item<int, Link>>) returns (w: seq<Link>)
    ensures w == Listed(items, -1)
  {
    w := [];
    for j := 0 to |items|
      invariant w == Listed(items[..j], -1)
    {
      ListedStep(items, j, -1);
      if items[j].key == -1 { w := w + [items[j].value]; }
    }
    assert items[..|items|] == items;
  }

  // ---------------------------------------------------------------- what a list holds

  /** A reference to `t` is listed exactly when the attribute spells, somewhere, an id that
      resolves to `t`. */
  lemma {:induction false} ReferrersExact(insts: seq<Record>, t: int, n: nat, l: Link)
    requires n <= |insts|
    ensures l in Referrers(insts, t, n) <==>
      l.from < n && l.attr < |insts[l.from].args| && Spells(insts[l.from].args[l.attr], l.id) && Position(insts, l.id) == t
  {
    hide AttrReferrers, Spells, Position;
    if n > 0 {
      ReferrersExact(insts, t, n - 1, l);
      AttrReferrersExact(insts, t, n - 1, |insts[n - 1].args|, l);
    }
  }

  lemma {:induction false} AttrReferrersExact(insts: seq<Record>, t: int, i: nat, a: nat, l: Link)
    requires i < |insts| && a <= |insts[i].args|
    ensures l in AttrReferrers(insts, t, i, a) <==>
      l.from == i && l.attr < a && Spells(insts[i].args[l.attr], l.id) && Position(insts, l.id) == t
  {
    hide IdReferrers, TreeRefs, Position, Spells;
    if a > 0 {
      SpelledIsListed(insts[i].args[a - 1], l.id);
      AttrReferrersExact(insts, t, i, a - 1, l);
      IdReferrersExact(insts, t, i, a - 1, TreeRefs(insts[i].args[a - 1]), l);
    }
  }

  lemma {:induction false} IdReferrersExact(insts: seq<Record>, t: int, i: nat, a: nat, ids: seq<nat>, l: Link)
    ensures l in IdReferrers(insts, t, i, a, ids) <==> l.from == i && l.attr == a && l.id in ids && Position(insts, l.id) == t
  {
    if ids != [] {
      var last := ids[|ids| - 1];
      IdReferrersExact(insts, t, i, a, ids[..|ids| - 1], l);
      assert ids == ids[..|ids| - 1] + [last];
    }
  }

  // ---------------------------------------------------------------- in what order

  /** The reference stands at a place: its instance, its attribute, and the path from there. */
  ghost predicate RefersAt(insts: seq<Record>, pl: seq<nat>, l: Link) {
    && |pl| >= 2 && pl[0] == l.from < |insts| && pl[1] == l.attr < |insts[l.from].args|
    && RefAt(insts[l.from].args[l.attr], pl[2..], l.id)
  }

  /** The list holds the references of the first `n` instances to `t`, one a place, in the
      order of the places. */
  ghost predicate Placed(insts: seq<Record>, t: int, n: nat, refs: seq<Link>, pls: seq<seq<nat>>) {
    && |pls| == |refs| && Rising(pls)
    && (forall k :: 0 <= k < |refs| ==> RefersAt(insts, pls[k], refs[k]) && refs[k].from < n && Position(insts, refs[k].id) == t)
    && (forall pl, l :: RefersAt(insts, pl, l) && l.from < n && Position(insts, l.id) == t ==> pl in pls)
  }

  /** ... of instance `i`'s first `a` attributes, by attribute and path. */
  ghost predicate PlacedIn(insts: seq<Record>, t: int, i: nat, a: nat, refs: seq<Link>, ps: seq<seq<nat>>)
    requires i < |insts|
  {
    && |ps| == |refs| && Rising(ps)
    && (forall k :: 0 <= k < |refs| ==> refs[k].from == i && RefersIn(insts[i].args, ps[k], refs[k]) && ps[k][0] < a && Position(insts, refs[k].id) == t)
    && (forall p, l: Link :: l.from == i && RefersIn(insts[i].args, p, l) && p[0] < a && Position(insts, l.id) == t ==> p in ps)
  }

  ghost predicate RefersIn(args: seq<Tree>, p: seq<nat>, l: Link) {
    p != [] && p[0] == l.attr && RefIn(args, p, l.id)
  }

  /** One entry picked from an attribute's ids, with its path. */
  ghost predicate PickedAt(insts: seq<Record>, t: int, i: nat, a: nat, ids: seq<nat>, ps: seq<seq<nat>>, l: Link, q: seq<nat>)
    requires |ps| == |ids|
  {
    exists j :: 0 <= j < |ids| && q == ps[j] && l == Link(i, a, ids[j]) && Position(insts, ids[j]) == t
  }

  /** ... and all of them. */
  ghost predicate Picked(insts: seq<Record>, t: int, i: nat, a: nat, ids: seq<nat>, ps: seq<seq<nat>>, refs: seq<Link>, qs: seq<seq<nat>>)
    requires |ps| == |ids|
  {
    && |qs| == |refs| && Rising(qs)
    && (forall k :: 0 <= k < |refs| ==> PickedAt(insts, t, i, a, ids, ps, refs[k], qs[k]))
    && (forall j :: 0 <= j < |ids| && Position(insts, ids[j]) == t ==> ps[j] in qs)
  }

  lemma {:induction false} IdsPicked(insts: seq<Record>, t: int, i: nat, a: nat, ids: seq<nat>, ps: seq<seq<nat>>) returns (qs: seq<seq<nat>>)
    requires |ps| == |ids| && Rising(ps)
    ensures Picked(insts, t, i, a, ids, ps, IdReferrers(insts, t, i, a, ids), qs)
  {
    qs := [];
    if ids != [] {
      var n := |ids| - 1;
      assert ids[..n] + [ids[n]] == ids && ps[..n] + [ps[n]] == ps;
      qs := IdsPicked(insts, t, i, a, ids[..n], ps[..n]);
      PickMore(insts, t, i, a, ids[..n], ps[..n], IdReferrers(insts, t, i, a, ids[..n]), qs, ids[n], ps[n]);
      if Position(insts, ids[n]) == t { qs := qs + [ps[n]]; }
    }
  }

  lemma {:induction false} PickMore(insts: seq<Record>, t: int, i: nat, a: nat, ids: seq<nat>, ps: seq<seq<nat>>, refs: seq<Link>, qs: seq<seq<nat>>, id: nat, p: seq<nat>)
    requires |ps| == |ids| && Rising(ps + [p]) && Picked(insts, t, i, a, ids, ps, refs, qs)
    ensures if Position(insts, id) == t
      then Picked(insts, t, i, a, ids + [id], ps + [p], refs + [Link(i, a, id)], qs + [p])
      else Picked(insts, t, i, a, ids + [id], ps + [p], refs, qs)
  {
    hide Position, PathLess;
    var ids', ps', n := ids + [id], ps + [p], |ids|;
    assert ps'[n] == p && ids'[n] == id;
    forall k | 0 <= k < |refs| ensures PickedAt(insts, t, i, a, ids', ps', refs[k], qs[k]) && PathLess(qs[k], p) {
      var j :| 0 <= j < |ids| && qs[k] == ps[j] && refs[k] == Link(i, a, ids[j]) && Position(insts, ids[j]) == t;
      assert ps'[j] == ps[j] && ids'[j] == ids[j] && PathLess(ps'[j], ps'[n]);
    }
    forall j | 0 <= j < n && Position(insts, ids'[j]) == t ensures ps'[j] in qs { assert ps[j] in qs; }
    if Position(insts, id) == t { assert PickedAt(insts, t, i, a, ids', ps', Link(i, a, id), p); }
    hide PickedAt;
  }

  lemma {:induction false} AttrsPlaced(insts: seq<Record>, t: int, i: nat, a: nat) returns (ps: seq<seq<nat>>)
    requires i < |insts| && a <= |insts[i].args|
    ensures PlacedIn(insts, t, i, a, AttrReferrers(insts, t, i, a), ps)
  {
    ps := [];
    if a > 0 {
      var arg := insts[i].args[a - 1];
      var front := AttrsPlaced(insts, t, i, a - 1);
      var all := TreeRefsExact(arg);
      var qs := IdsPicked(insts, t, i, a - 1, TreeRefs(arg), all);
      ps := front + Under(a - 1, qs);
      AttrMore(insts, t, i, a - 1, AttrReferrers(insts, t, i, a - 1), front, TreeRefs(arg), all, IdReferrers(insts, t, i, a - 1, TreeRefs(arg)), qs);
    }
  }

  lemma {:induction false} AttrMore(insts: seq<Record>, t: int, i: nat, a: nat, refs: seq<Link>, ps: seq<seq<nat>>,
                                    ids: seq<nat>, all: seq<seq<nat>>, more: seq<Link>, qs: seq<seq<nat>>)
    requires i < |insts| && a < |insts[i].args| && PlacedIn(insts, t, i, a, refs, ps)
    requires ListsTree(insts[i].args[a], ids, all) && Picked(insts, t, i, a, ids, all, more, qs)
    ensures PlacedIn(insts, t, i, a + 1, refs + more, ps + Under(a, qs))
  {
    hide Position, PathLess, RefAt, PickedAt;
    var args := insts[i].args;
    forall p | p in ps ensures p != [] && p[0] < a { var k :| 0 <= k < |ps| && ps[k] == p; assert RefersIn(args, ps[k], refs[k]); }
    JoinRising(ps, a, qs);
    AttrMoreSound(insts, t, i, a, refs, ps, ids, all, more, qs);
    forall p, l: Link | l.from == i && RefersIn(args, p, l) && p[0] < a + 1 && Position(insts, l.id) == t ensures p in ps + Under(a, qs) {
      if p[0] == a {
        assert RefAt(args[a], p[1..], l.id);
        AttrFound(insts, t, i, a, ids, all, more, qs, p[1..], l.id);
        var k :| 0 <= k < |qs| && qs[k] == p[1..];
        assert (ps + Under(a, qs))[|ps| + k] == [a] + qs[k] == p;
      }
    }
  }

  lemma {:induction false} AttrMoreSound(insts: seq<Record>, t: int, i: nat, a: nat, refs: seq<Link>, ps: seq<seq<nat>>,
                                         ids: seq<nat>, all: seq<seq<nat>>, more: seq<Link>, qs: seq<seq<nat>>)
    requires i < |insts| && a < |insts[i].args| && PlacedIn(insts, t, i, a, refs, ps)
    requires ListsTree(insts[i].args[a], ids, all) && Picked(insts, t, i, a, ids, all, more, qs)
    ensures var both, r := refs + more, ps + Under(a, qs);
      forall k :: 0 <= k < |both| ==> both[k].from == i && RefersIn(insts[i].args, r[k], both[k]) && r[k][0] < a + 1 && Position(insts, both[k].id) == t
  {
    hide Position, PathLess, RefAt, Rising;
    var both, r := refs + more, ps + Under(a, qs);
    forall k | 0 <= k < |both| ensures both[k].from == i && RefersIn(insts[i].args, r[k], both[k]) && r[k][0] < a + 1 && Position(insts, both[k].id) == t {
      if k >= |refs| {
        var q, l := qs[k - |refs|], more[k - |refs|];
        assert r[k] == [a] + q && r[k][1..] == q;
        assert PickedAt(insts, t, i, a, ids, all, l, q);
        var j :| 0 <= j < |ids| && q == all[j] && l == Link(i, a, ids[j]) && Position(insts, ids[j]) == t;
      } else {
        assert RefersIn(insts[i].args, ps[k], refs[k]);
      }
    }
  }

  lemma {:induction false} AttrFound(insts: seq<Record>, t: int, i: nat, a: nat, ids: seq<nat>, all: seq<seq<nat>>, more: seq<Link>, qs: seq<seq<nat>>, p: seq<nat>, id: nat)
    requires i < |insts| && a < |insts[i].args|
    requires ListsTree(insts[i].args[a], ids, all) && Picked(insts, t, i, a, ids, all, more, qs)
    requires RefAt(insts[i].args[a], p, id) && Position(insts, id) == t
    ensures p in qs
  {
    hide Position, PathLess, RefAt, PickedAt, Rising;
    var j :| 0 <= j < |all| && all[j] == p;
    OneIdThere(insts[i].args[a], p, id, ids[j]);
  }

  /** The referrer list is in the order its references are written: by instance, by attribute,
      and by place in the attribute; and it has one entry a place. */
  lemma {:induction false} ReferrersPlaced(insts: seq<Record>, t: int, n: nat) returns (pls: seq<seq<nat>>)
    requires n <= |insts|
    ensures Placed(insts, t, n, Referrers(insts, t, n), pls)
  {
    pls := [];
    if n > 0 {
      var front := ReferrersPlaced(insts, t, n - 1);
      var ps := AttrsPlaced(insts, t, n - 1, |insts[n - 1].args|);
      pls := front + Under(n - 1, ps);
      InstMore(insts, t, n - 1, Referrers(insts, t, n - 1), front, AttrReferrers(insts, t, n - 1, |insts[n - 1].args|), ps);
    }
  }

  lemma {:induction false} InstMore(insts: seq<Record>, t: int, i: nat, refs: seq<Link>, pls: seq<seq<nat>>, more: seq<Link>, ps: seq<seq<nat>>)
    requires i < |insts| && Placed(insts, t, i, refs, pls) && PlacedIn(insts, t, i, |insts[i].args|, more, ps)
    ensures Placed(insts, t, i + 1, refs + more, pls + Under(i, ps))
  {
    hide Position, PathLess, RefAt;
    var both, r := refs + more, pls + Under(i, ps);
    forall p | p in pls ensures p != [] && p[0] < i { var k :| 0 <= k < |pls| && pls[k] == p; assert RefersAt(insts, pls[k], refs[k]); }
    JoinRising(pls, i, ps);
    forall k | 0 <= k < |both| ensures RefersAt(insts, r[k], both[k]) && both[k].from < i + 1 && Position(insts, both[k].id) == t {
      if k >= |refs| {
        var q, l := ps[k - |refs|], more[k - |refs|];
        assert RefersIn(insts[i].args, q, l);
        assert r[k] == [i] + q && r[k][2..] == q[1..];
      }
    }
    forall pl, l | RefersAt(insts, pl, l) && l.from < i + 1 && Position(insts, l.id) == t ensures pl in r {
      if l.from == i {
        var q := pl[1..];
        assert q[1..] == pl[2..];
        assert RefersIn(insts[i].args, q, l);
        var k :| 0 <= k < |ps| && ps[k] == q;
        assert r[|pls| + k] == [i] + ps[k] == pl;
      }
    }
  }

  function Ids(insts: seq<Record>): (r: seq<nat>)
    ensures |r| == |insts|
  {
    seq(|insts|, i requires 0 <= i < |insts| => insts[i].id)
  }

  /** The instances named are of the file. */
  predicate InFile(ids: seq<nat>, xs: seq<nat>) { forall k :: 0 <= k < |xs| ==> xs[k] < |ids| }

  /** Who refers, reference by reference. */
  function Froms(refs: seq<Link>): (xs: seq<nat>)
    ensures |xs| == |refs| && forall k :: 0 <= k < |refs| ==> xs[k] == refs[k].from
  {
    seq(|refs|, k requires 0 <= k < |refs| => refs[k].from)
  }

  /** Some instance of the list has that id. */
  predicate Shows(ids: seq<nat>, xs: seq<nat>, id: nat)
    requires InFile(ids, xs)
  {
    exists i :: 0 <= i < |xs| && ids[xs[i]] == id
  }

  /** The instances of a list, one an id: the first seen. */
  function FirstSeen(ids: seq<nat>, xs: seq<nat>): (out: seq<nat>)
    requires InFile(ids, xs)
    ensures InFile(ids, out)
  {
    if xs == [] then []
    else
      var last := xs[|xs| - 1];
      var out := FirstSeen(ids, xs[..|xs| - 1]);
      if Shows(ids, out, ids[last]) then out else out + [last]
  }

  /** The first of the list with its id. */
  predicate IsFirst(ids: seq<nat>, xs: seq<nat>, m: nat)
    requires InFile(ids, xs) && m < |xs|
  {
    forall l :: 0 <= l < m ==> ids[xs[l]] != ids[xs[m]]
  }

  lemma {:induction false} FirstSeenOnce(ids: seq<nat>, xs: seq<nat>, i: nat, j: nat)
    requires InFile(ids, xs) && i < j < |FirstSeen(ids, xs)|
    ensures ids[FirstSeen(ids, xs)[i]] != ids[FirstSeen(ids, xs)[j]]
  {
    var before := FirstSeen(ids, xs[..|xs| - 1]);
    if j < |before| { FirstSeenOnce(ids, xs[..|xs| - 1], i, j); } else { assert before[i] == FirstSeen(ids, xs)[i]; }
  }

  lemma {:induction false} FirstSeenShows(ids: seq<nat>, xs: seq<nat>, m: nat)
    requires InFile(ids, xs) && m < |xs|
    ensures Shows(ids, FirstSeen(ids, xs), ids[xs[m]])
  {
    var n := |xs| - 1;
    var before, out := FirstSeen(ids, xs[..n]), FirstSeen(ids, xs);
    if m < n {
      FirstSeenShows(ids, xs[..n], m);
      var i :| 0 <= i < |before| && ids[before[i]] == ids[xs[m]];
      assert out[i] == before[i];
    } else if !Shows(ids, before, ids[xs[n]]) {
      assert out[|before|] == xs[n];
    }
  }

  /** What is listed is a first. */
  lemma {:induction false} ListedIsFirst(ids: seq<nat>, xs: seq<nat>, i: nat) returns (m: nat)
    requires InFile(ids, xs) && i < |FirstSeen(ids, xs)|
    ensures m < |xs| && xs[m] == FirstSeen(ids, xs)[i] && IsFirst(ids, xs, m)
  {
    var n := |xs| - 1;
    var before := FirstSeen(ids, xs[..n]);
    if i < |before| {
      m := ListedIsFirst(ids, xs[..n], i);
    } else {
      m := n;
      forall l | 0 <= l < n ensures ids[xs[l]] != ids[xs[n]] { FirstSeenShows(ids, xs[..n], l); }
    }
  }

  /** What is a first is listed. */
  lemma {:induction false} FirstIsListed(ids: seq<nat>, xs: seq<nat>, m: nat)
    requires InFile(ids, xs) && m < |xs| && IsFirst(ids, xs, m)
    ensures xs[m] in FirstSeen(ids, xs)
  {
    var n := |xs| - 1;
    var before := FirstSeen(ids, xs[..n]);
    if m < n {
      FirstIsListed(ids, xs[..n], m);
    } else if Shows(ids, before, ids[xs[n]]) {
      var i :| 0 <= i < |before| && ids[before[i]] == ids[xs[n]];
      var l := ListedIsFirst(ids, xs[..n], i);
    }
  }

  /** First-seen order lists exactly the first of each id: each id once, and none dropped. */
  lemma {:induction false} FirstSeenExact(ids: seq<nat>, xs: seq<nat>)
    requires InFile(ids, xs)
    ensures var out := FirstSeen(ids, xs);
      && (forall i, j :: 0 <= i < j < |out| ==> ids[out[i]] != ids[out[j]])
      && (forall m :: 0 <= m < |xs| ==> Shows(ids, out, ids[xs[m]]))
      && (forall f :: f in out <==> exists m: nat :: m < |xs| && xs[m] == f && IsFirst(ids, xs, m))
    ensures xs != [] ==> FirstSeen(ids, xs[..|xs| - 1]) <= FirstSeen(ids, xs)
  {
    var out := FirstSeen(ids, xs);
    assert xs != [] ==> FirstSeen(ids, xs[..|xs| - 1]) <= out;
    hide FirstSeen, Shows, IsFirst;
    forall i, j | 0 <= i < j < |out| ensures ids[out[i]] != ids[out[j]] { FirstSeenOnce(ids, xs, i, j); }
    forall m | 0 <= m < |xs| ensures Shows(ids, out, ids[xs[m]]) { FirstSeenShows(ids, xs, m); }
    forall f ensures f in out <==> exists m: nat :: m < |xs| && xs[m] == f && IsFirst(ids, xs, m) {
      if f in out {
        var i :| 0 <= i < |out| && out[i] == f;
        var m := ListedIsFirst(ids, xs, i);
      }
      if m: nat :| m < |xs| && xs[m] == f && IsFirst(ids, xs, m) { FirstIsListed(ids, xs, m); }
    }
  }

  /** The distinct referrers behind an instance's reference list. */
  method Inverse(ids: seq<nat>, refs: seq<Link>) returns (out: seq<nat>)
    requires InFile(ids, Froms(refs))
    ensures out == FirstSeen(ids, Froms(refs))
  {
    ghost var xs := Froms(refs);
    out := [];
    var seen: set<nat> := {};
    for k := 0 to |refs|
      invariant out == FirstSeen(ids, xs[..k])
      invariant forall id :: id in seen <==> Shows(ids, out, id)
    {
      assert xs[..k + 1][..k] == xs[..k];
      var f := refs[k].from;
      if ids[f] !in seen {
        ShowsMore(ids, out, f);
        seen := seen + {ids[f]};
        out := out + [f];
      }
    }
    assert xs[..|refs|] == xs;
  }

  lemma {:induction false} ShowsMore(ids: seq<nat>, xs: seq<nat>, f: nat)
    requires InFile(ids, xs) && f < |ids|
    ensures forall id :: Shows(ids, xs + [f], id) <==> Shows(ids, xs, id) || id == ids[f]
  {
    var more := xs + [f];
    forall id ensures Shows(ids, more, id) <==> Shows(ids, xs, id) || id == ids[f] {
      if i :| 0 <= i < |xs| && ids[xs[i]] == id { assert more[i] == xs[i]; }
      if id == ids[f] { assert more[|xs|] == f; }
    }
  }

  /** No two different instances of the list share an id. */
  predicate IdsDiffer(ids: seq<nat>, xs: seq<nat>)
    requires InFile(ids, xs)
  {
    forall l, m :: 0 <= l < |xs| && 0 <= m < |xs| && ids[xs[l]] == ids[xs[m]] ==> xs[l] == xs[m]
  }

  /** Exactly when every referrer is listed: when no two of them share an id. */
  lemma {:induction false} InverseCompleteIff(ids: seq<nat>, xs: seq<nat>)
    requires InFile(ids, xs)
    ensures (forall m :: 0 <= m < |xs| ==> xs[m] in FirstSeen(ids, xs)) <==> IdsDiffer(ids, xs)
  {
    FirstSeenExact(ids, xs);
    var out := FirstSeen(ids, xs);
    hide FirstSeen, IsFirst, Shows, IdsDiffer;
    if forall m :: 0 <= m < |xs| ==> xs[m] in out { ListedDiffer(ids, xs, out); }
    if IdsDiffer(ids, xs) {
      forall m | 0 <= m < |xs| ensures xs[m] in out {
        var l := SeenFirst(ids, xs, m);
        OneHolder(ids, xs, l, m);
      }
    }
  }

  lemma {:induction false} ListedDiffer(ids: seq<nat>, xs: seq<nat>, out: seq<nat>)
    requires InFile(ids, xs) && InFile(ids, out) && forall m :: 0 <= m < |xs| ==> xs[m] in out
    requires forall i, j :: 0 <= i < j < |out| ==> ids[out[i]] != ids[out[j]]
    ensures IdsDiffer(ids, xs)
  {
    forall l, m | 0 <= l < |xs| && 0 <= m < |xs| && ids[xs[l]] == ids[xs[m]] ensures xs[l] == xs[m] {
      var i :| 0 <= i < |out| && out[i] == xs[l];
      var j :| 0 <= j < |out| && out[j] == xs[m];
    }
  }

  lemma {:induction false} OneHolder(ids: seq<nat>, xs: seq<nat>, l: nat, m: nat)
    requires InFile(ids, xs) && IdsDiffer(ids, xs) && l < |xs| && m < |xs| && ids[xs[l]] == ids[xs[m]]
    ensures xs[l] == xs[m]
  {
  }

  /** The first of a listed instance's id, listed itself. */
  lemma {:induction false} SeenFirst(ids: seq<nat>, xs: seq<nat>, m: nat) returns (l: nat)
    requires InFile(ids, xs) && m < |xs|
    ensures l < |xs| && ids[xs[l]] == ids[xs[m]] && xs[l] in FirstSeen(ids, xs)
  {
    var out := FirstSeen(ids, xs);
    FirstSeenShows(ids, xs, m);
    var i :| 0 <= i < |out| && ids[out[i]] == ids[xs[m]];
    l := ListedIsFirst(ids, xs, i);
  }

  // ---------------------------------------------------------------- the type index

  /** The types instance `i` is indexed under: each part of a complex instance, or its one type. */
  function TypesOf(insts: seq<Record>, complex: map<nat, seq<Bytes>>, i: nat): seq<Bytes>
    requires i < |insts|
  {
    if insts[i].id in complex && |complex[insts[i].id]| > 1 then complex[insts[i].id] else [insts[i].typ]
  }

  function TypeRow(ts: seq<Bytes>, i: nat): seq<Item<Bytes, nat>> {
    seq(|ts|, k requires 0 <= k < |ts| => Item(ts[k], i))
  }

  function TypeItems(insts: seq<Record>, complex: map<nat, seq<Bytes>>, lo: nat, hi: nat): seq<Item<Bytes, nat>>
    requires lo <= hi <= |insts|
    decreases hi
  {
    if lo == hi then [] else
    var ts := TypesOf(insts, complex, hi - 1);
    TypeItems(insts, complex, lo, hi - 1) + TypeRow(ts, hi - 1)
  }

  lemma {:induction false} TypeItemsSplit(insts: seq<Record>, complex: map<nat, seq<Bytes>>, lo: nat, mid: nat, hi: nat)
    requires lo <= mid <= hi <= |insts|
    ensures TypeItems(insts, complex, lo, mid) + TypeItems(insts, complex, mid, hi) == TypeItems(insts, complex, lo, hi)
  {
    if mid < hi { TypeItemsSplit(insts, complex, lo, mid, hi - 1); }
  }

  /** A type's instances, in source order; a complex instance once per part that names the type. */
  function OfType(insts: seq<Record>, complex: map<nat, seq<Bytes>>, t: Bytes, n: nat): seq<nat>
    requires n <= |insts|
  {
    if n == 0 then [] else OfType(insts, complex, t, n - 1) + Repeats(TypesOf(insts, complex, n - 1), t, n - 1)
  }

  function Repeats(ts: seq<Bytes>, t: Bytes, i: nat): seq<nat> {
    if ts == [] then [] else Repeats(ts[..|ts| - 1], t, i) + (if ts[|ts| - 1] == t then [i] else [])
  }

  lemma {:induction false} ListedTypes(ts: seq<Bytes>, t: Bytes, i: nat)
    ensures Listed(TypeRow(ts, i), t) == Repeats(ts, t, i)
  {
    if ts != [] {
      ListedTypes(ts[..|ts| - 1], t, i);
      var s := TypeRow(ts, i);
      var us := ts[..|ts| - 1];
      assert s[..|s| - 1] == TypeRow(us, i);
    }
  }

  lemma {:induction false} ListedIsOfType(insts: seq<Record>, complex: map<nat, seq<Bytes>>, t: Bytes, n: nat)
    requires n <= |insts|
    ensures Listed(TypeItems(insts, complex, 0, n), t) == OfType(insts, complex, t, n)
  {
    if n > 0 {
      var ts := TypesOf(insts, complex, n - 1);
      ListedIsOfType(insts, complex, t, n - 1);
      ListedTypes(ts, t, n - 1);
      ListedAppend(TypeItems(insts, complex, 0, n - 1), TypeRow(ts, n - 1), t);
    }
  }

  /** How often an instance's part types name `t`: a complex instance has several, any other
      its one type. */
  ghost function Named(insts: seq<Record>, complex: map<nat, seq<Bytes>>, t: Bytes, i: nat): nat {
    if i >= |insts| then 0
    else if insts[i].id in complex && |complex[insts[i].id]| >= 2 then multiset(complex[insts[i].id])[t]
    else if insts[i].typ == t then 1 else 0
  }

  lemma {:induction false} RepeatsExact(ts: seq<Bytes>, t: Bytes, i: nat)
    ensures |Repeats(ts, t, i)| == multiset(ts)[t] && forall k :: 0 <= k < |Repeats(ts, t, i)| ==> Repeats(ts, t, i)[k] == i
  {
    if ts != [] {
      var front, last := ts[..|ts| - 1], ts[|ts| - 1];
      RepeatsExact(front, t, i);
      assert ts == front + [last];
      OneName(last, t);
    }
  }

  lemma {:induction false} AllSame(s: seq<nat>, i: nat, j: nat)
    requires forall k :: 0 <= k < |s| ==> s[k] == i
    ensures multiset(s)[j] == if i == j then |s| else 0
  {
    if s != [] {
      AllSame(s[..|s| - 1], i, j);
      assert s == s[..|s| - 1] + [s[|s| - 1]];
    }
  }

  /** In order, all below `n`. */
  predicate RisesBelow(s: seq<nat>, n: nat) {
    (forall k, l :: 0 <= k < l < |s| ==> s[k] <= s[l]) && forall k :: 0 <= k < |s| ==> s[k] < n
  }

  /** A type's slice lists each instance as often as its part types name the type, in source
      order. */
  lemma {:induction false} OfTypeExact(insts: seq<Record>, complex: map<nat, seq<Bytes>>, t: Bytes, n: nat, i: nat)
    requires n <= |insts|
    ensures var s := OfType(insts, complex, t, n);
      multiset(s)[i] == (if i < n then Named(insts, complex, t, i) else 0) && RisesBelow(s, n)
  {
    hide Repeats, TypesOf, Named, RisesBelow;
    if n > 0 {
      var m := n - 1;
      var ts := TypesOf(insts, complex, m);
      OfTypeExact(insts, complex, t, m, i);
      RepeatsExact(ts, t, m);
      assert |Repeats(ts, t, m)| == multiset(ts)[t];
      TypesNamed(insts, complex, t, m);
      AllSame(Repeats(ts, t, m), m, i);
      OneMore(OfType(insts, complex, t, m), Repeats(ts, t, m), m, i);
    } else {
      NoneRise();
    }
  }

  lemma {:induction false} NoneRise()
    ensures RisesBelow([], 0)
  {
  }

  lemma {:induction false} OneMore(a: seq<nat>, b: seq<nat>, m: nat, i: nat)
    requires RisesBelow(a, m) && forall k :: 0 <= k < |b| ==> b[k] == m
    ensures multiset(a + b)[i] == multiset(a)[i] + multiset(b)[i] && RisesBelow(a + b, m + 1)
  {
  }

  lemma {:induction false} TypesNamed(insts: seq<Record>, complex: map<nat, seq<Bytes>>, t: Bytes, i: nat)
    requires i < |insts|
    ensures multiset(TypesOf(insts, complex, i))[t] == Named(insts, complex, t, i)
  {
    OneName(insts[i].typ, t);
  }

  lemma {:induction false} OneName(u: Bytes, t: Bytes)
    ensures multiset([u])[t] == if u == t then 1 else 0
  {
  }

  function TypeStreams(insts: seq<Record>, complex: map<nat, seq<Bytes>>, rs: seq<(nat, nat)>): (ss: seq<seq<Item<Bytes, nat>>>)
    requires Partition(rs, |insts|)
    ensures |ss| == |rs|
  {
    seq(|rs|, g requires 0 <= g < |rs| => TypeItems(insts, complex, rs[g].0, rs[g].1))
  }

  lemma {:induction false} TypeStreamsJoin(insts: seq<Record>, complex: map<nat, seq<Bytes>>, rs: seq<(nat, nat)>, g: nat)
    requires Partition(rs, |insts|) && g <= |rs|
    ensures Concat(TypeStreams(insts, complex, rs)[..g]) == TypeItems(insts, complex, 0, if g == 0 then 0 else rs[g - 1].1)
  {
    hide TypesOf, TypeRow;
    var ss := TypeStreams(insts, complex, rs);
    if g > 0 {
      TypeStreamsJoin(insts, complex, rs, g - 1);
      assert ss[..g][..g - 1] == ss[..g - 1];
      TypeItemsSplit(insts, complex, 0, rs[g - 1].0, rs[g - 1].1);
    }
  }

  /** The type index over concurrent ranges: every type's slice is its naive list. */
  method IndexTypes(insts: seq<Record>, complex: map<nat, seq<Bytes>>, rs: seq<(nat, nat)>) returns (byType: map<Bytes, seq<nat>>)
    requires Partition(rs, |insts|)
    ensures forall t: Bytes :: (if t in byType then byType[t] else []) == OfType(insts, complex, t, |insts|)
  {
    var ss := TypeStreams(insts, complex, rs);
    byType := GroupByType(ss, 0);
    TypeStreamsJoin(insts, complex, rs, |rs|);
    assert ss[..|rs|] == ss;
    forall t: Bytes ensures Listed(Concat(ss), t) == OfType(insts, complex, t, |insts|) {
      ListedIsOfType(insts, complex, t, |insts|);
    }
  }
}
