// Storeys from the import order: the walk to a node's storey, exactly when it ends, and the
// bands storeys are cut into.
module StoreyPlans {
  import opened Common
  import opened Sorting
  import Tree = ImportTree

  /** An emitted node: whether it is a storey, its GlobalID, and its parent's index. */
  datatype Node = Node(storey: bool, gid: string, parent: Option<nat>)

  predicate Indexed(nodes: seq<Node>) {
    forall i :: 0 <= i < |nodes| && nodes[i].parent.Some? ==> nodes[i].parent.value < |nodes|
  }

  // ---------------------------------------------------------------- the walk

  /** The node `n` parents up, if the chain goes that far. */
  function Up(nodes: seq<Node>, i: nat, n: nat): (r: Option<nat>)
    requires Indexed(nodes) && i < |nodes|
    ensures r.Some? ==> r.value < |nodes|
    decreases n
  {
    if n == 0 then Some(i) else if nodes[i].parent.None? then None else Up(nodes, nodes[i].parent.value, n - 1)
  }

  predicate StoreyAt(nodes: seq<Node>, i: nat, n: nat)
    requires Indexed(nodes) && i < |nodes|
  {
    Up(nodes, i, n).Some? && nodes[Up(nodes, i, n).value].storey
  }

  /** The walk stops `n` parents up: at a storey or at a root. */
  predicate StopsAt(nodes: seq<Node>, i: nat, n: nat)
    requires Indexed(nodes) && i < |nodes|
  {
    Up(nodes, i, n).Some? && var j := Up(nodes, i, n).value; nodes[j].storey || nodes[j].parent.None?
  }

  ghost predicate Halts(nodes: seq<Node>, i: nat)
    requires Indexed(nodes) && i < |nodes|
  {
    exists n: nat :: StopsAt(nodes, i, n)
  }

  predicate Nearest(nodes: seq<Node>, i: nat, n: nat)
    requires Indexed(nodes) && i < |nodes|
  {
    StoreyAt(nodes, i, n) && forall m: nat :: m < n ==> !StoreyAt(nodes, i, m)
  }

  lemma {:induction false} UpNext(nodes: seq<Node>, i: nat, n: nat)
    requires Indexed(nodes) && i < |nodes|
    ensures Up(nodes, i, n + 1) == if Up(nodes, i, n).None? || nodes[Up(nodes, i, n).value].parent.None? then None else nodes[Up(nodes, i, n).value].parent
    decreases n
  {
    if n > 0 && nodes[i].parent.Some? { UpNext(nodes, nodes[i].parent.value, n - 1); }
  }

  /** The GlobalID of a node's nearest storey, itself included; empty when it has none. Only
      called where the walk ends. */
  method StoreyOf(nodes: seq<Node>, i: nat) returns (gid: string)
    requires Indexed(nodes) && i < |nodes| && Halts(nodes, i)
    ensures forall n: nat :: Nearest(nodes, i, n) ==> gid == nodes[Up(nodes, i, n).value].gid
    ensures (forall n: nat :: !StoreyAt(nodes, i, n)) ==> gid == ""
  {
    var j := i;
    ghost var end: nat :| StopsAt(nodes, i, end);
    ghost var n := 0;
    while true
      invariant n <= end && Up(nodes, i, n) == Some(j)
      invariant forall m: nat :: m < n ==> !StoreyAt(nodes, i, m)
      decreases end - n
    {
      if nodes[j].storey {
        assert StoreyAt(nodes, i, n);
        assert forall m: nat :: Nearest(nodes, i, m) ==> m == n;
        return nodes[j].gid;
      }
      if nodes[j].parent.None? {
        forall m: nat ensures !StoreyAt(nodes, i, m) { if m > n { PastRoot(nodes, i, n, m); } }
        return "";
      }
      UpNext(nodes, i, n);
      j := nodes[j].parent.value;
      n := n + 1;
    }
  }

  lemma {:induction false} PastRoot(nodes: seq<Node>, i: nat, n: nat, m: nat)
    requires Indexed(nodes) && i < |nodes| && n < m
    requires Up(nodes, i, n).Some? && nodes[Up(nodes, i, n).value].parent.None?
    ensures Up(nodes, i, m).None?
    decreases m
  {
    UpNext(nodes, i, m - 1);
    if m - 1 > n { PastRoot(nodes, i, n, m - 1); }
  }

  // ---------------------------------------------------------------- when the walk ends

  /** Two nodes that are each other's parent, neither a storey: the walk never ends. */
  lemma {:induction false} TwoCycleNeverHalts()
    ensures var nodes := [Node(false, "A", Some(1)), Node(false, "B", Some(0))];
      Indexed(nodes) && !Halts(nodes, 0)
  {
    var nodes := [Node(false, "A", Some(1)), Node(false, "B", Some(0))];
    forall n: nat ensures !StopsAt(nodes, 0, n) { TwoCycleGoesOn(nodes, 0, n); }
  }

  lemma {:induction false} TwoCycleGoesOn(nodes: seq<Node>, i: nat, n: nat)
    requires nodes == [Node(false, "A", Some(1)), Node(false, "B", Some(0))] && i < 2
    ensures Indexed(nodes) && Up(nodes, i, n).Some? && !StopsAt(nodes, i, n)
    decreases n
  {
    if n > 0 { TwoCycleGoesOn(nodes, 1 - i, n - 1); }
  }

  lemma {:induction false} UpUp(nodes: seq<Node>, i: nat, a: nat, b: nat)
    requires Indexed(nodes) && i < |nodes| && Up(nodes, i, a).Some?
    ensures Up(nodes, i, a + b) == Up(nodes, Up(nodes, i, a).value, b)
    decreases a
  {
    if a > 0 { UpUp(nodes, nodes[i].parent.value, a - 1, b); }
  }

  /** The first `n` nodes of a walk that has not stopped before. */
  function Trail(nodes: seq<Node>, i: nat, n: nat): (s: seq<nat>)
    requires Indexed(nodes) && i < |nodes| && forall m: nat :: m < n ==> Up(nodes, i, m).Some?
    ensures |s| == n
  {
    seq(n, m requires 0 <= m < n => Up(nodes, i, m).value)
  }

  lemma {:induction false} GoesOn(nodes: seq<Node>, i: nat, n: nat)
    requires Indexed(nodes) && i < |nodes| && forall m: nat :: m < n ==> !StopsAt(nodes, i, m)
    ensures Up(nodes, i, n).Some?
    decreases n
  {
    if n > 0 {
      GoesOn(nodes, i, n - 1);
      assert !StopsAt(nodes, i, n - 1);
      UpNext(nodes, i, n - 1);
    }
  }

  /** A walk that meets one node twice without stopping never stops. */
  lemma {:induction false} RoundNeverStops(nodes: seq<Node>, i: nat, a: nat, b: nat, n: nat)
    requires Indexed(nodes) && i < |nodes| && a < b && (forall m: nat :: m < b ==> !StopsAt(nodes, i, m))
    requires Up(nodes, i, a).Some? && Up(nodes, i, a) == Up(nodes, i, b)
    ensures !StopsAt(nodes, i, n)
    decreases n
  {
    if n >= b {
      var m := n - (b - a);
      RoundNeverStops(nodes, i, a, b, m);
      UpUp(nodes, i, a, n - b);
      UpUp(nodes, i, b, n - b);
      assert a + (n - b) == m && b + (n - b) == n;
    }
  }

  /** Exactly when the walk from a node ends, in terms a caller can check beforehand: a storey
      or a root is met within as many steps as there are nodes. */
  lemma {:induction false} HaltsIffSoon(nodes: seq<Node>, i: nat)
    requires Indexed(nodes) && i < |nodes|
    ensures Halts(nodes, i) <==> exists n: nat :: n < |nodes| && StopsAt(nodes, i, n)
  {
    if !(exists n: nat :: n < |nodes| && StopsAt(nodes, i, n)) {
      forall m: nat | m < |nodes| + 1 ensures Up(nodes, i, m).Some? { GoesOn(nodes, i, m); }
      var s := Trail(nodes, i, |nodes| + 1);
      forall v | v in s ensures v < |nodes| { var k :| 0 <= k < |s| && s[k] == v; }
      var a, b := Tree.Pigeonhole(s, Below(|nodes|));
      forall n: nat ensures !StopsAt(nodes, i, n) { RoundNeverStops(nodes, i, a, b, n); }
    }
  }

  /** The walk comes to one node twice, and to no storey before. */
  ghost predicate MeetsRound(nodes: seq<Node>, i: nat)
    requires Indexed(nodes) && i < |nodes|
  {
    exists a: nat, b: nat :: Round(nodes, i, a, b)
  }

  ghost predicate Round(nodes: seq<Node>, i: nat, a: nat, b: nat)
    requires Indexed(nodes) && i < |nodes|
  {
    && a < b && Up(nodes, i, a).Some? && Up(nodes, i, a) == Up(nodes, i, b)
    && forall m: nat :: m < b ==> !StoreyAt(nodes, i, m)
  }

  /** Up to a node the walk reaches, no root was passed. */
  lemma {:induction false} NoRootBefore(nodes: seq<Node>, i: nat, b: nat, m: nat)
    requires Indexed(nodes) && i < |nodes| && Up(nodes, i, b).Some? && m < b && !StoreyAt(nodes, i, m)
    ensures !StopsAt(nodes, i, m)
  {
    if StopsAt(nodes, i, m) { PastRoot(nodes, i, m, b); }
  }

  /** Exactly when the walk from a node ends, in the shape of the parents alone: unless it goes
      round, coming to one node twice with no storey on the way. */
  lemma {:induction false} HaltsIffNotRound(nodes: seq<Node>, i: nat)
    requires Indexed(nodes) && i < |nodes|
    ensures Halts(nodes, i) <==> !MeetsRound(nodes, i)
  {
    if a: nat, b: nat :| Round(nodes, i, a, b) {
      forall m: nat | m < b ensures !StopsAt(nodes, i, m) { NoRootBefore(nodes, i, b, m); }
      forall n: nat ensures !StopsAt(nodes, i, n) { RoundNeverStops(nodes, i, a, b, n); }
    }
    if !Halts(nodes, i) {
      forall m: nat | m < |nodes| + 1 ensures Up(nodes, i, m).Some? { GoesOn(nodes, i, m); }
      var s := Trail(nodes, i, |nodes| + 1);
      forall v | v in s ensures v < |nodes| { var k :| 0 <= k < |s| && s[k] == v; }
      var a, b := Tree.Pigeonhole(s, Below(|nodes|));
      forall m: nat ensures !StoreyAt(nodes, i, m) { assert !StopsAt(nodes, i, m); }
      assert Round(nodes, i, a, b);
    }
  }

  /** Where parents precede their children, every walk ends. */
  lemma {:induction false} ParentsFirstHalts(nodes: seq<Node>, i: nat)
    requires Indexed(nodes) && i < |nodes|
    requires forall j :: 0 <= j <= i && nodes[j].parent.Some? ==> nodes[j].parent.value < j
    ensures Halts(nodes, i)
    decreases i
  {
    if nodes[i].storey || nodes[i].parent.None? {
      assert StopsAt(nodes, i, 0);
    } else {
      var p := nodes[i].parent.value;
      ParentsFirstHalts(nodes, p);
      var n: nat :| StopsAt(nodes, p, n);
      assert StopsAt(nodes, i, n + 1);
    }
  }

  /** In the rooted part of the import order every walk ends: with no parent cycle, all do. */
  lemma {:induction false} RootedHalts(ordered: seq<nat>, b: nat, parent: map<nat, nat>, ids: set<nat>, index: seq<Option<nat>>, nodes: seq<Node>, i: nat)
    requires NoRepeats(ordered) && b <= |ordered| == |index| == |nodes| && Tree.ParentsFirst(parent, ids, ordered[..b]) && i < b
    requires forall j :: 0 <= j < |ordered| ==> Tree.IndexOk(ordered, parent, ids, j, index[j]) && nodes[j].parent == index[j]
    requires Indexed(nodes)
    ensures Halts(nodes, i)
  {
    forall j | 0 <= j <= i && nodes[j].parent.Some? ensures nodes[j].parent.value < j {
      Tree.IndexDecreases(ordered, b, parent, ids, index, j);
    }
    ParentsFirstHalts(nodes, i);
  }

  // ---------------------------------------------------------------- floors and bands

  /** A node's nearest storey, by GlobalID; empty when it has none. */
  ghost function StoreyName(nodes: seq<Node>, i: nat): string
    requires Indexed(nodes) && i < |nodes|
  {
    if exists n: nat :: Nearest(nodes, i, n) then
      var n: nat :| Nearest(nodes, i, n); nodes[Up(nodes, i, n).value].gid
    else ""
  }

  lemma {:induction false} SomeNearest(nodes: seq<Node>, i: nat, n: nat) returns (m: nat)
    requires Indexed(nodes) && i < |nodes| && StoreyAt(nodes, i, n)
    ensures m <= n && Nearest(nodes, i, m)
    decreases n
  {
    if k: nat :| k < n && StoreyAt(nodes, i, k) { m := SomeNearest(nodes, i, k); } else { m := n; }
  }

  lemma {:induction false} NameIs(nodes: seq<Node>, i: nat, gid: string)
    requires Indexed(nodes) && i < |nodes|
    requires forall n: nat :: Nearest(nodes, i, n) ==> gid == nodes[Up(nodes, i, n).value].gid
    requires (forall n: nat :: !StoreyAt(nodes, i, n)) ==> gid == ""
    ensures gid == StoreyName(nodes, i)
  {
    if n: nat :| StoreyAt(nodes, i, n) {
      var m := SomeNearest(nodes, i, n);
    }
  }

  /** Node `i` has a mesh and stands on the storey. */
  ghost predicate Stands(nodes: seq<Node>, lows: seq<Option<real>>, gid: string, i: nat)
    requires Indexed(nodes) && |lows| == |nodes|
  {
    i < |nodes| && lows[i].Some? && gid != "" && StoreyName(nodes, i) == gid
  }

  /** Each storey some meshed node stands on, at the lowest such node's height. */
  ghost predicate Seeded(nodes: seq<Node>, lows: seq<Option<real>>, n: nat, floors: map<string, real>)
    requires Indexed(nodes) && |lows| == |nodes|
  {
    && (forall gid <- floors :: exists i: nat :: i < n && Stands(nodes, lows, gid, i) && floors[gid] == lows[i].value)
    && (forall gid, i: nat :: i < n && Stands(nodes, lows, gid, i) ==> gid in floors && floors[gid] <= lows[i].value)
  }

  lemma {:induction false} SeedSkips(nodes: seq<Node>, lows: seq<Option<real>>, n: nat, floors: map<string, real>)
    requires Indexed(nodes) && |lows| == |nodes| && n < |nodes| && Seeded(nodes, lows, n, floors)
    requires lows[n].None? || StoreyName(nodes, n) == ""
    ensures Seeded(nodes, lows, n + 1, floors)
  {
    hide StoreyName;
    forall gid | gid in floors ensures exists i: nat :: i < n + 1 && Stands(nodes, lows, gid, i) && floors[gid] == lows[i].value {
      var i: nat :| i < n && Stands(nodes, lows, gid, i) && floors[gid] == lows[i].value;
      assert i < n + 1;
    }
  }

  lemma {:induction false} SeedAdds(nodes: seq<Node>, lows: seq<Option<real>>, n: nat, floors: map<string, real>)
    requires Indexed(nodes) && |lows| == |nodes| && n < |nodes| && Seeded(nodes, lows, n, floors)
    requires lows[n].Some? && StoreyName(nodes, n) != ""
    ensures var gid := StoreyName(nodes, n); var z := lows[n].value;
      Seeded(nodes, lows, n + 1, if gid !in floors || z < floors[gid] then floors[gid := z] else floors)
  {
    var name, z := StoreyName(nodes, n), lows[n].value;
    hide StoreyName;
    var now := if name !in floors || z < floors[name] then floors[name := z] else floors;
    assert Stands(nodes, lows, name, n);
    forall gid | gid in now ensures exists i: nat :: i < n + 1 && Stands(nodes, lows, gid, i) && now[gid] == lows[i].value {
      if gid in floors && now[gid] == floors[gid] {
        var i: nat :| i < n && Stands(nodes, lows, gid, i) && floors[gid] == lows[i].value;
        assert i < n + 1;
      } else {
        assert gid == name && n < n + 1;
      }
    }
  }

  /** Seeds every storey's floor from the meshed nodes standing on it. */
  method SeedFloors(nodes: seq<Node>, lows: seq<Option<real>>) returns (floors: map<string, real>)
    requires Indexed(nodes) && |lows| == |nodes|
    requires forall i :: 0 <= i < |nodes| && lows[i].Some? ==> Halts(nodes, i)
    ensures Seeded(nodes, lows, |nodes|, floors)
  {
    hide Seeded, StoreyName, Halts;
    floors := map[];
    NothingSeeded(nodes, lows);
    for i := 0 to |nodes|
      invariant Seeded(nodes, lows, i, floors)
    {
      if lows[i].None? {
        SeedSkips(nodes, lows, i, floors);
        continue;
      }
      var gid := StoreyOf(nodes, i);
      NameIs(nodes, i, gid);
      if gid == "" {
        SeedSkips(nodes, lows, i, floors);
        continue;
      }
      SeedAdds(nodes, lows, i, floors);
      if gid !in floors || lows[i].value < floors[gid] {
        floors := floors[gid := lows[i].value];
      }
    }
  }

  lemma {:induction false} NothingSeeded(nodes: seq<Node>, lows: seq<Option<real>>)
    requires Indexed(nodes) && |lows| == |nodes|
    ensures Seeded(nodes, lows, 0, map[])
  {
  }

  /** A storey's cut height and the height its band ends at, if any. */
  datatype Band = Band(gid: string, floor: real, cut: real, top: Option<real>)

  const CUT_OFFSET: real := 1.2

  predicate TextLess(a: string, b: string) {
    if a == [] then b != []
    else if b == [] then false
    else if a[0] != b[0] then a[0] < b[0]
    else TextLess(a[1..], b[1..])
  }

  lemma {:induction false} TextCompare(a: string, b: string)
    ensures a != b ==> TextLess(a, b) || TextLess(b, a)
    ensures !(TextLess(a, b) && TextLess(b, a))
  {
    if a != [] && b != [] && a[0] == b[0] {
      TextCompare(a[1..], b[1..]);
      assert a == [a[0]] + a[1..] && b == [b[0]] + b[1..];
    }
  }

  lemma {:induction false} TextChain(a: string, b: string, c: string)
    requires TextLess(a, b) && TextLess(b, c)
    ensures TextLess(a, c)
  {
    if a != [] && a[0] == b[0] == c[0] { TextChain(a[1..], b[1..], c[1..]); }
  }

  type Floor = (string, real)

  predicate FloorLess(a: Floor, b: Floor) { if a.1 != b.1 then a.1 < b.1 else TextLess(a.0, b.0) }

  predicate FloorLe(a: Floor, b: Floor) { !FloorLess(b, a) }

  lemma {:induction false} FloorOrder(fs: seq<Floor>)
    ensures TotalOrder(FloorLe) && Strict(fs, FloorLe)
  {
    forall a: Floor, b: Floor ensures FloorLe(a, b) || FloorLe(b, a) { TextCompare(a.0, b.0); }
    forall a: Floor, b: Floor, c: Floor | FloorLe(a, b) && FloorLe(b, c) ensures FloorLe(a, c) {
      TextCompare(a.0, b.0);
      TextCompare(b.0, c.0);
      TextCompare(a.0, c.0);
      if TextLess(a.0, b.0) && TextLess(b.0, c.0) { TextChain(a.0, b.0, c.0); }
    }
    forall a, b | a in fs && b in fs && FloorLe(a, b) && FloorLe(b, a) ensures a == b { TextCompare(a.0, b.0); }
  }

  /** The bands of some floors, bottom up: each ends where the next begins, the last nowhere. */
  ghost predicate BandsOf(floors: map<string, real>, bands: seq<Band>) {
    exists fs: seq<Floor> :: multiset(fs) == multiset(floors.Items) && Sorted(fs, FloorLe) && bands == Stacked(fs)
  }

  function Stacked(fs: seq<Floor>): (bands: seq<Band>)
    ensures |bands| == |fs|
  {
    seq(|fs|, i requires 0 <= i < |fs| => Band(fs[i].0, fs[i].1, fs[i].1 + CUT_OFFSET, if i + 1 < |fs| then Some(fs[i + 1].1) else None))
  }

  /** The floors, in arbitrary order. */
  method Gather(floors: map<string, real>) returns (fs: seq<Floor>)
    ensures multiset(fs) == multiset(floors.Items)
  {
    fs := [];
    var left := floors.Items;
    while left != {}
      invariant left <= floors.Items && multiset(fs) == multiset(floors.Items - left)
      decreases |left|
    {
      var f :| f in left;
      assert floors.Items - (left - {f}) == floors.Items - left + {f};
      fs := fs + [f];
      left := left - {f};
    }
    assert floors.Items - left == floors.Items;
  }

  method BuildBands(floors: map<string, real>) returns (bands: seq<Band>)
    ensures BandsOf(floors, bands)
  {
    hide FloorLe, Sorted, TotalOrder, Strict;
    var fs := Gather(floors);
    FloorOrder(fs);
    fs := Sort(fs, FloorLe);
    bands := [];
    for i := 0 to |fs|
      invariant |bands| == i && forall j :: 0 <= j < i ==> bands[j] == Stacked(fs)[j]
    {
      bands := bands + [Band(fs[i].0, fs[i].1, fs[i].1 + CUT_OFFSET, if i < |fs| - 1 then Some(fs[i + 1].1) else None)];
    }
    assert bands == Stacked(fs);
  }

  /** The bands do not depend on the order the floors are taken in. */
  lemma {:induction false} BandsUnique(floors: map<string, real>, a: seq<Band>, b: seq<Band>)
    requires BandsOf(floors, a) && BandsOf(floors, b)
    ensures a == b
  {
    var fa: seq<Floor> :| multiset(fa) == multiset(floors.Items) && Sorted(fa, FloorLe) && a == Stacked(fa);
    var fb: seq<Floor> :| multiset(fb) == multiset(floors.Items) && Sorted(fb, FloorLe) && b == Stacked(fb);
    FloorOrder(fa);
    SortedUnique(fa, fb, FloorLe);
  }

  /** A band a storey: from its floor to the floor of the next, cut 1.2 above the floor. */
  lemma {:induction false} BandsExact(floors: map<string, real>, bands: seq<Band>)
    requires BandsOf(floors, bands)
    ensures forall gid :: gid in floors <==> exists i :: 0 <= i < |bands| && bands[i].gid == gid
    ensures forall i :: 0 <= i < |bands| ==> bands[i].gid in floors && bands[i].floor == floors[bands[i].gid] && bands[i].cut == bands[i].floor + 1.2
    ensures forall i, j :: 0 <= i && i + 1 == j < |bands| ==> bands[i].top == Some(bands[j].floor) && bands[i].floor <= bands[j].floor
    ensures bands != [] ==> bands[|bands| - 1].top.None?
  {
    var fs: seq<Floor> :| multiset(fs) == multiset(floors.Items) && Sorted(fs, FloorLe) && bands == Stacked(fs);
    hide TextLess, Sorted, FloorLe, Stacked;
    Ascends(fs);
    FloorsListed(floors, fs);
    StackedFloors(fs);
    BandsListed(floors, fs, bands);
  }

  lemma {:induction false} StackedAt(fs: seq<Floor>, i: nat)
    requires i < |fs|
    ensures Stacked(fs)[i] == Band(fs[i].0, fs[i].1, fs[i].1 + 1.2, if i + 1 < |fs| then Some(fs[i + 1].1) else None)
  {
  }

  lemma {:induction false} StackedFloors(fs: seq<Floor>)
    ensures var bands := Stacked(fs);
      && (forall i :: 0 <= i < |bands| ==> bands[i].gid == fs[i].0 && bands[i].floor == fs[i].1 && bands[i].cut == fs[i].1 + 1.2)
      && (forall i, j :: 0 <= i && i + 1 == j < |bands| ==> bands[i].top == Some(bands[j].floor))
      && (bands != [] ==> bands[|bands| - 1].top.None?)
  {
    hide Stacked;
    var bands := Stacked(fs);
    forall i | 0 <= i < |bands| ensures bands[i].gid == fs[i].0 && bands[i].floor == fs[i].1 && bands[i].cut == fs[i].1 + 1.2 { StackedAt(fs, i); }
    forall i, j | 0 <= i && i + 1 == j < |bands| ensures bands[i].top == Some(bands[j].floor) {
      StackedAt(fs, i);
      StackedAt(fs, j);
    }
    if bands != [] { StackedAt(fs, |bands| - 1); }
  }

  lemma {:induction false} BandsListed(floors: map<string, real>, fs: seq<Floor>, bands: seq<Band>)
    requires forall f: Floor :: f in fs <==> f.0 in floors && floors[f.0] == f.1
    requires |bands| == |fs| && forall i :: 0 <= i < |bands| ==> bands[i].gid == fs[i].0 && bands[i].floor == fs[i].1
    ensures forall gid :: gid in floors <==> exists i :: 0 <= i < |bands| && bands[i].gid == gid
    ensures forall i :: 0 <= i < |bands| ==> bands[i].gid in floors && bands[i].floor == floors[bands[i].gid]
  {
    forall i | 0 <= i < |bands| ensures bands[i].gid in floors && bands[i].floor == floors[bands[i].gid] { assert fs[i] in fs; }
    forall gid | gid in floors ensures exists i :: 0 <= i < |bands| && bands[i].gid == gid {
      var f: Floor := (gid, floors[gid]);
      assert f in fs;
      var i :| 0 <= i < |fs| && fs[i] == f;
      assert bands[i].gid == gid;
    }
  }

  lemma {:induction false} FloorsListed(floors: map<string, real>, fs: seq<Floor>)
    requires multiset(fs) == multiset(floors.Items)
    ensures forall f: Floor :: f in fs <==> f.0 in floors && floors[f.0] == f.1
  {
    forall f: Floor ensures f in fs <==> f.0 in floors && floors[f.0] == f.1 {
      assert f in fs <==> f in multiset(fs);
      assert f in floors.Items <==> f in multiset(floors.Items);
    }
  }

  predicate InBand(b: Band, z: real) { b.floor <= z && (b.top.Some? ==> z < b.top.value) }

  /** Every height from the lowest floor up lies in exactly one storey's band. */
  lemma {:induction false} OneBand(floors: map<string, real>, bands: seq<Band>, z: real)
    requires BandsOf(floors, bands) && bands != [] && bands[0].floor <= z
    ensures exists i :: 0 <= i < |bands| && InBand(bands[i], z)
    ensures forall i, j :: 0 <= i < j < |bands| ==> !(InBand(bands[i], z) && InBand(bands[j], z))
  {
    var fs: seq<Floor> :| multiset(fs) == multiset(floors.Items) && Sorted(fs, FloorLe) && bands == Stacked(fs);
    hide TextLess, Sorted, FloorLe;
    Ascends(fs);
    OneStretch(fs, z);
  }

  lemma {:induction false} OneStretch(fs: seq<Floor>, z: real)
    requires (forall i, j :: 0 <= i < j < |fs| ==> fs[i].1 <= fs[j].1) && fs != [] && fs[0].1 <= z
    ensures exists i :: 0 <= i < |fs| && InBand(Stacked(fs)[i], z)
    ensures forall i, j :: 0 <= i < j < |fs| ==> !(InBand(Stacked(fs)[i], z) && InBand(Stacked(fs)[j], z))
  {
    var bands := Stacked(fs);
    var i := LastBelow(fs, z, |fs|);
    assert InBand(bands[i], z);
    forall i, j | 0 <= i < j < |fs| ensures !(InBand(bands[i], z) && InBand(bands[j], z)) {
      assert fs[i + 1].1 <= fs[j].1;
    }
  }

  lemma {:induction false} Ascends(fs: seq<Floor>)
    requires Sorted(fs, FloorLe)
    ensures forall i, j :: 0 <= i < j < |fs| ==> fs[i].1 <= fs[j].1
  {
    hide TextLess;
    forall i, j | 0 <= i < j < |fs| ensures fs[i].1 <= fs[j].1 { assert FloorLe(fs[i], fs[j]); }
  }

  lemma {:induction false} LastBelow(fs: seq<Floor>, z: real, n: nat) returns (i: nat)
    requires 0 < n <= |fs| && fs[0].1 <= z
    ensures i < n && fs[i].1 <= z && (i + 1 < n ==> z < fs[i + 1].1)
  {
    if fs[n - 1].1 <= z { i := n - 1; } else { i := LastBelow(fs, z, n - 1); }
  }
}
