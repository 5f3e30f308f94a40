// What a cell's mesh shows, told without cells, caches or meshes under way: each distinct item
// of the cell draws a surface on what is left of the budget, and the mesh is those surfaces
// laid side by side.
module GeoDrawing {
  import opened Common
  import opened GeoMeshing
  import Solid = GeoSolid
  import Laws = GeoMeshLaws

  /** What one item draws, and the budget it leaves. */
  datatype Drawn = Drawn(surf: Surface, shipped: bool, partial: bool, over: bool, boxed: bool, src: Source, left: int)

  function Blank(left: int): Drawn { Drawn(([], []), false, false, left < 0, false, SourceObb, left) }

  function Enlarged(vs: seq<V3>, s: real): (r: seq<V3>)
    ensures |r| == |vs|
  {
    seq(|vs|, i requires 0 <= i < |vs| => Solid.V3(vs[i].x * s, vs[i].y * s, vs[i].z * s))
  }

  function Moved(vs: seq<V3>, place: V3 -> V3): (r: seq<V3>)
    ensures |r| == |vs|
  {
    seq(|vs|, i requires 0 <= i < |vs| => place(vs[i]))
  }

  // ---------------------------------------------------------------- side by side

  /** Surfaces side by side: their vertices one after the other, each triangle still on its
      own surface's. */
  function Joined(ss: seq<Surface>): Surface {
    if ss == [] then ([], [])
    else
      var front, last := Joined(ss[..|ss| - 1]), ss[|ss| - 1];
      (front.0 + last.0, front.1 + seq(|last.1|, i requires 0 <= i < |last.1| => |front.0| + last.1[i]))
  }

  predicate OwnVertices(s: Surface) { forall k :: 0 <= k < |s.1| ==> s.1[k] < |s.0| }

  /** The points a surface's triangles have for corners, in order. */
  function Corners(s: Surface): (r: seq<V3>)
    requires OwnVertices(s)
    ensures |r| == |s.1|
  {
    seq(|s.1|, k requires 0 <= k < |s.1| => s.0[s.1[k]])
  }

  function AllCorners(ss: seq<Surface>): seq<V3>
    requires forall s <- ss :: OwnVertices(s)
  {
    if ss == [] then [] else AllCorners(ss[..|ss| - 1]) + Corners(ss[|ss| - 1])
  }

  /** Side by side, the surfaces keep the corner points they have. */
  lemma {:induction false} CornersJoined(ss: seq<Surface>)
    requires forall s <- ss :: OwnVertices(s)
    ensures OwnVertices(Joined(ss)) && Corners(Joined(ss)) == AllCorners(ss)
  {
    if ss != [] {
      var front, last := Joined(ss[..|ss| - 1]), ss[|ss| - 1];
      assert last in ss;
      CornersJoined(ss[..|ss| - 1]);
      var all := Joined(ss);
      forall k | 0 <= k < |all.1| ensures all.1[k] < |all.0| && all.0[all.1[k]] == AllCorners(ss)[k] {
        if k >= |front.1| {
          assert all.1[k] == |front.0| + last.1[k - |front.1|];
          assert Corners(last)[k - |front.1|] == last.0[last.1[k - |front.1|]];
        } else {
          assert all.1[k] == front.1[k] && Corners(front)[k] == front.0[front.1[k]];
        }
      }
    }
  }

  // ---------------------------------------------------------------- drawing

  /** A list's members, each where it stands first. */
  function Firsts(items: seq<nat>): (r: seq<nat>)
    ensures forall i :: i in r <==> i in items
  {
    if items == [] then []
    else
      var front, last := items[..|items| - 1], items[|items| - 1];
      assert items == front + [last];
      if last in front then Firsts(front) else Firsts(front) + [last]
  }

  function LeftAfter(parts: seq<Drawn>, left: int): int { if parts == [] then left else parts[|parts| - 1].left }

  /** The surfaces that have any vertex. */
  function Surfaces(parts: seq<Drawn>): seq<Surface> {
    if parts == [] then []
    else
      var front, last := Surfaces(parts[..|parts| - 1]), parts[|parts| - 1].surf;
      if last.0 == [] then front else front + [last]
  }

  predicate SomeFrom(parts: seq<Drawn>, src: Source) { exists d <- parts :: d.surf.0 != [] && d.src == src }

  /** Something was lost on the way: a part is itself partial, or drew nothing it should have. */
  predicate SomeLost(parts: seq<Drawn>) { exists d <- parts :: d.partial || (d.surf.0 == [] && !d.shipped) }

  predicate SomeOver(parts: seq<Drawn>) { exists d <- parts :: d.over }

  predicate SomeBoxed(parts: seq<Drawn>) { exists d <- parts :: d.surf.0 != [] && (d.boxed || d.src.SourceObb?) }

  /** The most faithful source of what was drawn. */
  function BestSource(parts: seq<Drawn>): Source {
    if SomeFrom(parts, SourceExtrude) then SourceExtrude else if SomeFrom(parts, SourceBrep) then SourceBrep else SourceObb
  }

  /** An item's fallback box: what its walk makes of its point lists, scaled. */
  function BoxOf(sc: Scene, item: nat, scale: real): Bounds
    requires item < |sc.items| && ListsKnown(sc, sc.items[item].lists)
  {
    var it := sc.items[item];
    var b := it.hull(BoundsOf(sc, it.lists));
    Bounds(Solid.V3(b.lo.x * scale, b.lo.y * scale, b.lo.z * scale), Solid.V3(b.hi.x * scale, b.hi.y * scale, b.hi.z * scale), b.ok)
  }

  function BoundsOf(sc: Scene, lists: seq<nat>): (r: seq<Bounds>)
    requires ListsKnown(sc, lists)
    ensures |r| == |lists|
  {
    seq(|lists|, k requires 0 <= k < |lists| => sc.lists[lists[k]])
  }

  predicate ListsKnown(sc: Scene, lists: seq<nat>) { forall k :: 0 <= k < |lists| ==> lists[k] < |sc.lists| }

  function DrawBox(sc: Scene, item: nat, scale: real, left: int): Drawn {
    if item < |sc.items| && ListsKnown(sc, sc.items[item].lists) && BoxOf(sc, item, scale).ok then
      var s := sc.boxMesh(BoxOf(sc, item, scale));
      Blank(left).(surf := s, shipped := s.1 != [])
    else Blank(left)
  }

  /** What an item draws on a budget: its reader's surface, its mapped shape placed, or its
      first operand cut, and failing that its box. */
  function DrawItem(sc: Scene, item: nat, scale: real, depth: nat, left: int): Drawn
    decreases if depth < MAX_MAP_DEPTH then MAX_MAP_DEPTH - depth else 0, 0
  {
    if item >= |sc.items| then Blank(left).(over := false)
    else
      match sc.items[item].shape
      case SolidItem(src, charge, read) =>
        var rest := left - charge(left);
        (match read(left)
         case Some(s) => Drawn((Enlarged(s.0, scale), s.1), true, false, false, false, src, rest)
         case None => DrawBox(sc, item, scale, rest))
      case MappedItem(rep, place) =>
        if depth >= MAX_MAP_DEPTH || left < 0 || rep.None? then Blank(left)
        else
          var parts := DrawAll(sc, Firsts(RepItems(sc, rep.value)), scale, depth + 1, SHARE);
          var whole := Joined(Surfaces(parts));
          var rest := left - (SHARE - LeftAfter(parts, SHARE));
          if whole.1 == [] then Blank(rest).(over := SomeOver(parts) || rest < 0)
          else Drawn((Moved(whole.0, place(scale)), whole.1), true, SomeLost(parts), SomeOver(parts) || rest < 0, SomeBoxed(parts), BestSource(parts), rest)
      case ClippedItem(first, cut) =>
        if depth >= MAX_MAP_DEPTH || first.None? then DrawBox(sc, item, scale, left)
        else
          var d := DrawItem(sc, first.value, 1.0, depth + 1, left);
          if d.surf.0 == [] || d.surf.1 == [] then DrawBox(sc, item, scale, d.left)
          else
            var rest := d.left - |d.surf.1|;
            match if rest < 0 then None else cut(d.surf)
            case None => DrawBox(sc, item, scale, rest)
            case Some(s) => if s.1 == [] then DrawBox(sc, item, scale, rest) else d.(surf := (Enlarged(s.0, scale), s.1), left := rest)
  }

  function RepItems(sc: Scene, rep: nat): seq<nat> {
    if rep < |sc.reps| && sc.reps[rep].Some? then sc.reps[rep].value else []
  }

  /** What each of a list of items draws, in turn, on one budget. */
  function DrawAll(sc: Scene, items: seq<nat>, scale: real, depth: nat, left: int): (parts: seq<Drawn>)
    ensures |parts| == |items|
    decreases if depth < MAX_MAP_DEPTH then MAX_MAP_DEPTH - depth else 0, 1 + |items|
  {
    if items == [] then []
    else
      var front := DrawAll(sc, items[..|items| - 1], scale, depth, left);
      front + [DrawItem(sc, items[|items| - 1], scale, depth, LeftAfter(front, left))]
  }

  // ---------------------------------------------------------------- the mesh is the drawing

  /** An item's mesh is what it draws. */
  predicate Agrees(m: Mesh, left: int, d: Drawn) {
    && (m.verts, m.tris) == d.surf && m.ok == d.shipped && m.partial == d.partial
    && m.overBudget == d.over && m.boxed == d.boxed && m.src == d.src && left == d.left
  }

  /** A union's mesh, still open, is what its parts draw. */
  predicate Sums(m: Mesh, parts: seq<Drawn>) {
    && (m.verts, m.tris) == Joined(Surfaces(parts))
    && m.partial == SomeLost(parts) && m.overBudget == SomeOver(parts) && m.boxed == SomeBoxed(parts) && m.src == BestSource(parts)
  }

  /** A finished mesh is what its parts draw; with no triangle it is empty, not partial. */
  predicate Shows(m: Mesh, parts: seq<Drawn>) {
    && (m.verts, m.tris) == Joined(Surfaces(parts)) && m.ok == (m.tris != [])
    && m.partial == (SomeLost(parts) && m.tris != [])
    && m.overBudget == SomeOver(parts) && m.boxed == SomeBoxed(parts) && m.src == BestSource(parts)
  }

  lemma {:induction false} FlagsMore(parts: seq<Drawn>, d: Drawn)
    ensures var more := parts + [d];
      && SomeLost(more) == (SomeLost(parts) || d.partial || (d.surf.0 == [] && !d.shipped))
      && SomeOver(more) == (SomeOver(parts) || d.over)
      && SomeBoxed(more) == (SomeBoxed(parts) || (d.surf.0 != [] && (d.boxed || d.src.SourceObb?)))
  {
    var more := parts + [d];
    assert d in more && forall x <- parts :: x in more;
    assert forall x <- more :: x in parts || x == d;
  }

  lemma {:induction false} FromMore(parts: seq<Drawn>, d: Drawn, src: Source)
    ensures SomeFrom(parts + [d], src) == (SomeFrom(parts, src) || (d.surf.0 != [] && d.src == src))
  {
    var more := parts + [d];
    assert d in more && forall x <- parts :: x in more;
    assert forall x <- more :: x in parts || x == d;
  }

  lemma {:induction false} SourceMore(parts: seq<Drawn>, d: Drawn)
    ensures BestSource(parts + [d]) == if d.surf.0 == [] then BestSource(parts) else Promote(BestSource(parts), d.src)
  {
    FromMore(parts, d, SourceExtrude);
    FromMore(parts, d, SourceBrep);
    hide SomeFrom;
  }

  lemma {:induction false} SurfacesMore(parts: seq<Drawn>, d: Drawn)
    ensures Surfaces(parts + [d]) == if d.surf.0 == [] then Surfaces(parts) else Surfaces(parts) + [d.surf]
  {
    assert (parts + [d])[..|parts|] == parts;
  }

  lemma {:induction false} JoinedMore(ss: seq<Surface>, s: Surface)
    ensures var j := Joined(ss); Joined(ss + [s]) == (j.0 + s.0, j.1 + Offset(s.1, |j.0|))
  {
    var j := Joined(ss);
    assert (ss + [s])[..|ss|] == ss;
    assert Joined(ss + [s]).1 == j.1 + Offset(s.1, |j.0|);
  }

  /** With no vertex there is no triangle. */
  lemma {:induction false} NoneJoined(parts: seq<Drawn>)
    ensures Joined(Surfaces(parts)).0 == [] ==> Surfaces(parts) == []
  {
    if parts != [] {
      var ss := Surfaces(parts);
      NoneJoined(parts[..|parts| - 1]);
      if parts[|parts| - 1].surf.0 != [] {
        var front, last := Surfaces(parts[..|parts| - 1]), parts[|parts| - 1].surf;
        JoinedMore(front, last);
        assert ss == front + [last] && |Joined(ss).0| == |Joined(front).0| + |last.0|;
      }
    }
  }

  /** Adding an item's mesh to a union adds what it draws. */
  lemma {:induction false} AddSums(u: Mesh, parts: seq<Drawn>, m: Mesh, left: int, d: Drawn)
    requires Sums(u, parts) && Agrees(m, left, d)
    ensures Sums(Add(u, m), parts + [d])
  {
    FlagsMore(parts, d);
    SourceMore(parts, d);
    SurfacesMore(parts, d);
    JoinedMore(Surfaces(parts), d.surf);
    NoneJoined(parts);
    hide SomeLost, SomeOver, SomeBoxed, BestSource, Surfaces, Promote, Joined;
    if u.verts == [] {
      assert Offset(m.tris, 0) == m.tris;
      NoSurface();
    }
    var w, s := Add(u, m), Joined(Surfaces(parts + [d]));
    assert w.verts == s.0;
    assert w.tris == s.1;
  }

  lemma {:induction false} NoSurface()
    ensures Joined([]) == ([], [])
  {
  }

  // ---------------------------------------------------------------- items

  lemma {:induction false} ListsRead(sc: Scene, lo: nat, lists: seq<nat>)
    requires lo < TOP_RANK && ListsKnown(sc, lists)
    ensures ReadLists(Later(sc, lo), lists) == Got(BoundsOf(sc, lists))
  {
    if lists == [] {
      assert BoundsOf(sc, lists) == [];
    } else {
      var n := |lists| - 1;
      ListsRead(sc, lo, lists[..n]);
      assert Later(sc, lo)(ListKey(lists[n])) == Got(Uncached(sc, ListKey(lists[n])));
      ListCell(sc, lists[n]);
      assert BoundsOf(sc, lists) == BoundsOf(sc, lists[..n]) + [sc.lists[lists[n]]];
      hide Uncached, Later, BoundsOf;
    }
  }

  lemma {:induction false} ListCell(sc: Scene, l: nat)
    requires l < |sc.lists|
    ensures Uncached(sc, ListKey(l)) == BoxVal(sc.lists[l])
  {
  }

  lemma {:induction false} BoxCell(sc: Scene, item: nat, scale: real)
    requires item < |sc.items| && ListsKnown(sc, sc.items[item].lists)
    ensures Uncached(sc, BoxKey(item, scale)) == BoxVal(BoxOf(sc, item, scale))
  {
    ListsRead(sc, MAX_MAP_DEPTH + 1, sc.items[item].lists);
    hide Later, ReadLists;
  }

  lemma {:induction false} BoxDrawn(sc: Scene, lo: nat, item: nat, scale: real, p: Purse)
    requires lo <= MAX_MAP_DEPTH && item < |sc.items| && ListsKnown(sc, sc.items[item].lists)
    ensures match Boxed(sc, Later(sc, lo), item, scale, p)
      case Need(_) => false
      case Got((m, q)) => q == p && Agrees(m, q.left, DrawBox(sc, item, scale, p.left))
  {
    BoxCell(sc, item, scale);
    assert Later(sc, lo)(BoxKey(item, scale)) == Got(Uncached(sc, BoxKey(item, scale)));
    hide Uncached, Later, BoxOf;
  }

  /** What a purse counts as left. */
  ghost predicate ItemDrawn(sc: Scene, lo: nat, item: nat, scale: real, depth: nat, p: Purse)
    requires lo <= TOP_RANK
  {
    match Tessellate(sc, Later(sc, lo), item, scale, depth, p)
    case Need(_) => false
    case Got((m, q)) => Agrees(m, q.left, DrawItem(sc, item, scale, depth, p.left))
  }

  /** One item's mesh, with all later cells computed on the spot, is what it draws. */
  lemma {:induction false} DrawnItem(sc: Scene, lo: nat, item: nat, scale: real, depth: nat, p: Purse)
    requires Sound(sc) && lo <= MAX_MAP_DEPTH && lo <= depth
    ensures ItemDrawn(sc, lo, item, scale, depth, p)
    decreases if depth < MAX_MAP_DEPTH then MAX_MAP_DEPTH - depth else 0, 1, 0
  {
    if item < |sc.items| {
      assert ItemKnown(sc, sc.items[item]);
      match sc.items[item].shape {
        case SolidItem(src, charge, read) => SolidDrawn(sc, lo, item, scale, depth, p);
        case MappedItem(rep, place) =>
          if depth < MAX_MAP_DEPTH && rep.Some? { DrawnShape(sc, rep.value, scale, depth); }
          MappedDrawn(sc, lo, item, scale, depth, p);
        case ClippedItem(first, cut) =>
          if depth < MAX_MAP_DEPTH && first.Some? { DrawnItem(sc, lo, first.value, 1.0, depth + 1, p); }
          ClippedDrawn(sc, lo, item, scale, depth, p);
      }
    }
  }

  lemma {:induction false} SolidDrawn(sc: Scene, lo: nat, item: nat, scale: real, depth: nat, p: Purse)
    requires lo <= MAX_MAP_DEPTH && item < |sc.items| && ItemKnown(sc, sc.items[item]) && sc.items[item].shape.SolidItem?
    ensures ItemDrawn(sc, lo, item, scale, depth, p)
  {
    var shape := sc.items[item].shape;
    BoxDrawn(sc, lo, item, scale, Charge(p, shape.charge(p.left)));
    hide Later, Boxed, DrawBox;
    if shape.read(p.left).Some? {
      var vs := shape.read(p.left).value.0;
      assert ScaleVerts(vs, scale) == Enlarged(vs, scale);
    }
  }

  /** A mapped shape's own cell. */
  ghost predicate ShapeDrawn(sc: Scene, rep: nat, scale: real, depth: nat) {
    var parts := DrawAll(sc, Firsts(RepItems(sc, rep)), scale, depth + 1, SHARE);
    match Uncached(sc, ShapeKey(rep, scale, depth))
    case MeshVal(m, _, _) => Shows(m, parts) && m.cost == SHARE - LeftAfter(parts, SHARE)
    case BoxVal(_) => false
  }

  lemma {:induction false} MappedDrawn(sc: Scene, lo: nat, item: nat, scale: real, depth: nat, p: Purse)
    requires lo <= MAX_MAP_DEPTH && lo <= depth && item < |sc.items| && sc.items[item].shape.MappedItem?
    requires var rep := sc.items[item].shape.rep; depth < MAX_MAP_DEPTH && rep.Some? ==> ShapeDrawn(sc, rep.value, scale, depth)
    ensures ItemDrawn(sc, lo, item, scale, depth, p)
  {
    hide Uncached, DrawAll, Joined, Surfaces, SomeLost, SomeOver, SomeBoxed, BestSource, Shows, PlaceVerts, Moved, Charge;
    var rep, place := sc.items[item].shape.rep, sc.items[item].shape.place;
    if depth < MAX_MAP_DEPTH && p.left >= 0 && rep.Some? {
      var k := ShapeKey(rep.value, scale, depth);
      assert Later(sc, lo)(k) == Got(Uncached(sc, k));
      var parts := DrawAll(sc, Firsts(RepItems(sc, rep.value)), scale, depth + 1, SHARE);
      ShowsParts(Uncached(sc, k).mesh, parts);
      PlacedAlike(Uncached(sc, k).mesh.verts, place(scale));
    }
  }

  lemma {:induction false} ShowsParts(m: Mesh, parts: seq<Drawn>)
    requires Shows(m, parts)
    ensures (m.verts, m.tris) == Joined(Surfaces(parts)) && m.verts == Joined(Surfaces(parts)).0 && m.ok == (m.tris != []) && m.partial == (SomeLost(parts) && m.tris != [])
    ensures m.overBudget == SomeOver(parts) && m.boxed == SomeBoxed(parts) && m.src == BestSource(parts)
  {
  }

  lemma {:induction false} PlacedAlike(vs: seq<V3>, place: V3 -> V3)
    ensures PlaceVerts(vs, place) == Moved(vs, place)
  {
  }

  lemma {:induction false} ClippedDrawn(sc: Scene, lo: nat, item: nat, scale: real, depth: nat, p: Purse)
    requires lo <= MAX_MAP_DEPTH && item < |sc.items| && ItemKnown(sc, sc.items[item]) && sc.items[item].shape.ClippedItem?
    requires var first := sc.items[item].shape.first; depth < MAX_MAP_DEPTH && first.Some? ==> ItemDrawn(sc, lo, first.value, 1.0, depth + 1, p)
    ensures ItemDrawn(sc, lo, item, scale, depth, p)
  {
    var first, cut := sc.items[item].shape.first, sc.items[item].shape.cut;
    BoxDrawn(sc, lo, item, scale, p);
    if depth < MAX_MAP_DEPTH && first.Some? {
      var mq := Tessellate(sc, Later(sc, lo), first.value, 1.0, depth + 1, p).value;
      BoxDrawn(sc, lo, item, scale, mq.1);
      BoxDrawn(sc, lo, item, scale, Charge(mq.1, |mq.0.tris|));
      hide Later, Boxed, DrawBox;
      var s: Surface := (mq.0.verts, mq.0.tris);
      if cut(s).Some? { assert ScaleVerts(cut(s).value.0, scale) == Enlarged(cut(s).value.0, scale); }
    }
  }

  // ---------------------------------------------------------------- unions

  lemma {:induction false} FirstsMore(items: seq<nat>, k: nat)
    requires k < |items|
    ensures Firsts(items[..k + 1]) == if items[k] in items[..k] then Firsts(items[..k]) else Firsts(items[..k]) + [items[k]]
  {
    assert items[..k + 1][..k] == items[..k];
  }

  lemma {:induction false} DrawMore(sc: Scene, items: seq<nat>, item: nat, scale: real, depth: nat, left: int)
    ensures var parts := DrawAll(sc, items, scale, depth, left);
      DrawAll(sc, items + [item], scale, depth, left) == parts + [DrawItem(sc, item, scale, depth, LeftAfter(parts, left))]
  {
    assert (items + [item])[..|items|] == items;
  }

  /** A union that has come to item `k` of its list: it holds what the items so far draw. */
  ghost predicate Midway(sc: Scene, items: seq<nat>, k: nat, scale: real, depth: nat, left: int, u: Union)
    requires k <= |items|
  {
    && u.todo == items[k..] && (forall i :: i in u.seen <==> i in items[..k])
    && var parts := DrawAll(sc, Firsts(items[..k]), scale, depth, left);
      Sums(u.mesh, parts) && u.purse.left == LeftAfter(parts, left)
  }

  lemma {:induction false} TurnDrawn(sc: Scene, lo: nat, items: seq<nat>, k: nat, scale: real, depth: nat, left: int, u: Union)
    requires lo <= TOP_RANK && k < |items| && Midway(sc, items, k, scale, depth, left, u)
    requires ItemDrawn(sc, lo, items[k], scale, depth, u.purse)
    ensures match Turn(sc, Later(sc, lo), scale, depth, u)
      case Need(_) => false
      case Got(next) => Midway(sc, items, k + 1, scale, depth, left, next)
  {
    hide Later, Tessellate, DrawItem, DrawAll, Firsts, Sums, Agrees, Add;
    var item, front := items[k], Firsts(items[..k]);
    assert items[k..][1..] == items[k + 1..] && items[..k + 1] == items[..k] + [item];
    FirstsMore(items, k);
    DrawMore(sc, front, item, scale, depth, left);
    var parts := DrawAll(sc, front, scale, depth, left);
    if item !in u.seen {
      var mq := Tessellate(sc, Later(sc, lo), item, scale, depth, u.purse).value;
      var d := DrawItem(sc, item, scale, depth, u.purse.left);
      AddSums(u.mesh, parts, mq.0, mq.1.left, d);
      AgreesLeft(mq.0, mq.1.left, d);
    }
  }

  lemma {:induction false} AgreesLeft(m: Mesh, left: int, d: Drawn)
    requires Agrees(m, left, d)
    ensures left == d.left
  {
  }

  lemma {:induction false} DrawnUnion(sc: Scene, lo: nat, items: seq<nat>, k: nat, scale: real, depth: nat, left: int, u: Union)
    requires Sound(sc) && lo <= MAX_MAP_DEPTH && lo <= depth && k <= |items| && Midway(sc, items, k, scale, depth, left, u)
    ensures match UnionItems(sc, Later(sc, lo), scale, depth, u)
      case Need(_) => false
      case Got(done) =>
        var parts := DrawAll(sc, Firsts(items), scale, depth, left);
        Sums(done.mesh, parts) && done.purse.left == LeftAfter(parts, left)
    decreases if depth < MAX_MAP_DEPTH then MAX_MAP_DEPTH - depth else 0, 2, |items| - k
  {
    hide Later, Turn, Tessellate, DrawItem, DrawAll, Firsts, Sums;
    if k < |items| {
      DrawnItem(sc, lo, items[k], scale, depth, u.purse);
      TurnDrawn(sc, lo, items, k, scale, depth, left, u);
      match Turn(sc, Later(sc, lo), scale, depth, u)
      case Need(_) =>
      case Got(next) => DrawnUnion(sc, lo, items, k + 1, scale, depth, left, next);
    } else {
      assert items[..k] == items;
    }
  }

  lemma {:induction false} UnionBegins(sc: Scene, items: seq<nat>, scale: real, depth: nat, left: int)
    ensures Midway(sc, items, 0, scale, depth, left, Union(items, {}, NOTHING, Purse(left, 0)))
  {
    assert items[0..] == items && items[..0] == [];
  }

  lemma {:induction false} CloseShows(m: Mesh, parts: seq<Drawn>)
    requires Sums(m, parts)
    ensures Shows(Close(m), parts)
  {
    hide Joined, Surfaces, SomeLost, SomeOver, SomeBoxed, BestSource;
  }

  lemma {:induction false} ShapeCell(sc: Scene, k: Key, u: Union)
    requires k.ShapeKey? && UnionItems(sc, Later(sc, Rank(k)), k.scale, k.depth + 1, Begin(sc, k)) == Got(u)
    ensures var cost := SHARE - u.purse.left; Uncached(sc, k) == MeshVal(Close(u.mesh).(cost := cost), cost, u.purse.slack)
  {
    hide UnionItems, Later, Close, Begin;
  }

  lemma {:induction false} ElementCell(sc: Scene, k: Key, u: Union)
    requires k.ElementKey? && UnionItems(sc, Later(sc, 0), sc.unit, 0, Begin(sc, k)) == Got(u)
    ensures Uncached(sc, k) == MeshVal(Close(u.mesh), ELEMENT_BUDGET - u.purse.left, u.purse.slack)
  {
    hide UnionItems, Later, Close, Begin;
  }

  lemma {:induction false} DrawnShape(sc: Scene, rep: nat, scale: real, depth: nat)
    requires Sound(sc) && depth < MAX_MAP_DEPTH
    ensures ShapeDrawn(sc, rep, scale, depth)
    decreases MAX_MAP_DEPTH - depth, 0
  {
    hide Later, Uncached, UnionItems, DrawAll, Firsts, Sums, Shows, Close, Midway, Sound;
    var k, items := ShapeKey(rep, scale, depth), RepItems(sc, rep);
    UnionBegins(sc, items, scale, depth + 1, SHARE);
    DrawnUnion(sc, Rank(k), items, 0, scale, depth + 1, SHARE, Begin(sc, k));
    var done := UnionItems(sc, Later(sc, Rank(k)), scale, depth + 1, Begin(sc, k)).value;
    ShapeCell(sc, k, done);
    var parts := DrawAll(sc, Firsts(items), scale, depth + 1, SHARE);
    CloseShows(done.mesh, parts);
    CostShows(Close(done.mesh), SHARE - done.purse.left, parts);
  }

  lemma {:induction false} CostShows(m: Mesh, cost: int, parts: seq<Drawn>)
    requires Shows(m, parts)
    ensures Shows(m.(cost := cost), parts)
  {
  }

  /** What the items of an element draw, each distinct one once, on the element's budget. */
  function ElementParts(sc: Scene, i: nat): seq<Drawn> {
    DrawAll(sc, Firsts(if i < |sc.elements| then sc.elements[i] else []), sc.unit, 0, ELEMENT_BUDGET)
  }

  /** An element's mesh is what its items draw, and it is charged what they use. */
  lemma {:induction false} ElementDrawn(sc: Scene, i: nat)
    requires Sound(sc)
    ensures match Uncached(sc, ElementKey(i))
      case BoxVal(_) => false
      case MeshVal(m, charged, _) => Shows(m, ElementParts(sc, i)) && charged == ELEMENT_BUDGET - LeftAfter(ElementParts(sc, i), ELEMENT_BUDGET)
  {
    hide Later, Uncached, UnionItems, DrawAll, Firsts, Sums, Shows, Close, Midway, Sound;
    var k, items := ElementKey(i), if i < |sc.elements| then sc.elements[i] else [];
    UnionBegins(sc, items, sc.unit, 0, ELEMENT_BUDGET);
    DrawnUnion(sc, 0, items, 0, sc.unit, 0, ELEMENT_BUDGET, Begin(sc, k));
    var done := UnionItems(sc, Later(sc, 0), sc.unit, 0, Begin(sc, k)).value;
    ElementCell(sc, k, done);
    CloseShows(done.mesh, ElementParts(sc, i));
  }

  // ---------------------------------------------------------------- corner points

  predicate AllOwn(ss: seq<Surface>) { forall s <- ss :: OwnVertices(s) }

  ghost predicate PartsOwn(parts: seq<Drawn>) { forall d <- parts :: OwnVertices(d.surf) }

  lemma {:induction false} SurfacesOwn(parts: seq<Drawn>)
    requires PartsOwn(parts)
    ensures AllOwn(Surfaces(parts))
  {
    hide OwnVertices;
    if parts != [] {
      assert parts[|parts| - 1] in parts;
      SurfacesOwn(parts[..|parts| - 1]);
    }
  }

  lemma {:induction false} BoxOwn(sc: Scene, item: nat, scale: real, left: int)
    requires Laws.ReadersSound(sc)
    ensures OwnVertices(DrawBox(sc, item, scale, left).surf)
  {
    hide BoxOf;
  }

  /** With readers, cuts and boxes that name only their own vertices, so does what is drawn. */
  lemma {:induction false} ItemOwn(sc: Scene, item: nat, scale: real, depth: nat, left: int)
    requires Laws.ReadersSound(sc)
    ensures OwnVertices(DrawItem(sc, item, scale, depth, left).surf)
    decreases if depth < MAX_MAP_DEPTH then MAX_MAP_DEPTH - depth else 0, 0
  {
    hide DrawBox, DrawAll, Joined, Surfaces, Laws.ReadersSound;
    if item < |sc.items| {
      ShapeIsSound(sc, item);
      match sc.items[item].shape {
        case SolidItem(src, charge, read) =>
          BoxOwn(sc, item, scale, left - charge(left));
        case MappedItem(rep, place) =>
          if depth < MAX_MAP_DEPTH && rep.Some? {
            var parts := DrawAll(sc, Firsts(RepItems(sc, rep.value)), scale, depth + 1, SHARE);
            AllItemsOwn(sc, Firsts(RepItems(sc, rep.value)), scale, depth + 1, SHARE);
            SurfacesOwn(parts);
            CornersJoined(Surfaces(parts));
          }
        case ClippedItem(first, cut) =>
          BoxOwn(sc, item, scale, left);
          if depth < MAX_MAP_DEPTH && first.Some? {
            ItemOwn(sc, first.value, 1.0, depth + 1, left);
            var d := DrawItem(sc, first.value, 1.0, depth + 1, left);
            BoxOwn(sc, item, scale, d.left);
            BoxOwn(sc, item, scale, d.left - |d.surf.1|);
            assert Laws.InRange(d.surf.0, d.surf.1);
          }
      }
    }
  }

  lemma {:induction false} ShapeIsSound(sc: Scene, item: nat)
    requires Laws.ReadersSound(sc) && item < |sc.items|
    ensures Laws.ShapeSound(sc.items[item].shape)
  {
    hide Laws.ShapeSound;
  }

  lemma {:induction false} AllItemsOwn(sc: Scene, items: seq<nat>, scale: real, depth: nat, left: int)
    requires Laws.ReadersSound(sc)
    ensures PartsOwn(DrawAll(sc, items, scale, depth, left))
    decreases if depth < MAX_MAP_DEPTH then MAX_MAP_DEPTH - depth else 0, 1 + |items|
  {
    hide OwnVertices, Laws.ReadersSound, DrawItem;
    if items != [] {
      var n := |items| - 1;
      AllItemsOwn(sc, items[..n], scale, depth, left);
      ItemOwn(sc, items[n], scale, depth, LeftAfter(DrawAll(sc, items[..n], scale, depth, left), left));
    }
  }

  /** The corner points of an element's mesh are those of its items' surfaces, item after item:
      joining the items puts no triangle on another item's vertices. */
  lemma {:induction false} ElementCorners(sc: Scene, i: nat)
    requires Sound(sc) && Laws.ReadersSound(sc)
    ensures Uncached(sc, ElementKey(i)).MeshVal? && AllOwn(Surfaces(ElementParts(sc, i)))
    ensures var m := Uncached(sc, ElementKey(i)).mesh;
      OwnVertices((m.verts, m.tris)) && Corners((m.verts, m.tris)) == AllCorners(Surfaces(ElementParts(sc, i)))
  {
    ElementDrawn(sc, i);
    AllItemsOwn(sc, Firsts(if i < |sc.elements| then sc.elements[i] else []), sc.unit, 0, ELEMENT_BUDGET);
    hide Uncached, DrawAll, OwnVertices, Surfaces, Joined, AllCorners, Corners, Sound, Laws.ReadersSound;
    SurfacesOwn(ElementParts(sc, i));
    CornersJoined(Surfaces(ElementParts(sc, i)));
  }
}
