// What one element, and each shared cell it draws on, meshes to: representation items, box
// fallbacks, mapped shapes with budgets of their own, and the union of them all.
module GeoMeshing {
  import opened Common
  import Solid = GeoSolid

  type V3 = Solid.V3

  datatype Source = SourceObb | SourceBrep | SourceExtrude

  /** A later item moves the source only toward more faithful geometry. */
  function Promote(cur: Source, next: Source): Source {
    if next.SourceExtrude? || (next.SourceBrep? && !cur.SourceExtrude?) then next else cur
  }

  datatype Mesh = Mesh(verts: seq<V3>, tris: seq<nat>, src: Source, ok: bool,
                       partial: bool, overBudget: bool, boxed: bool, cost: int)

  const NOTHING := Mesh([], [], SourceObb, false, false, false, false, 0)

  datatype Bounds = Bounds(lo: V3, hi: V3, ok: bool)

  type Surface = (seq<V3>, seq<nat>)

  /** A representation item's own shape. A solid's reader is a function of the budget left
      when it starts: what it charges, and the surface it meshes unless it declines. */
  datatype Shape =
    | SolidItem(src: Source, charge: int -> nat, read: int -> Option<Surface>)
    | MappedItem(rep: Option<nat>, place: real -> V3 -> V3)
    | ClippedItem(first: Option<nat>, cut: Surface -> Option<Surface>)

  /** An item, with the point lists its box walk reads and what the walk makes of them. */
  datatype Item = Item(shape: Shape, lists: seq<nat>, hull: seq<Bounds> -> Bounds)

  /** The scene: items, mapped representations (none when their item list is missing), point
      lists, each element's items, and the unit scale. */
  datatype Scene = Scene(items: seq<Item>, reps: seq<Option<seq<nat>>>, lists: seq<Bounds>,
                         elements: seq<seq<nat>>, unit: real, boxMesh: Bounds -> Surface)

  ghost predicate ItemsKnown(sc: Scene, items: seq<nat>) {
    forall k :: 0 <= k < |items| ==> items[k] < |sc.items|
  }

  /** Every reference of the scene resolves within it. */
  ghost predicate Sound(sc: Scene) {
    && (forall e :: 0 <= e < |sc.elements| ==> ItemsKnown(sc, sc.elements[e]))
    && (forall r :: 0 <= r < |sc.reps| && sc.reps[r].Some? ==> ItemsKnown(sc, sc.reps[r].value))
    && (forall i :: 0 <= i < |sc.items| ==> ItemKnown(sc, sc.items[i]))
  }

  ghost predicate ItemKnown(sc: Scene, item: Item) {
    && (forall k :: 0 <= k < |item.lists| ==> item.lists[k] < |sc.lists|)
    && (item.shape.MappedItem? && item.shape.rep.Some? ==> item.shape.rep.value < |sc.reps|)
    && (item.shape.ClippedItem? && item.shape.first.Some? ==> item.shape.first.value < |sc.items|)
  }

  // ---------------------------------------------------------------- budgets

  const MAX_MAP_DEPTH: nat := 8
  const ELEMENT_BUDGET: nat := 0x400_0000
  const SHARE: nat := ELEMENT_BUDGET / (MAX_MAP_DEPTH + 1)

  /** What is left of a budget. `slack` keeps the books: what was charged beyond a budget that
      had nothing left for it. */
  datatype Purse = Purse(left: int, slack: nat)

  function Excess(left: int, n: nat): nat {
    if left < 0 then n else if n <= left then 0 else n - left
  }

  function Charge(p: Purse, n: nat): Purse { Purse(p.left - n, p.slack + Excess(p.left, n)) }

  /** A mapped shape's cost is charged whole; if it overdraws, its own slack comes with it. */
  function ChargeShape(p: Purse, cost: int, slack: nat): Purse {
    Purse(p.left - cost, p.slack + if cost > p.left then slack else 0)
  }

  // ---------------------------------------------------------------- cells

  /** What is computed once: an element's slot, a mapped representation at a scale and depth,
      an item's fallback box at a scale, a point list's bounds. */
  datatype Key = ElementKey(i: nat) | ShapeKey(rep: nat, scale: real, depth: nat) | BoxKey(item: nat, scale: real) | ListKey(list: nat)

  /** What a cell holds: a mesh, what making it charged and that charge's slack, or a box. */
  datatype Val = MeshVal(mesh: Mesh, charged: int, slack: nat) | BoxVal(box: Bounds)

  /** The order waits follow. */
  function Rank(k: Key): nat {
    match k
    case ElementKey(_) => 0
    case ShapeKey(_, _, d) => if d < MAX_MAP_DEPTH then d + 1 else MAX_MAP_DEPTH
    case BoxKey(_, _) => MAX_MAP_DEPTH + 1
    case ListKey(_) => MAX_MAP_DEPTH + 2
  }

  const TOP_RANK: nat := MAX_MAP_DEPTH + 2

  /** A computation either needs a cell first, or comes to a result. */
  datatype Try<R> = Need(key: Key) | Got(value: R)

  type Lookup = Key -> Try<Val>

  // ---------------------------------------------------------------- boxes

  function ReadLists(look: Lookup, lists: seq<nat>): Try<seq<Bounds>> {
    if lists == [] then Got([])
    else
      match ReadLists(look, lists[..|lists| - 1])
      case Need(k) => Need(k)
      case Got(front) =>
        match look(ListKey(lists[|lists| - 1]))
        case Need(k) => Need(k)
        case Got(v) => Got(front + [if v.BoxVal? then v.box else NoBounds()])
  }

  function NoBounds(): Bounds { Bounds(Solid.V3(0.0, 0.0, 0.0), Solid.V3(0.0, 0.0, 0.0), false) }

  /** An item's box in scaled units. */
  function ItemBox(sc: Scene, look: Lookup, item: nat, scale: real): Try<Bounds> {
    if item >= |sc.items| then Got(NoBounds())
    else
      match ReadLists(look, sc.items[item].lists)
      case Need(k) => Need(k)
      case Got(bs) =>
        var b := sc.items[item].hull(bs);
        Got(Bounds(Solid.Times(b.lo, scale), Solid.Times(b.hi, scale), b.ok))
  }

  /** The box fallback, once an item's own reader has declined. */
  function Boxed(sc: Scene, look: Lookup, item: nat, scale: real, p: Purse): Try<(Mesh, Purse)> {
    match look(BoxKey(item, scale))
    case Need(k) => Need(k)
    case Got(v) =>
      var (verts, tris) := if v.BoxVal? && v.box.ok then sc.boxMesh(v.box) else ([], []);
      Got((NOTHING.(verts := verts, tris := tris, ok := tris != [], overBudget := p.left < 0), p))
  }

  // ---------------------------------------------------------------- items

  function ScaleVerts(vs: seq<V3>, scale: real): (r: seq<V3>)
    ensures |r| == |vs|
  {
    seq(|vs|, i requires 0 <= i < |vs| => Solid.Times(vs[i], scale))
  }

  function PlaceVerts(vs: seq<V3>, place: V3 -> V3): (r: seq<V3>)
    ensures |r| == |vs|
  {
    seq(|vs|, i requires 0 <= i < |vs| => place(vs[i]))
  }

  /** A mapped item: refused past the depth bound or on a spent budget, otherwise the shared
      shape taken whole and placed. A failed one is never boxed. */
  function Mapped(look: Lookup, rep: Option<nat>, place: real -> V3 -> V3, scale: real, depth: nat, p: Purse): Try<(Mesh, Purse)> {
    if depth >= MAX_MAP_DEPTH then Got((NOTHING.(overBudget := p.left < 0), p))
    else if p.left < 0 then Got((NOTHING.(overBudget := true), p))
    else if rep.None? then Got((NOTHING, p))
    else
      match look(ShapeKey(rep.value, scale, depth))
      case Need(k) => Need(k)
      case Got(v) =>
        var (local, slack) := if v.MeshVal? then (v.mesh, v.slack) else (NOTHING, 0);
        var q := ChargeShape(p, local.cost, slack);
        var over := local.overBudget || q.left < 0;
        if !local.ok then Got((NOTHING.(partial := local.partial, overBudget := over), q))
        else Got((local.(verts := PlaceVerts(local.verts, place(scale)), cost := 0, overBudget := over), q))
  }

  /** What is left of a first operand's mesh after its clip, charged by its triangles. */
  function Clipped(m: Mesh, cut: Surface -> Option<Surface>, scale: real, p: Purse): (Option<Mesh>, Purse) {
    if m.verts == [] || m.tris == [] then (None, p)
    else
      var q := Charge(p, |m.tris|);
      if q.left < 0 then (None, q)
      else
        match cut((m.verts, m.tris))
        case None => (None, q)
        case Some((verts, tris)) => if tris == [] then (None, q) else (Some(m.(verts := ScaleVerts(verts, scale), tris := tris)), q)
  }

  /** One representation item. */
  function Tessellate(sc: Scene, look: Lookup, item: nat, scale: real, depth: nat, p: Purse): Try<(Mesh, Purse)>
    decreases if depth < MAX_MAP_DEPTH then MAX_MAP_DEPTH - depth else 0
  {
    if item >= |sc.items| then Got((NOTHING, p))
    else
      match sc.items[item].shape
      case MappedItem(rep, place) => Mapped(look, rep, place, scale, depth, p)
      case SolidItem(src, charge, read) =>
        var q := Charge(p, charge(p.left));
        (match read(p.left)
         case Some((verts, tris)) => Got((NOTHING.(verts := ScaleVerts(verts, scale), tris := tris, src := src, ok := true), q))
         case None => Boxed(sc, look, item, scale, q))
      case ClippedItem(first, cut) =>
        if depth >= MAX_MAP_DEPTH || first.None? then Boxed(sc, look, item, scale, p)
        else
          match Tessellate(sc, look, first.value, 1.0, depth + 1, p)
          case Need(k) => Need(k)
          case Got((m, q)) =>
            var (kept, r) := Clipped(m, cut, scale, q);
            if kept.Some? then Got((kept.value, r)) else Boxed(sc, look, item, scale, r)
  }

  // ---------------------------------------------------------------- unions

  function Offset(tris: seq<nat>, base: nat): (r: seq<nat>)
    ensures |r| == |tris|
  {
    seq(|tris|, i requires 0 <= i < |tris| => base + tris[i])
  }

  /** Adds one item's mesh to a union. An empty one is left out, and makes the union partial
      unless it was authored empty. */
  function Add(u: Mesh, m: Mesh): Mesh {
    var w := u.(partial := u.partial || m.partial || (m.verts == [] && !m.ok), overBudget := u.overBudget || m.overBudget);
    if m.verts == [] then w
    else
      w.(boxed := u.boxed || m.boxed || m.src.SourceObb?, src := Promote(u.src, m.src),
         verts := if u.verts == [] then m.verts else u.verts + m.verts,
         tris := if u.verts == [] then m.tris else u.tris + Offset(m.tris, |u.verts|))
  }

  /** A union under way: the items still to come, those already seen, and the budget left. */
  datatype Union = Union(todo: seq<nat>, seen: set<nat>, mesh: Mesh, purse: Purse)

  /** One turn: the next item, unless it was seen before. */
  function Turn(sc: Scene, look: Lookup, scale: real, depth: nat, u: Union): Try<Union>
    requires u.todo != []
  {
    var item := u.todo[0];
    if item in u.seen then Got(u.(todo := u.todo[1..]))
    else
      match Tessellate(sc, look, item, scale, depth, u.purse)
      case Need(k) => Need(k)
      case Got((m, p)) => Got(Union(u.todo[1..], u.seen + {item}, Add(u.mesh, m), p))
  }

  function UnionItems(sc: Scene, look: Lookup, scale: real, depth: nat, u: Union): Try<Union>
    decreases |u.todo|
  {
    if u.todo == [] then Got(u)
    else
      match Turn(sc, look, scale, depth, u)
      case Need(k) => Need(k)
      case Got(next) => UnionItems(sc, look, scale, depth, next)
  }

  /** A union of nothing that shipped is empty, not partial. */
  function Close(m: Mesh): Mesh {
    m.(ok := m.tris != [], partial := m.partial && m.tris != [])
  }

  // ---------------------------------------------------------------- what a cell holds

  /** The items a cell's union runs over, and the budget it runs on. */
  function Begin(sc: Scene, k: Key): Union {
    match k
    case ElementKey(i) => Union(if i < |sc.elements| then sc.elements[i] else [], {}, NOTHING, Purse(ELEMENT_BUDGET, 0))
    case ShapeKey(rep, _, _) =>
      Union(if rep < |sc.reps| && sc.reps[rep].Some? then sc.reps[rep].value else [], {}, NOTHING, Purse(SHARE, 0))
    case _ => Union([], {}, NOTHING, Purse(0, 0))
  }

  function ScaleOf(sc: Scene, k: Key): real { if k.ShapeKey? then k.scale else sc.unit }

  function DepthOf(k: Key): nat { if k.ShapeKey? then k.depth + 1 else 0 }

  /** A cell's value, from its finished union or from other cells. */
  function Finish(sc: Scene, look: Lookup, k: Key, u: Union): Try<Val> {
    match k
    case ElementKey(_) => Got(MeshVal(Close(u.mesh), ELEMENT_BUDGET - u.purse.left, u.purse.slack))
    case ShapeKey(_, _, _) => Got(MeshVal(Close(u.mesh).(cost := SHARE - u.purse.left), SHARE - u.purse.left, u.purse.slack))
    case BoxKey(item, scale) => (match ItemBox(sc, look, item, scale) case Need(n) => Need(n) case Got(b) => Got(BoxVal(b)))
    case ListKey(l) => Got(BoxVal(if l < |sc.lists| then sc.lists[l] else NoBounds()))
  }

  function Complete(sc: Scene, look: Lookup, k: Key, u: Union): Try<Val> {
    match UnionItems(sc, look, ScaleOf(sc, k), DepthOf(k), u)
    case Need(n) => Need(n)
    case Got(done) => Finish(sc, look, k, done)
  }

  /** A cell's value without any cache: every cell it draws on is computed afresh, in place. */
  function Uncached(sc: Scene, k: Key): Val
    decreases TOP_RANK - Rank(k), 1
  {
    match Complete(sc, Later(sc, Rank(k)), k, Begin(sc, k))
    case Need(_) => BoxVal(NoBounds())
    case Got(v) => v
  }

  /** Computes cells of a later rank on the spot. */
  function Later(sc: Scene, r: nat): Lookup
    requires r <= TOP_RANK
    decreases TOP_RANK - r, 0
  {
    k => if Rank(k) > r then Got(Uncached(sc, k)) else Need(k)
  }

  // ---------------------------------------------------------------- any honest cache will do

  /** A lookup that only ever answers with uncached values, or asks for the very key. */
  ghost predicate Honest(sc: Scene, look: Lookup) {
    forall k: Key {:trigger look(k)} ::
      match look(k) case Need(n) => n == k case Got(v) => v == Uncached(sc, k)
  }

  predicate KnownScale(sc: Scene, scale: real) { scale == sc.unit || scale == 1.0 }

  /** A key the build of this scene can ask for. */
  ghost predicate KnownKey(sc: Scene, k: Key) {
    match k
    case ElementKey(i) => i < |sc.elements|
    case ShapeKey(rep, scale, depth) => rep < |sc.reps| && KnownScale(sc, scale) && depth < MAX_MAP_DEPTH
    case BoxKey(item, scale) => item < |sc.items| && KnownScale(sc, scale)
    case ListKey(l) => l < |sc.lists|
  }

  /** A computation through `look` either comes to the uncached result, or needs a cell that
      is missing, of a later rank than `lo`. */
  ghost predicate Follows<R>(sc: Scene, look: Lookup, lo: nat, t: Try<R>, uncached: Try<R>) {
    match t
    case Got(r) => uncached == Got(r)
    case Need(n) => Rank(n) > lo && look(n) == Need(n) && KnownKey(sc, n)
  }

  lemma {:induction false} LookFollows(sc: Scene, look: Lookup, lo: nat, k: Key)
    requires lo <= TOP_RANK && Honest(sc, look) && Rank(k) > lo && KnownKey(sc, k)
    ensures Follows(sc, look, lo, look(k), Later(sc, lo)(k))
  {
    assert match look(k) case Need(n) => n == k case Got(v) => v == Uncached(sc, k);
  }

  lemma {:induction false} LaterIsHonest(sc: Scene, lo: nat)
    requires lo <= TOP_RANK
    ensures Honest(sc, Later(sc, lo))
  {
  }

  lemma {:induction false} ListsFollow(sc: Scene, look: Lookup, lo: nat, lists: seq<nat>)
    requires Honest(sc, look) && lo < TOP_RANK && forall k :: 0 <= k < |lists| ==> lists[k] < |sc.lists|
    ensures Follows(sc, look, lo, ReadLists(look, lists), ReadLists(Later(sc, lo), lists))
  {
    if lists != [] {
      ListsFollow(sc, look, lo, lists[..|lists| - 1]);
      LookFollows(sc, look, lo, ListKey(lists[|lists| - 1]));
    }
  }

  lemma {:induction false} BoxFollows(sc: Scene, look: Lookup, item: nat, scale: real)
    requires Sound(sc) && Honest(sc, look) && item < |sc.items|
    ensures Follows(sc, look, MAX_MAP_DEPTH + 1, ItemBox(sc, look, item, scale), ItemBox(sc, Later(sc, MAX_MAP_DEPTH + 1), item, scale))
  {
    assert ItemKnown(sc, sc.items[item]);
    ListsFollow(sc, look, MAX_MAP_DEPTH + 1, sc.items[item].lists);
    hide Later, ReadLists, Uncached;
  }

  lemma {:induction false} BoxedFollows(sc: Scene, look: Lookup, lo: nat, item: nat, scale: real, p: Purse)
    requires Honest(sc, look) && lo <= MAX_MAP_DEPTH && item < |sc.items| && KnownScale(sc, scale)
    ensures Follows(sc, look, lo, Boxed(sc, look, item, scale, p), Boxed(sc, Later(sc, lo), item, scale, p))
  {
    LookFollows(sc, look, lo, BoxKey(item, scale));
    hide Later, Uncached;
  }

  lemma {:induction false} MappedFollows(sc: Scene, look: Lookup, lo: nat, rep: Option<nat>, place: real -> V3 -> V3, scale: real, depth: nat, p: Purse)
    requires Honest(sc, look) && lo <= MAX_MAP_DEPTH && lo <= depth && KnownScale(sc, scale)
    requires rep.Some? ==> rep.value < |sc.reps|
    ensures Follows(sc, look, lo, Mapped(look, rep, place, scale, depth, p), Mapped(Later(sc, lo), rep, place, scale, depth, p))
  {
    if depth < MAX_MAP_DEPTH && p.left >= 0 && rep.Some? {
      LookFollows(sc, look, lo, ShapeKey(rep.value, scale, depth));
    }
    hide Later, Uncached;
  }

  lemma {:induction false} TessellateFollows(sc: Scene, look: Lookup, lo: nat, item: nat, scale: real, depth: nat, p: Purse)
    requires Sound(sc) && Honest(sc, look) && lo <= MAX_MAP_DEPTH && lo <= depth && KnownScale(sc, scale)
    ensures Follows(sc, look, lo, Tessellate(sc, look, item, scale, depth, p), Tessellate(sc, Later(sc, lo), item, scale, depth, p))
    decreases if depth < MAX_MAP_DEPTH then MAX_MAP_DEPTH - depth else 0
  {
    hide Later, Uncached, Honest, Boxed, Mapped, Clipped, KnownKey;
    if item < |sc.items| {
      assert ItemKnown(sc, sc.items[item]);
      match sc.items[item].shape {
        case MappedItem(rep, place) => MappedFollows(sc, look, lo, rep, place, scale, depth, p);
        case SolidItem(src, charge, read) => BoxedFollows(sc, look, lo, item, scale, Charge(p, charge(p.left)));
        case ClippedItem(first, cut) =>
          BoxedFollows(sc, look, lo, item, scale, p);
          if depth < MAX_MAP_DEPTH && first.Some? {
            TessellateFollows(sc, look, lo, first.value, 1.0, depth + 1, p);
            match Tessellate(sc, look, first.value, 1.0, depth + 1, p)
            case Need(_) =>
            case Got((m, q)) => BoxedFollows(sc, look, lo, item, scale, Clipped(m, cut, scale, q).1);
          }
      }
    }
  }

  lemma {:induction false} TurnFollows(sc: Scene, look: Lookup, lo: nat, scale: real, depth: nat, u: Union)
    requires Sound(sc) && Honest(sc, look) && lo <= MAX_MAP_DEPTH && lo <= depth && KnownScale(sc, scale) && u.todo != []
    ensures Follows(sc, look, lo, Turn(sc, look, scale, depth, u), Turn(sc, Later(sc, lo), scale, depth, u))
  {
    TessellateFollows(sc, look, lo, u.todo[0], scale, depth, u.purse);
    hide Tessellate, Later, Honest, Uncached, KnownKey;
  }

  /** With everything later computed on the spot, a union never has to wait. */
  lemma {:induction false} UnionGot(sc: Scene, lo: nat, scale: real, depth: nat, u: Union)
    requires Sound(sc) && lo <= MAX_MAP_DEPTH && lo <= depth && KnownScale(sc, scale)
    ensures UnionItems(sc, Later(sc, lo), scale, depth, u).Got?
    decreases |u.todo|
  {
    if u.todo != [] {
      var look := Later(sc, lo);
      LaterIsHonest(sc, lo);
      TurnFollows(sc, look, lo, scale, depth, u);
      hide Turn, Uncached, Honest;
      match Turn(sc, look, scale, depth, u) {
        case Got(next) =>
          TurnShrinks(sc, look, scale, depth, u);
          UnionGot(sc, lo, scale, depth, next);
        case Need(_) => assert false;
      }
    }
  }

  lemma {:induction false} TurnShrinks(sc: Scene, look: Lookup, scale: real, depth: nat, u: Union)
    requires u.todo != [] && Turn(sc, look, scale, depth, u).Got?
    ensures Turn(sc, look, scale, depth, u).value.todo == u.todo[1..]
  {
    hide Tessellate;
  }

  lemma {:induction false} FinishFollows(sc: Scene, look: Lookup, k: Key, u: Union)
    requires Sound(sc) && Honest(sc, look) && KnownKey(sc, k)
    ensures Follows(sc, look, Rank(k), Finish(sc, look, k, u), Finish(sc, Later(sc, Rank(k)), k, u))
  {
    if k.BoxKey? { BoxFollows(sc, look, k.item, k.scale); }
    hide Later, Honest, Uncached, ItemBox;
  }

  ghost predicate Unions(k: Key) { k.ElementKey? || k.ShapeKey? }

  /** Only elements and mapped shapes run a union. */
  lemma {:induction false} CompleteGot(sc: Scene, k: Key, u: Union)
    requires Sound(sc) && KnownKey(sc, k) && (!Unions(k) ==> u.todo == [])
    ensures Complete(sc, Later(sc, Rank(k)), k, u).Got?
  {
    var look := Later(sc, Rank(k));
    LaterIsHonest(sc, Rank(k));
    if Unions(k) { UnionGot(sc, Rank(k), ScaleOf(sc, k), DepthOf(k), u); }
    match UnionItems(sc, look, ScaleOf(sc, k), DepthOf(k), u)
    case Got(done) =>
      FinishFollows(sc, look, k, done);
      hide Finish, Honest, UnionItems;
      match Finish(sc, look, k, done) {
        case Got(_) =>
        case Need(_) => assert false;
      }
  }

  // ---------------------------------------------------------------- partly built cells

  /** A cell being built: its union so far still leads to the cell's uncached value. */
  ghost predicate OnCourse(sc: Scene, k: Key, u: Union) {
    && KnownKey(sc, k) && (!Unions(k) ==> u.todo == [])
    && Complete(sc, Later(sc, Rank(k)), k, u) == Got(Uncached(sc, k))
  }

  lemma {:induction false} BeginOnCourse(sc: Scene, k: Key)
    requires Sound(sc) && KnownKey(sc, k)
    ensures OnCourse(sc, k, Begin(sc, k))
  {
    CompleteGot(sc, k, Begin(sc, k));
    hide Complete;
  }

  /** A turn through an honest cache keeps a cell on course, or needs a missing later cell. */
  lemma {:induction false} TurnOnCourse(sc: Scene, look: Lookup, k: Key, u: Union)
    requires Sound(sc) && Honest(sc, look) && OnCourse(sc, k, u) && u.todo != []
    ensures match Turn(sc, look, ScaleOf(sc, k), DepthOf(k), u)
      case Got(next) => OnCourse(sc, k, next) && next.todo == u.todo[1..]
      case Need(n) => Rank(n) > Rank(k) && look(n) == Need(n) && KnownKey(sc, n)
  {
    var scale, depth := ScaleOf(sc, k), DepthOf(k);
    TurnFollows(sc, look, Rank(k), scale, depth, u);
    hide Honest, Finish, KnownKey;
    match Turn(sc, look, scale, depth, u)
    case Need(_) =>
    case Got(next) =>
      TurnShrinks(sc, look, scale, depth, u);
      UnfoldUnion(sc, Later(sc, Rank(k)), scale, depth, u, next);
      hide Turn, UnionItems, Later, Uncached;
  }

  lemma {:induction false} UnfoldUnion(sc: Scene, look: Lookup, scale: real, depth: nat, u: Union, next: Union)
    requires u.todo != [] && Turn(sc, look, scale, depth, u) == Got(next)
    ensures UnionItems(sc, look, scale, depth, u) == UnionItems(sc, look, scale, depth, next)
  {
    hide Turn;
  }

  /** A finished union yields the cell's uncached value, or needs a missing later cell. */
  lemma {:induction false} FinishOnCourse(sc: Scene, look: Lookup, k: Key, u: Union)
    requires Sound(sc) && Honest(sc, look) && OnCourse(sc, k, u) && u.todo == []
    ensures match Finish(sc, look, k, u)
      case Got(v) => v == Uncached(sc, k)
      case Need(n) => Rank(n) > Rank(k) && look(n) == Need(n) && KnownKey(sc, n)
  {
    FinishFollows(sc, look, k, u);
    hide Honest, Finish, KnownKey, Uncached, Later;
  }
}
