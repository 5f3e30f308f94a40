// What every uncached mesh obeys, and by GeoBuild every built one: its charges stay within
// the shares of nested mapped shapes, and its triangles only name its own vertices.
module GeoMeshLaws {
  import opened Common
  import opened GeoMeshing

  // ---------------------------------------------------------------- the budget bound

  /** The shares a mapped shape entered at `depth` can cost: one for each level below it. */
  function Cap(depth: nat): nat {
    if depth < MAX_MAP_DEPTH then (MAX_MAP_DEPTH - depth) * SHARE else 0
  }

  /** A purse running items at `depth`: overdrawn by at most one nested shape and the slack,
      and slack arises only once it is overdrawn. */
  predicate Held(p: Purse, depth: nat) {
    p.left >= -(Cap(depth) + p.slack) && (p.left >= 0 ==> p.slack == 0)
  }

  /** A cell's cost is what its shares and its own slack allow. */
  predicate WithinShares(k: Key, v: Val) {
    k.ShapeKey? && k.depth < MAX_MAP_DEPTH && v.MeshVal? ==> 0 <= v.mesh.cost <= Cap(k.depth) + v.slack
  }

  ghost predicate LooksWithin(look: Lookup) {
    forall k: Key {:trigger look(k)} :: look(k).Got? ==> WithinShares(k, look(k).value)
  }

  lemma {:induction false} ChargeHeld(p: Purse, n: nat, depth: nat)
    requires Held(p, depth)
    ensures Held(Charge(p, n), depth) && Charge(p, n).left <= p.left
  {
  }

  lemma {:induction false} MappedHeld(look: Lookup, rep: Option<nat>, place: real -> V3 -> V3, scale: real, depth: nat, p: Purse, outer: nat)
    requires LooksWithin(look) && outer <= depth && Held(p, outer)
    ensures match Mapped(look, rep, place, scale, depth, p)
      case Need(_) => true
      case Got((_, q)) => Held(q, outer) && q.left <= p.left
  {
    if depth < MAX_MAP_DEPTH && p.left >= 0 && rep.Some? {
      var k := ShapeKey(rep.value, scale, depth);
      assert look(k).Got? ==> WithinShares(k, look(k).value);
      assert Cap(depth) <= Cap(outer);
    }
  }

  lemma {:induction false} BoxedHeld(sc: Scene, look: Lookup, item: nat, scale: real, p: Purse)
    ensures match Boxed(sc, look, item, scale, p) case Need(_) => true case Got((_, q)) => q == p
  {
  }

  lemma {:induction false} ClippedHeld(m: Mesh, cut: Surface -> Option<Surface>, scale: real, p: Purse, outer: nat)
    requires Held(p, outer)
    ensures var q := Clipped(m, cut, scale, p).1; Held(q, outer) && q.left <= p.left
  {
    ChargeHeld(p, |m.tris|, outer);
    hide Charge, Held;
  }

  lemma {:induction false} TessellateHeld(sc: Scene, look: Lookup, item: nat, scale: real, depth: nat, p: Purse, outer: nat)
    requires LooksWithin(look) && outer <= depth && Held(p, outer)
    ensures match Tessellate(sc, look, item, scale, depth, p)
      case Need(_) => true
      case Got((_, q)) => Held(q, outer) && q.left <= p.left
    decreases if depth < MAX_MAP_DEPTH then MAX_MAP_DEPTH - depth else 0
  {
    hide Held, Charge, Mapped, Boxed, Clipped, LooksWithin;
    if item < |sc.items| {
      match sc.items[item].shape {
        case MappedItem(rep, place) => MappedHeld(look, rep, place, scale, depth, p, outer);
        case SolidItem(src, charge, read) =>
          ChargeHeld(p, charge(p.left), outer);
          BoxedHeld(sc, look, item, scale, Charge(p, charge(p.left)));
        case ClippedItem(first, cut) =>
          BoxedHeld(sc, look, item, scale, p);
          if depth < MAX_MAP_DEPTH && first.Some? {
            TessellateHeld(sc, look, first.value, 1.0, depth + 1, p, outer);
            match Tessellate(sc, look, first.value, 1.0, depth + 1, p)
            case Need(_) =>
            case Got((m, q)) =>
              ClippedHeld(m, cut, scale, q, outer);
              BoxedHeld(sc, look, item, scale, Clipped(m, cut, scale, q).1);
          }
      }
    }
  }

  lemma {:induction false} UnionHeld(sc: Scene, look: Lookup, scale: real, depth: nat, u: Union)
    requires LooksWithin(look) && Held(u.purse, depth)
    ensures match UnionItems(sc, look, scale, depth, u)
      case Need(_) => true
      case Got(done) => Held(done.purse, depth) && done.purse.left <= u.purse.left
    decreases |u.todo|
  {
    hide Held, LooksWithin, Tessellate, Add;
    if u.todo != [] {
      TessellateHeld(sc, look, u.todo[0], scale, depth, u.purse, depth);
      match Turn(sc, look, scale, depth, u)
      case Need(_) =>
      case Got(next) => UnionHeld(sc, look, scale, depth, next);
    }
  }

  /** A mapped shape's cost is its own share, one nested shape's, and the slack. */
  lemma {:induction false} CompleteWithin(sc: Scene, look: Lookup, k: Key)
    requires k.ShapeKey? && k.depth < MAX_MAP_DEPTH && LooksWithin(look)
    ensures match Complete(sc, look, k, Begin(sc, k)) case Need(_) => true case Got(v) => WithinShares(k, v)
  {
    UnionHeld(sc, look, k.scale, k.depth + 1, Begin(sc, k));
    hide UnionItems, LooksWithin;
  }

  /** A mapped representation entered at depth d costs at most 8 - d shares of an element's
      budget, plus what was charged with nothing left to charge it to. */
  lemma {:induction false} ShapeWithinShares(sc: Scene, k: Key)
    ensures WithinShares(k, Uncached(sc, k))
    decreases TOP_RANK - Rank(k), 1
  {
    if k.ShapeKey? && k.depth < MAX_MAP_DEPTH {
      LaterWithin(sc, Rank(k));
      CompleteWithin(sc, Later(sc, Rank(k)), k);
      hide Complete, Later, LooksWithin, WithinShares;
    }
  }

  lemma {:induction false} LaterWithin(sc: Scene, lo: nat)
    requires lo <= TOP_RANK
    ensures LooksWithin(Later(sc, lo))
    decreases TOP_RANK - lo, 0
  {
    hide Uncached, WithinShares;
    forall k | Rank(k) > lo ensures WithinShares(k, Uncached(sc, k)) {
      ShapeWithinShares(sc, k);
    }
  }

  /** An element is charged at most its own budget, eight shares more, and the slack; and
      there is slack only if the budget was overdrawn. */
  lemma {:induction false} ElementWithinShares(sc: Scene, i: nat)
    ensures var v := Uncached(sc, ElementKey(i));
      v.MeshVal? ==> v.charged <= 67108864 + 8 * 7456540 + v.slack && (v.charged <= 67108864 ==> v.slack == 0)
  {
    LaterWithin(sc, 0);
    UnionHeld(sc, Later(sc, 0), sc.unit, 0, Begin(sc, ElementKey(i)));
    hide UnionItems, LooksWithin, Later;
  }

  // ---------------------------------------------------------------- indices stay in range

  ghost predicate InRange(verts: seq<V3>, tris: seq<nat>) {
    forall k :: 0 <= k < |tris| ==> tris[k] < |verts|
  }

  ghost predicate WellIndexed(m: Mesh) { InRange(m.verts, m.tris) }

  /** Readers, cuts and box meshes that index their own vertices. */
  ghost predicate ShapeSound(shape: Shape) {
    match shape
    case SolidItem(_, _, read) => forall left {:trigger read(left)} :: read(left).Some? ==> InRange(read(left).value.0, read(left).value.1)
    case MappedItem(_, _) => true
    case ClippedItem(_, cut) => forall s: Surface {:trigger cut(s)} :: InRange(s.0, s.1) && cut(s).Some? ==> InRange(cut(s).value.0, cut(s).value.1)
  }

  ghost predicate ReadersSound(sc: Scene) {
    && (forall i :: 0 <= i < |sc.items| ==> ShapeSound(sc.items[i].shape))
    && (forall b {:trigger sc.boxMesh(b)} :: InRange(sc.boxMesh(b).0, sc.boxMesh(b).1))
  }

  ghost predicate LooksIndexed(look: Lookup) {
    forall k: Key {:trigger look(k)} :: look(k).Got? && look(k).value.MeshVal? ==> WellIndexed(look(k).value.mesh)
  }

  lemma {:induction false} BoxedIndexed(sc: Scene, look: Lookup, item: nat, scale: real, p: Purse)
    requires ReadersSound(sc)
    ensures match Boxed(sc, look, item, scale, p) case Need(_) => true case Got((m, _)) => WellIndexed(m)
  {
  }

  lemma {:induction false} ClippedIndexed(m: Mesh, cut: Surface -> Option<Surface>, scale: real, p: Purse)
    requires WellIndexed(m)
    requires forall s: Surface {:trigger cut(s)} :: InRange(s.0, s.1) && cut(s).Some? ==> InRange(cut(s).value.0, cut(s).value.1)
    ensures var kept := Clipped(m, cut, scale, p).0; kept.Some? ==> WellIndexed(kept.value)
  {
    var s: Surface := (m.verts, m.tris);
    assert InRange(s.0, s.1);
    if cut(s).Some? { assert InRange(cut(s).value.0, cut(s).value.1); }
  }

  lemma {:induction false} TessellateIndexed(sc: Scene, look: Lookup, item: nat, scale: real, depth: nat, p: Purse)
    requires ReadersSound(sc) && LooksIndexed(look)
    ensures match Tessellate(sc, look, item, scale, depth, p) case Need(_) => true case Got((m, _)) => WellIndexed(m)
    decreases if depth < MAX_MAP_DEPTH then MAX_MAP_DEPTH - depth else 0
  {
    hide Charge, Boxed, Clipped;
    if item < |sc.items| {
      assert ShapeSound(sc.items[item].shape);
      match sc.items[item].shape {
        case MappedItem(rep, place) =>
          if rep.Some? { assert var k := ShapeKey(rep.value, scale, depth); look(k).Got? && look(k).value.MeshVal? ==> WellIndexed(look(k).value.mesh); }
        case SolidItem(src, charge, read) => BoxedIndexed(sc, look, item, scale, Charge(p, charge(p.left)));
        case ClippedItem(first, cut) =>
          BoxedIndexed(sc, look, item, scale, p);
          if depth < MAX_MAP_DEPTH && first.Some? {
            TessellateIndexed(sc, look, first.value, 1.0, depth + 1, p);
            match Tessellate(sc, look, first.value, 1.0, depth + 1, p)
            case Need(_) =>
            case Got((m, q)) =>
              ClippedIndexed(m, cut, scale, q);
              BoxedIndexed(sc, look, item, scale, Clipped(m, cut, scale, q).1);
          }
      }
    }
  }

  lemma {:induction false} SomeVertex(m: Mesh)
    requires WellIndexed(m)
    ensures m.tris != [] ==> m.verts != []
  {
    if m.tris != [] { assert m.tris[0] < |m.verts|; }
  }

  /** A union's triangles keep the corner points they had, and so do those of what is added. */
  lemma {:induction false} AddIndexed(u: Mesh, m: Mesh)
    requires WellIndexed(u) && WellIndexed(m)
    ensures var w := Add(u, m);
      && WellIndexed(w) && |w.tris| == |u.tris| + (if m.verts == [] then 0 else |m.tris|)
      && (forall k :: 0 <= k < |u.tris| ==> w.verts[w.tris[k]] == u.verts[u.tris[k]])
      && (m.verts != [] ==> forall k :: 0 <= k < |m.tris| ==> w.verts[w.tris[|u.tris| + k]] == m.verts[m.tris[k]])
  {
    var w := Add(u, m);
    SomeVertex(u);
    if m.verts != [] && u.verts != [] {
      forall k | 0 <= k < |m.tris| ensures w.verts[w.tris[|u.tris| + k]] == m.verts[m.tris[k]] { assert w.tris[|u.tris| + k] == |u.verts| + m.tris[k]; }
    }
  }

  lemma {:induction false} UnionIndexed(sc: Scene, look: Lookup, scale: real, depth: nat, u: Union)
    requires ReadersSound(sc) && LooksIndexed(look) && WellIndexed(u.mesh)
    ensures match UnionItems(sc, look, scale, depth, u) case Need(_) => true case Got(done) => WellIndexed(done.mesh)
    decreases |u.todo|
  {
    hide WellIndexed, LooksIndexed, ReadersSound, Tessellate, Add;
    if u.todo != [] {
      TessellateIndexed(sc, look, u.todo[0], scale, depth, u.purse);
      match Turn(sc, look, scale, depth, u)
      case Need(_) =>
      case Got(next) =>
        if u.todo[0] !in u.seen {
          AddIndexed(u.mesh, Tessellate(sc, look, u.todo[0], scale, depth, u.purse).value.0);
        }
        UnionIndexed(sc, look, scale, depth, next);
    }
  }

  /** Every cell's mesh, and so every element's, indexes only its own vertices, however the
      items were clipped, mapped, placed, boxed and joined. */
  lemma {:induction false} MeshesIndexed(sc: Scene, k: Key)
    requires ReadersSound(sc)
    ensures Uncached(sc, k).MeshVal? ==> WellIndexed(Uncached(sc, k).mesh)
    decreases TOP_RANK - Rank(k), 1
  {
    LaterIndexed(sc, Rank(k));
    var look := Later(sc, Rank(k));
    UnionIndexed(sc, look, ScaleOf(sc, k), DepthOf(k), Begin(sc, k));
    hide UnionItems, Later, LooksIndexed, ReadersSound, ItemBox;
  }

  lemma {:induction false} LaterIndexed(sc: Scene, lo: nat)
    requires ReadersSound(sc) && lo <= TOP_RANK
    ensures LooksIndexed(Later(sc, lo))
    decreases TOP_RANK - lo, 0
  {
    hide Uncached, WellIndexed, ReadersSound;
    forall k | Rank(k) > lo ensures Uncached(sc, k).MeshVal? ==> WellIndexed(Uncached(sc, k).mesh) {
      MeshesIndexed(sc, k);
    }
  }
}
