// Building a scene's meshes on concurrent workers that share an element counter and nested
// once-cells: whatever the schedule, no run deadlocks, every run ends, and each element gets
// the mesh it would get alone and uncached.
module GeoBuild {
  import opened Common
  import opened GeoMeshing
  import Drawing = GeoDrawing

  /** A once-cell: being built by the worker that came first, or built. */
  datatype Cell = Building(worker: nat) | Done(value: Val)

  /** A cell under construction on some worker's stack. */
  datatype Frame = Frame(key: Key, union: Union)

  /** What the top of a stack does next. */
  datatype Act = Asks(key: Key) | Goes(union: Union) | Publishes(value: Val)

  function Cached(cells: map<Key, Cell>): Lookup {
    k => if k in cells && cells[k].Done? then Got(cells[k].value) else Need(k)
  }

  function NextAct(sc: Scene, cells: map<Key, Cell>, f: Frame): Act {
    if f.union.todo != [] then
      match Turn(sc, Cached(cells), ScaleOf(sc, f.key), DepthOf(f.key), f.union)
      case Need(k) => Asks(k)
      case Got(u) => Goes(u)
    else
      match Finish(sc, Cached(cells), f.key, f.union)
      case Need(k) => Asks(k)
      case Got(v) => Publishes(v)
  }

  // ---------------------------------------------------------------- what every step keeps

  ghost predicate CellsTrue(sc: Scene, cells: map<Key, Cell>) {
    forall k <- cells :: KnownKey(sc, k) && (cells[k].Done? ==> cells[k].value == Uncached(sc, k))
  }

  ghost predicate FrameOwned(sc: Scene, cells: map<Key, Cell>, w: nat, f: Frame) {
    f.key in cells && cells[f.key] == Building(w) && OnCourse(sc, f.key, f.union)
  }

  ghost predicate StackOwned(sc: Scene, cells: map<Key, Cell>, w: nat, s: seq<Frame>) {
    forall j :: 0 <= j < |s| ==> FrameOwned(sc, cells, w, s[j])
  }

  /** Nested waits only ever go to a later rank. */
  predicate Rises(s: seq<Frame>) {
    forall i, j :: 0 <= i < j < |s| ==> Rank(s[i].key) < Rank(s[j].key)
  }

  predicate Holds(s: seq<Frame>, k: Key) {
    exists j :: 0 <= j < |s| && s[j].key == k
  }

  /** Every cell under construction is on its worker's stack. */
  ghost predicate Attended(cells: map<Key, Cell>, stacks: seq<seq<Frame>>) {
    forall k <- cells :: cells[k].Building? ==> cells[k].worker < |stacks| && Holds(stacks[cells[k].worker], k)
  }

  ghost predicate Coherent(sc: Scene, cells: map<Key, Cell>, stacks: seq<seq<Frame>>) {
    && CellsTrue(sc, cells) && Attended(cells, stacks)
    && forall w :: 0 <= w < |stacks| ==> StackOwned(sc, cells, w, stacks[w]) && Rises(stacks[w])
  }

  lemma {:induction false} CacheIsHonest(sc: Scene, cells: map<Key, Cell>)
    requires CellsTrue(sc, cells)
    ensures Honest(sc, Cached(cells))
  {
    hide Uncached;
  }

  /** The top frame of a coherent state either asks for a later cell that is not built, or
      goes on with its items, or has its cell's uncached value. */
  lemma {:induction false} ActOnCourse(sc: Scene, cells: map<Key, Cell>, f: Frame)
    requires Sound(sc) && CellsTrue(sc, cells) && OnCourse(sc, f.key, f.union)
    ensures match NextAct(sc, cells, f)
      case Asks(k) => KnownKey(sc, k) && Rank(k) > Rank(f.key) && (k in cells ==> cells[k].Building?)
      case Goes(u) => OnCourse(sc, f.key, u) && |u.todo| < |f.union.todo|
      case Publishes(v) => v == Uncached(sc, f.key) && f.union.todo == []
  {
    CacheIsHonest(sc, cells);
    if f.union.todo != [] {
      TurnOnCourse(sc, Cached(cells), f.key, f.union);
    } else {
      FinishOnCourse(sc, Cached(cells), f.key, f.union);
    }
    hide Turn, Finish, OnCourse, Uncached, Honest, KnownKey;
  }

  /** A worker's stack with a later cell claimed on top; the others' as they were. */
  lemma {:induction false} StackPushed(sc: Scene, cells: map<Key, Cell>, s: seq<Frame>, v: nat, w: nat, k: Key)
    requires StackOwned(sc, cells, v, s) && Rises(s) && k !in cells && KnownKey(sc, k) && OnCourse(sc, k, Begin(sc, k))
    requires v == w ==> forall j :: 0 <= j < |s| ==> Rank(s[j].key) < Rank(k)
    ensures var t := if v == w then s + [Frame(k, Begin(sc, k))] else s; StackOwned(sc, cells[k := Building(w)], v, t) && Rises(t)
  {
    hide OnCourse, KnownKey, Uncached, Begin, Rank;
    var cells', t := cells[k := Building(w)], if v == w then s + [Frame(k, Begin(sc, k))] else s;
    forall j | 0 <= j < |t| ensures FrameOwned(sc, cells', v, t[j]) {
      if j < |s| { assert FrameOwned(sc, cells, v, s[j]); }
    }
  }

  lemma {:induction false} Pushed(sc: Scene, cells: map<Key, Cell>, stacks: seq<seq<Frame>>, w: nat, k: Key)
    requires Sound(sc) && Coherent(sc, cells, stacks) && w < |stacks| && k !in cells && KnownKey(sc, k)
    requires forall j :: 0 <= j < |stacks[w]| ==> Rank(stacks[w][j].key) < Rank(k)
    ensures Coherent(sc, cells[k := Building(w)], stacks[w := stacks[w] + [Frame(k, Begin(sc, k))]])
  {
    BeginOnCourse(sc, k);
    hide OnCourse, KnownKey, Uncached, Begin, Rank, StackOwned, Rises;
    var cells', s' := cells[k := Building(w)], stacks[w] + [Frame(k, Begin(sc, k))];
    var stacks' := stacks[w := s'];
    forall v: nat | v < |stacks'| ensures StackOwned(sc, cells', v, stacks'[v]) && Rises(stacks'[v]) {
      StackPushed(sc, cells, stacks[v], v, w, k);
    }
    forall x | x in cells' && cells'[x].Building? ensures Holds(stacks'[cells'[x].worker], x) {
      if x == k {
        assert s'[|stacks[w]|].key == k;
      } else {
        StillHolds(stacks[cells[x].worker], stacks'[cells[x].worker], x);
      }
    }
  }

  lemma {:induction false} StillHolds(s: seq<Frame>, t: seq<Frame>, k: Key)
    requires Holds(s, k) && forall j :: 0 <= j < |s| && s[j].key == k ==> j < |t| && t[j].key == k
    ensures Holds(t, k)
  {
    var j :| 0 <= j < |s| && s[j].key == k;
    assert t[j].key == k;
  }

  lemma {:induction false} StackAdvanced(sc: Scene, cells: map<Key, Cell>, w: nat, s: seq<Frame>, u: Union)
    requires s != [] && StackOwned(sc, cells, w, s) && Rises(s) && OnCourse(sc, s[|s| - 1].key, u)
    ensures var s' := s[|s| - 1 := Frame(s[|s| - 1].key, u)]; StackOwned(sc, cells, w, s') && Rises(s')
  {
    hide OnCourse, Rank;
    var s' := s[|s| - 1 := Frame(s[|s| - 1].key, u)];
    forall j | 0 <= j < |s'| ensures FrameOwned(sc, cells, w, s'[j]) {
      assert FrameOwned(sc, cells, w, s[j]);
    }
  }

  lemma {:induction false} Advanced(sc: Scene, cells: map<Key, Cell>, stacks: seq<seq<Frame>>, w: nat, u: Union)
    requires Coherent(sc, cells, stacks) && w < |stacks| && stacks[w] != []
    requires OnCourse(sc, stacks[w][|stacks[w]| - 1].key, u)
    ensures var s := stacks[w]; var top := s[|s| - 1];
      Coherent(sc, cells, stacks[w := s[|s| - 1 := Frame(top.key, u)]])
  {
    hide OnCourse, KnownKey, Uncached, Rank, StackOwned, Rises;
    var s := stacks[w];
    var s' := s[|s| - 1 := Frame(s[|s| - 1].key, u)];
    var stacks' := stacks[w := s'];
    assert StackOwned(sc, cells, w, s) && Rises(s);
    StackAdvanced(sc, cells, w, s, u);
    forall v | 0 <= v < |stacks'| ensures StackOwned(sc, cells, v, stacks'[v]) && Rises(stacks'[v]) {
      assert StackOwned(sc, cells, v, stacks[v]) && Rises(stacks[v]);
    }
    forall x | x in cells && cells[x].Building? ensures Holds(stacks'[cells[x].worker], x) {
      StillHolds(stacks[cells[x].worker], stacks'[cells[x].worker], x);
    }
  }

  lemma {:induction false} Published(sc: Scene, cells: map<Key, Cell>, stacks: seq<seq<Frame>>, w: nat, val: Val)
    requires Coherent(sc, cells, stacks) && w < |stacks| && stacks[w] != []
    requires val == Uncached(sc, stacks[w][|stacks[w]| - 1].key)
    ensures var s := stacks[w];
      Coherent(sc, cells[s[|s| - 1].key := Done(val)], stacks[w := s[..|s| - 1]])
  {
    hide OnCourse, KnownKey, Uncached, Rank;
    var s := stacks[w];
    var k, s' := s[|s| - 1].key, s[..|s| - 1];
    var cells', stacks' := cells[k := Done(val)], stacks[w := s'];
    assert StackOwned(sc, cells, w, s) && Rises(s);
    assert FrameOwned(sc, cells, w, s[|s| - 1]);
    forall v | 0 <= v < |stacks'| ensures StackOwned(sc, cells', v, stacks'[v]) && Rises(stacks'[v]) {
      assert StackOwned(sc, cells, v, stacks[v]) && Rises(stacks[v]);
      forall j | 0 <= j < |stacks'[v]| ensures FrameOwned(sc, cells', v, stacks'[v][j]) {
        assert FrameOwned(sc, cells, v, stacks[v][j]);
      }
    }
    forall x | x in cells' && cells'[x].Building? ensures Holds(stacks'[cells'[x].worker], x) {
      StillHolds(stacks[cells[x].worker], stacks'[cells[x].worker], x);
    }
  }

  // ---------------------------------------------------------------- no deadlock

  /** A worker waits when its top asks for a cell some worker is still building. */
  ghost predicate Waits(sc: Scene, cells: map<Key, Cell>, s: seq<Frame>) {
    && s != []
    && var act := NextAct(sc, cells, s[|s| - 1]);
       act.Asks? && act.key in cells
  }

  /** Whoever waits, someone does not: following the waits climbs the ranks. */
  lemma {:induction false} SomeoneMoves(sc: Scene, cells: map<Key, Cell>, stacks: seq<seq<Frame>>, w: nat) returns (mover: nat)
    requires Sound(sc) && Coherent(sc, cells, stacks) && w < |stacks| && stacks[w] != []
    ensures mover < |stacks| && stacks[mover] != [] && !Waits(sc, cells, stacks[mover])
    decreases TOP_RANK - Rank(stacks[w][|stacks[w]| - 1].key)
  {
    hide Uncached, OnCourse, KnownKey, NextAct;
    var s := stacks[w];
    var top := s[|s| - 1];
    assert StackOwned(sc, cells, w, s) && FrameOwned(sc, cells, w, top);
    ActOnCourse(sc, cells, top);
    if Waits(sc, cells, s) {
      var k := NextAct(sc, cells, top).key;
      var owner := cells[k].worker;
      assert Holds(stacks[owner], k);
      var j :| 0 <= j < |stacks[owner]| && stacks[owner][j].key == k;
      assert Rises(stacks[owner]);
      mover := SomeoneMoves(sc, cells, stacks, owner);
    } else {
      mover := w;
    }
  }

  // ---------------------------------------------------------------- every run ends

  ghost function KeysOf(sc: Scene): set<Key> {
    (set i: nat | i < |sc.elements| :: ElementKey(i))
    + (set r: nat, s, d: nat | r < |sc.reps| && s in {sc.unit, 1.0} && d < MAX_MAP_DEPTH :: ShapeKey(r, s, d))
    + (set i: nat, s | i < |sc.items| && s in {sc.unit, 1.0} :: BoxKey(i, s))
    + (set l: nat | l < |sc.lists| :: ListKey(l))
  }

  lemma {:induction false} KnownInKeys(sc: Scene, k: Key)
    requires KnownKey(sc, k)
    ensures k in KeysOf(sc)
  {
  }

  /** Cells nobody has asked for yet. */
  ghost function Untouched(sc: Scene, cells: map<Key, Cell>): nat { |KeysOf(sc) - cells.Keys| }

  lemma {:induction false} Touched(sc: Scene, cells: map<Key, Cell>, k: Key, c: Cell)
    requires KnownKey(sc, k) && k !in cells
    ensures Untouched(sc, cells[k := c]) < Untouched(sc, cells)
  {
    KnownInKeys(sc, k);
    assert KeysOf(sc) - cells[k := c].Keys == KeysOf(sc) - cells.Keys - {k};
  }

  lemma {:induction false} SameTouched(sc: Scene, cells: map<Key, Cell>, k: Key, c: Cell)
    requires k in cells
    ensures Untouched(sc, cells[k := c]) == Untouched(sc, cells)
  {
    assert cells[k := c].Keys == cells.Keys;
  }

  /** Turns left on a stack, and on all of them. */
  ghost function StackWork(s: seq<Frame>): nat {
    if s == [] then 0 else StackWork(s[..|s| - 1]) + |s[|s| - 1].union.todo| + 1
  }

  ghost function Work(stacks: seq<seq<Frame>>): nat {
    if stacks == [] then 0 else Work(stacks[..|stacks| - 1]) + StackWork(stacks[|stacks| - 1])
  }

  lemma {:induction false} WorkChanged(stacks: seq<seq<Frame>>, w: nat, s: seq<Frame>)
    requires w < |stacks|
    ensures Work(stacks[w := s]) == Work(stacks) - StackWork(stacks[w]) + StackWork(s)
  {
    var stacks' := stacks[w := s];
    if w == |stacks| - 1 {
      assert stacks'[..w] == stacks[..w];
    } else {
      assert stacks'[..|stacks| - 1] == stacks[..|stacks| - 1][w := s];
      WorkChanged(stacks[..|stacks| - 1], w, s);
    }
  }

  lemma {:induction false} TopWork(s: seq<Frame>, f: Frame)
    requires s != []
    ensures StackWork(s[|s| - 1 := f]) == StackWork(s[..|s| - 1]) + |f.union.todo| + 1
  {
    assert s[|s| - 1 := f][..|s| - 1] == s[..|s| - 1];
  }

  // ---------------------------------------------------------------- the build

  datatype Warning = NoGeometry(element: nat) | PartialGeometry(element: nat) | OverBudget(element: nat)

  /** An element's mesh, meshed alone and uncached. */
  function ElementMesh(sc: Scene, i: nat): Mesh {
    var v := Uncached(sc, ElementKey(i));
    if v.MeshVal? then v.mesh else NOTHING
  }

  /** The warnings of the first `n` elements, in element order. */
  function Warnings(meshes: seq<Mesh>, n: nat): seq<Warning>
    requires n <= |meshes|
  {
    if n == 0 then []
    else
      var m := meshes[n - 1];
      Warnings(meshes, n - 1)
        + (if m.verts == [] then [NoGeometry(n - 1)] else if m.partial then [PartialGeometry(n - 1)] else [])
        + (if m.overBudget then [OverBudget(n - 1)] else [])
  }

  /** An element is warned of when its mesh is empty, when it is partial though not empty, and
      when it went over its budget. */
  lemma {:induction false} WarningsExact(meshes: seq<Mesh>, n: nat, w: Warning)
    requires n <= |meshes|
    ensures w in Warnings(meshes, n) <==>
      w.element < n && (match w
        case NoGeometry(i) => meshes[i].verts == []
        case PartialGeometry(i) => meshes[i].verts != [] && meshes[i].partial
        case OverBudget(i) => meshes[i].overBudget)
  {
    if n > 0 { WarningsExact(meshes, n - 1, w); }
  }

  /** The elements drawn so far are those below the counter. */
  ghost predicate Drawn(sc: Scene, cells: map<Key, Cell>, next: nat) {
    forall i: nat {:trigger ElementKey(i)} :: ElementKey(i) in cells <==> i < next && i < |sc.elements|
  }

  lemma {:induction false} DrawOne(sc: Scene, cells: map<Key, Cell>, next: nat, c: Cell)
    requires Drawn(sc, cells, next)
    ensures next < |sc.elements| ==> ElementKey(next) !in cells && Drawn(sc, cells[ElementKey(next) := c], next + 1)
    ensures next >= |sc.elements| ==> Drawn(sc, cells, next + 1)
  {
  }

  lemma {:induction false} DrawnKept(sc: Scene, cells: map<Key, Cell>, next: nat, k: Key, c: Cell)
    requires Drawn(sc, cells, next) && (!k.ElementKey? || k in cells)
    ensures Drawn(sc, cells[k := c], next)
  {
  }

  class Build {
    const sc: Scene
    var cells: map<Key, Cell>
    var stacks: seq<seq<Frame>>
    var next: nat
    var exited: set<nat>

    ghost predicate Valid()
      reads this
    {
      && Sound(sc) && Coherent(sc, cells, stacks)
      && Drawn(sc, cells, next)
      && (forall w <- exited :: w < |stacks| && stacks[w] == [])
      && (exited != {} ==> next >= |sc.elements|)
    }

    /** Worker `w` is neither finished nor waiting for a cell. */
    predicate CanMove(w: nat)
      reads this
    {
      && w < |stacks|
      && if stacks[w] == [] then w !in exited
         else
           var act := NextAct(sc, cells, stacks[w][|stacks[w]| - 1]);
           !(act.Asks? && act.key in cells)
    }

    constructor (scene: Scene, workers: nat)
      requires Sound(scene)
      ensures sc == scene && |stacks| == workers && Valid()
    {
      sc, cells, stacks, next, exited := scene, map[], seq(workers, _ => []), 0, {};
    }

    /** An idle worker draws the next element, or leaves when there is none. */
    method Draw(w: nat)
      requires Valid() && w < |stacks| && stacks[w] == [] && w !in exited
      modifies this
      ensures Valid() && |stacks| == |old(stacks)|
      ensures Untouched(sc, cells) < old(Untouched(sc, cells))
           || (Untouched(sc, cells) == old(Untouched(sc, cells)) && stacks == old(stacks) && exited == old(exited) + {w})
    {
      hide Uncached, OnCourse, NextAct, KnownKey, Drawn, Coherent, Untouched, Rank, Begin;
      var i := next;
      DrawOne(sc, cells, next, Building(w));
      next := next + 1;
      if i >= |sc.elements| {
        exited := exited + {w};
        return;
      }
      var k := ElementKey(i);
      DrawnKey(sc, i);
      Pushed(sc, cells, stacks, w, k);
      Touched(sc, cells, k, Building(w));
      cells, stacks := cells[k := Building(w)], stacks[w := stacks[w] + [Frame(k, Begin(sc, k))]];
    }

    /** A busy worker moves on from the top of its stack. */
    method Move(w: nat)
      requires Valid() && CanMove(w) && stacks[w] != []
      modifies this`cells, this`stacks
      ensures Valid() && |stacks| == |old(stacks)|
      ensures Untouched(sc, cells) < old(Untouched(sc, cells))
           || (Untouched(sc, cells) == old(Untouched(sc, cells)) && Work(stacks) < old(Work(stacks)))
    {
      hide Uncached, OnCourse, NextAct, KnownKey, Untouched, StackWork, Work, Rank, Drawn;
      var s := stacks[w];
      var top := s[|s| - 1];
      assert StackOwned(sc, cells, w, s) && FrameOwned(sc, cells, w, top) && Rises(s);
      ActOnCourse(sc, cells, top);
      match NextAct(sc, cells, top)
      case Asks(k) =>
        Pushed(sc, cells, stacks, w, k);
        Touched(sc, cells, k, Building(w));
        AskedRank(k, top.key);
        DrawnKept(sc, cells, next, k, Building(w));
        hide Coherent;
        cells, stacks := cells[k := Building(w)], stacks[w := s + [Frame(k, Begin(sc, k))]];
      case Goes(u) =>
        Advanced(sc, cells, stacks, w, u);
        GoesWork(stacks, w, u);
        hide Coherent;
        stacks := stacks[w := s[|s| - 1 := Frame(top.key, u)]];
      case Publishes(v) =>
        Published(sc, cells, stacks, w, v);
        PublishesWork(stacks, w);
        SameTouched(sc, cells, top.key, Done(v));
        DrawnKept(sc, cells, next, top.key, Done(v));
        hide Coherent;
        cells, stacks := cells[top.key := Done(v)], stacks[w := s[..|s| - 1]];
    }
  }

  lemma {:induction false} DrawnKey(sc: Scene, i: nat)
    requires i < |sc.elements|
    ensures KnownKey(sc, ElementKey(i))
  {
  }

  /** A cell asked for on behalf of another is never an element's slot. */
  lemma {:induction false} AskedRank(k: Key, by0: Key)
    requires Rank(k) > Rank(by0)
    ensures !k.ElementKey?
  {
  }

  lemma {:induction false} GoesWork(stacks: seq<seq<Frame>>, w: nat, u: Union)
    requires w < |stacks| && stacks[w] != [] && |u.todo| < |stacks[w][|stacks[w]| - 1].union.todo|
    ensures var s := stacks[w]; Work(stacks[w := s[|s| - 1 := Frame(s[|s| - 1].key, u)]]) < Work(stacks)
  {
    var s := stacks[w];
    TopWork(s, Frame(s[|s| - 1].key, u));
    WorkChanged(stacks, w, s[|s| - 1 := Frame(s[|s| - 1].key, u)]);
  }

  lemma {:induction false} PublishesWork(stacks: seq<seq<Frame>>, w: nat)
    requires w < |stacks| && stacks[w] != []
    ensures var s := stacks[w]; Work(stacks[w := s[..|s| - 1]]) < Work(stacks)
  {
    var s := stacks[w];
    WorkChanged(stacks, w, s[..|s| - 1]);
  }

  lemma {:induction false} BuilderBusy(cells: map<Key, Cell>, stacks: seq<seq<Frame>>, k: Key)
    requires Attended(cells, stacks) && k in cells && cells[k].Building?
    ensures cells[k].worker < |stacks| && stacks[cells[k].worker] != []
  {
    assert Holds(stacks[cells[k].worker], k);
  }

  /** When every worker has left, every cell asked for holds its uncached value, and every
      element's slot is one of them. */
  lemma {:induction false} AllBuilt(sc: Scene, cells: map<Key, Cell>, stacks: seq<seq<Frame>>, next: nat)
    requires Sound(sc) && Coherent(sc, cells, stacks) && Drawn(sc, cells, next) && next >= |sc.elements|
    requires forall w :: 0 <= w < |stacks| ==> stacks[w] == []
    ensures forall k <- cells :: cells[k] == Done(Uncached(sc, k))
    ensures forall i: nat :: i < |sc.elements| ==> ElementKey(i) in cells
  {
    hide Uncached, OnCourse, KnownKey;
    forall k | k in cells ensures cells[k] == Done(Uncached(sc, k)) {
      if cells[k].Building? { BuilderBusy(cells, stacks, k); }
    }
  }

  /** Builds every element's mesh. At every turn an arbitrary worker that can move does; the
      run ends, and neither the meshes, nor what each element and each shared cell was
      charged, nor the warnings depend on the schedule. `built` is the cache at the end. */
  method BuildScene(sc: Scene, procs: nat) returns (meshes: seq<Mesh>, warnings: seq<Warning>, built: map<Key, Val>)
    requires Sound(sc) && procs > 0
    ensures |meshes| == |sc.elements|
    ensures forall i :: 0 <= i < |meshes| ==> meshes[i] == ElementMesh(sc, i)
    ensures forall i: nat :: i < |meshes| ==> Drawing.Shows(meshes[i], Drawing.ElementParts(sc, i))
    ensures forall k <- built :: built[k] == Uncached(sc, k)
    ensures forall i: nat :: i < |sc.elements| ==> ElementKey(i) in built
    ensures warnings == Warnings(meshes, |meshes|)
  {
    hide Uncached, NextAct, Coherent, Drawn, Untouched, Work, Drawing.Shows, Drawing.ElementParts;
    var workers := if procs < |sc.elements| then procs else |sc.elements|;
    var b := new Build(sc, workers);
    while exists w :: 0 <= w < |b.stacks| && b.CanMove(w)
      invariant b.Valid() && b.sc == sc && |b.stacks| == workers
      decreases Untouched(sc, b.cells), Work(b.stacks), |b.stacks| - |b.exited|
    {
      var w: nat :| w < |b.stacks| && b.CanMove(w);
      if b.stacks[w] == [] {
        FewBelow(b.exited + {w}, workers);
        b.Draw(w);
      } else {
        b.Move(w);
      }
    }
    Finished(b);
    AllBuilt(sc, b.cells, b.stacks, b.next);
    var cells := b.cells;
    built := map k | k in cells && cells[k].Done? :: cells[k].value;
    meshes := [];
    for i := 0 to |sc.elements|
      invariant |meshes| == i && forall j :: 0 <= j < i ==> meshes[j] == ElementMesh(sc, j)
    {
      var v := built[ElementKey(i)];
      meshes := meshes + [if v.MeshVal? then v.mesh else NOTHING];
    }
    forall i: nat | i < |meshes| ensures Drawing.Shows(meshes[i], Drawing.ElementParts(sc, i)) { MeshShown(sc, i); }
    warnings := [];
    for i := 0 to |meshes|
      invariant warnings == Warnings(meshes, i)
    {
      var m := meshes[i];
      warnings := warnings
        + (if m.verts == [] then [NoGeometry(i)] else if m.partial then [PartialGeometry(i)] else [])
        + (if m.overBudget then [OverBudget(i)] else []);
    }
  }

  lemma {:induction false} MeshShown(sc: Scene, i: nat)
    requires Sound(sc)
    ensures Drawing.Shows(ElementMesh(sc, i), Drawing.ElementParts(sc, i))
  {
    hide Uncached, Drawing.Shows, Sound, Drawing.ElementParts;
    Drawing.ElementDrawn(sc, i);
  }

  /** While any worker is busy, some worker can move. */
  lemma {:induction false} NoDeadlock(b: Build, w: nat)
    requires b.Valid() && w < |b.stacks| && b.stacks[w] != []
    ensures exists m: nat :: m < |b.stacks| && b.CanMove(m)
  {
    hide NextAct, Coherent, Drawn;
    var mover := SomeoneMoves(b.sc, b.cells, b.stacks, w);
    assert b.CanMove(mover);
  }

  lemma {:induction false} Finished(b: Build)
    requires b.Valid() && forall w :: 0 <= w < |b.stacks| ==> !b.CanMove(w)
    requires |b.sc.elements| > 0 ==> |b.stacks| > 0
    ensures forall w :: 0 <= w < |b.stacks| ==> b.stacks[w] == []
    ensures b.next >= |b.sc.elements|
  {
    hide NextAct, Coherent, Drawn;
    forall w | 0 <= w < |b.stacks| ensures b.stacks[w] == [] {
      if b.stacks[w] != [] { NoDeadlock(b, w); }
    }
    if |b.stacks| > 0 {
      assert !b.CanMove(0);
    }
  }
}
