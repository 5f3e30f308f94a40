// A building slice as a grid: how the grid is sized without overflow, the flood fill that
// finds open air, and the probe that reads it.
module GeoOccupancy {

  // ---------------------------------------------------------------- cells

  function X(nx: nat, i: nat): nat
    requires nx > 0
  {
    i % nx
  }

  function Y(nx: nat, i: nat): nat
    requires nx > 0
  {
    i / nx
  }

  function Index(nx: nat, ix: nat, iy: nat): nat { iy * nx + ix }

  lemma {:induction false} IndexXY(nx: nat, ix: nat, iy: nat)
    requires ix < nx
    ensures X(nx, Index(nx, ix, iy)) == ix && Y(nx, Index(nx, ix, iy)) == iy
  {
    var i := iy * nx + ix;
    Divided(i, nx, iy, ix);
  }

  lemma {:induction false} Divided(i: nat, n: nat, q: nat, r: nat)
    requires n > 0 && i == q * n + r && r < n
    ensures i / n == q && i % n == r
  {
    var q', r' := i / n, i % n;
    assert i == q' * n + r' && r' < n;
    if q' < q {
      Steps(q' + 1, q, n);
    } else if q < q' {
      Steps(q + 1, q', n);
    }
  }

  lemma {:induction false} Steps(a: nat, b: nat, n: nat)
    requires a <= b
    ensures a * n <= b * n
  {
  }

  lemma {:induction false} IndexInside(nx: nat, ny: nat, ix: nat, iy: nat)
    requires ix < nx && iy < ny
    ensures Index(nx, ix, iy) < nx * ny
  {
    Steps(iy + 1, ny, nx);
    assert (iy + 1) * nx == iy * nx + nx;
    assert ny * nx == nx * ny;
  }

  lemma {:induction false} XYInside(nx: nat, ny: nat, i: nat)
    requires nx > 0 && i < nx * ny
    ensures X(nx, i) < nx && Y(nx, i) < ny && Index(nx, X(nx, i), Y(nx, i)) == i
  {
    var q := i / nx;
    assert i == q * nx + i % nx;
    if q >= ny { Steps(ny, q, nx); }
  }

  /** Two cells share a side. */
  predicate Neighbours(nx: nat, i: nat, j: nat)
    requires nx > 0
  {
    var (a, b, c, d) := (X(nx, i), Y(nx, i), X(nx, j), Y(nx, j));
    (a == c && (b + 1 == d || d + 1 == b)) || (b == d && (a + 1 == c || c + 1 == a))
  }

  predicate OnBorder(nx: nat, ny: nat, i: nat)
    requires nx > 0
  {
    X(nx, i) == 0 || X(nx, i) + 1 == nx || Y(nx, i) == 0 || Y(nx, i) + 1 == ny
  }

  // ---------------------------------------------------------------- reachability

  /** A side-to-side walk over empty cells that starts on the border. */
  ghost predicate Walk(solid: seq<bool>, nx: nat, ny: nat, p: seq<nat>)
    requires nx > 0
  {
    && p != [] && (forall k :: 0 <= k < |p| ==> p[k] < |solid| && !solid[p[k]])
    && OnBorder(nx, ny, p[0])
    && (forall k :: 0 < k < |p| ==> Neighbours(nx, p[k - 1], p[k]))
  }

  /** Open air: some such walk ends at the cell. */
  ghost predicate OpenAir(solid: seq<bool>, nx: nat, ny: nat, i: nat)
    requires nx > 0
  {
    exists p :: Walk(solid, nx, ny, p) && p[|p| - 1] == i
  }

  lemma {:induction false} BorderOpen(solid: seq<bool>, nx: nat, ny: nat, i: nat)
    requires nx > 0 && i < |solid| && !solid[i] && OnBorder(nx, ny, i)
    ensures OpenAir(solid, nx, ny, i)
  {
    assert Walk(solid, nx, ny, [i]) && [i][0] == i;
  }

  lemma {:induction false} NeighbourOpen(solid: seq<bool>, nx: nat, ny: nat, i: nat, j: nat)
    requires nx > 0 && OpenAir(solid, nx, ny, i) && j < |solid| && !solid[j] && Neighbours(nx, i, j)
    ensures OpenAir(solid, nx, ny, j)
  {
    var p :| Walk(solid, nx, ny, p) && p[|p| - 1] == i;
    hide X, Y, OnBorder, Neighbours;
    var q := p + [j];
    forall k | 0 < k < |q| ensures Neighbours(nx, q[k - 1], q[k]) { }
    assert q[0] == p[0];
    assert Walk(solid, nx, ny, q) && q[|q| - 1] == j;
  }

  /** Marks closed under empty neighbours that include the empty border. */
  ghost predicate Saturated(solid: seq<bool>, nx: nat, ny: nat, marks: seq<bool>)
    requires nx > 0 && |marks| == |solid|
  {
    && (forall i: nat :: i < |solid| && !solid[i] && OnBorder(nx, ny, i) ==> marks[i])
    && (forall i: nat, j: nat :: i < |solid| && j < |solid| && marks[i] && !solid[j] && Neighbours(nx, i, j) ==> marks[j])
  }

  lemma {:induction false} SaturatedReaches(solid: seq<bool>, nx: nat, ny: nat, marks: seq<bool>, p: seq<nat>)
    requires nx > 0 && |marks| == |solid| && Saturated(solid, nx, ny, marks) && Walk(solid, nx, ny, p)
    ensures marks[p[|p| - 1]]
    decreases |p|
  {
    hide X, Y, OnBorder, Neighbours;
    if |p| > 1 {
      var q := p[..|p| - 1];
      forall k | 0 < k < |q| ensures Neighbours(nx, q[k - 1], q[k]) { assert q[k - 1] == p[k - 1] && q[k] == p[k]; }
      assert q[0] == p[0];
      SaturatedReaches(solid, nx, ny, marks, q);
      assert Neighbours(nx, p[|p| - 2], p[|p| - 1]);
    }
  }

  // ---------------------------------------------------------------- the flood

  function Unmarked(marks: seq<bool>): nat {
    if marks == [] then 0 else Unmarked(marks[..|marks| - 1]) + if marks[|marks| - 1] then 0 else 1
  }

  lemma {:induction false} MarkOne(marks: seq<bool>, i: nat)
    requires i < |marks| && !marks[i]
    ensures Unmarked(marks[i := true]) == Unmarked(marks) - 1
  {
    var n := |marks| - 1;
    if i == n {
      assert marks[i := true][..n] == marks[..n];
    } else {
      assert marks[i := true][..n] == marks[..n][i := true];
      MarkOne(marks[..n], i);
    }
  }

  /** The flood under way: marks are open air, and a marked cell not queued has all its empty
      neighbours marked. */
  ghost predicate Flooding(solid: seq<bool>, nx: nat, ny: nat, marks: seq<bool>, queue: seq<nat>)
    requires nx > 0
  {
    && |marks| == |solid| == nx * ny
    && (forall i: nat :: i < |solid| && marks[i] ==> !solid[i] && OpenAir(solid, nx, ny, i))
    && (forall k :: 0 <= k < |queue| ==> queue[k] < |solid| && marks[queue[k]])
  }

  ghost predicate Settled(solid: seq<bool>, nx: nat, marks: seq<bool>, i: nat)
    requires nx > 0 && |marks| == |solid|
  {
    forall j: nat :: j < |solid| && !solid[j] && Neighbours(nx, i, j) ==> marks[j]
  }

  /** Every marked cell is settled, but for the queued ones and `but`. */
  ghost predicate Pending(solid: seq<bool>, nx: nat, marks: seq<bool>, queue: seq<nat>, but: nat)
    requires nx > 0 && |marks| == |solid|
  {
    forall i: nat :: i < |solid| && marks[i] && i !in queue && i != but ==> Settled(solid, nx, marks, i)
  }

  ghost predicate Grew(was: seq<bool>, now: seq<bool>) {
    |was| == |now| && forall i :: 0 <= i < |was| && was[i] ==> now[i]
  }

  lemma {:induction false} SettledKept(solid: seq<bool>, nx: nat, was: seq<bool>, now: seq<bool>, i: nat)
    requires nx > 0 && |was| == |solid| && Grew(was, now) && Settled(solid, nx, was, i)
    ensures Settled(solid, nx, now, i)
  {
    hide Neighbours;
  }

  /** Marking an open empty cell and queueing it. */
  lemma {:induction false} MarkStep(solid: seq<bool>, nx: nat, ny: nat, marks: seq<bool>, queue: seq<nat>, but: nat, i: nat)
    requires nx > 0 && Flooding(solid, nx, ny, marks, queue) && Pending(solid, nx, marks, queue, but)
    requires i < |solid| && !solid[i] && !marks[i] && OpenAir(solid, nx, ny, i)
    ensures Flooding(solid, nx, ny, marks[i := true], queue + [i]) && Pending(solid, nx, marks[i := true], queue + [i], but)
    ensures Unmarked(marks[i := true]) < Unmarked(marks) && Grew(marks, marks[i := true])
  {
    hide OpenAir, Settled;
    MarkOne(marks, i);
    var now := marks[i := true];
    forall c: nat | c < |solid| && now[c] && c !in queue + [i] && c != but ensures Settled(solid, nx, now, c) {
      assert c != i && marks[c];
      SettledKept(solid, nx, marks, now, c);
    }
  }

  /** The cell at (ix, iy), if empty, is open air. */
  ghost predicate Beside(solid: seq<bool>, nx: nat, ny: nat, ix: nat, iy: nat)
    requires nx > 0
  {
    Index(nx, ix, iy) < |solid| && (!solid[Index(nx, ix, iy)] ==> OpenAir(solid, nx, ny, Index(nx, ix, iy)))
  }

  /** The cell at (ix, iy), if empty, is marked. */
  predicate Done(solid: seq<bool>, nx: nat, marks: seq<bool>, ix: nat, iy: nat)
    requires |marks| == |solid|
  {
    var j := Index(nx, ix, iy);
    j < |solid| ==> solid[j] || marks[j]
  }

  lemma {:induction false} DoneKept(solid: seq<bool>, nx: nat, was: seq<bool>, now: seq<bool>, ix: nat, iy: nat)
    requires |was| == |solid| && Grew(was, now) && Done(solid, nx, was, ix, iy)
    ensures Done(solid, nx, now, ix, iy)
  {
  }

  /** The first `k` cells of the top and bottom rows, or of the side columns, are done. */
  predicate RowsDone(solid: seq<bool>, nx: nat, ny: nat, marks: seq<bool>, k: nat)
    requires |marks| == |solid| && ny > 0
  {
    forall x: nat {:trigger Done(solid, nx, marks, x, 0)} :: x < k ==> Done(solid, nx, marks, x, 0) && Done(solid, nx, marks, x, ny - 1)
  }

  predicate ColumnsDone(solid: seq<bool>, nx: nat, ny: nat, marks: seq<bool>, k: nat)
    requires |marks| == |solid| && nx > 0
  {
    forall y: nat {:trigger Done(solid, nx, marks, 0, y)} :: y < k ==> Done(solid, nx, marks, 0, y) && Done(solid, nx, marks, nx - 1, y)
  }

  lemma {:induction false} RowsKept(solid: seq<bool>, nx: nat, ny: nat, was: seq<bool>, now: seq<bool>, k: nat)
    requires |was| == |solid| && ny > 0 && Grew(was, now) && RowsDone(solid, nx, ny, was, k)
    ensures RowsDone(solid, nx, ny, now, k)
  {
    hide Done;
    forall x: nat | x < k ensures Done(solid, nx, now, x, 0) && Done(solid, nx, now, x, ny - 1) {
      assert Done(solid, nx, was, x, 0) && Done(solid, nx, was, x, ny - 1);
      DoneKept(solid, nx, was, now, x, 0);
      DoneKept(solid, nx, was, now, x, ny - 1);
    }
  }

  lemma {:induction false} ColumnsKept(solid: seq<bool>, nx: nat, ny: nat, was: seq<bool>, now: seq<bool>, k: nat)
    requires |was| == |solid| && nx > 0 && Grew(was, now) && ColumnsDone(solid, nx, ny, was, k)
    ensures ColumnsDone(solid, nx, ny, now, k)
  {
    hide Done;
    forall y: nat | y < k ensures Done(solid, nx, now, 0, y) && Done(solid, nx, now, nx - 1, y) {
      assert Done(solid, nx, was, 0, y) && Done(solid, nx, was, nx - 1, y);
      DoneKept(solid, nx, was, now, 0, y);
      DoneKept(solid, nx, was, now, nx - 1, y);
    }
  }

  lemma {:induction false} NoneDone(solid: seq<bool>, nx: nat, ny: nat, marks: seq<bool>)
    requires |marks| == |solid| && nx > 0 && ny > 0
    ensures RowsDone(solid, nx, ny, marks, 0) && ColumnsDone(solid, nx, ny, marks, 0)
  {
  }

  /** One more cell of the top and of the bottom row. */
  lemma {:induction false} RowsNext(solid: seq<bool>, nx: nat, ny: nat, a: seq<bool>, b: seq<bool>, c: seq<bool>, k: nat)
    requires |a| == |b| == |c| == |solid| && ny > 0 && Grew(a, b) && Grew(b, c) && RowsDone(solid, nx, ny, a, k)
    requires Done(solid, nx, b, k, 0) && Done(solid, nx, c, k, ny - 1)
    ensures Grew(a, c) && RowsDone(solid, nx, ny, c, k + 1)
  {
    DoneKept(solid, nx, b, c, k, 0);
    GrewChain(a, b, c);
    RowsKept(solid, nx, ny, a, c, k);
    hide Done, Grew;
  }

  lemma {:induction false} ColumnsNext(solid: seq<bool>, nx: nat, ny: nat, a: seq<bool>, b: seq<bool>, c: seq<bool>, k: nat)
    requires |a| == |b| == |c| == |solid| && nx > 0 && Grew(a, b) && Grew(b, c) && ColumnsDone(solid, nx, ny, a, k)
    requires Done(solid, nx, b, 0, k) && Done(solid, nx, c, nx - 1, k)
    ensures Grew(a, c) && ColumnsDone(solid, nx, ny, c, k + 1)
  {
    DoneKept(solid, nx, b, c, 0, k);
    GrewChain(a, b, c);
    ColumnsKept(solid, nx, ny, a, c, k);
    hide Done, Grew;
  }

  lemma {:induction false} BorderDone(solid: seq<bool>, nx: nat, ny: nat, marks: seq<bool>, i: nat)
    requires nx > 0 && ny > 0 && |marks| == |solid| == nx * ny && i < |solid| && OnBorder(nx, ny, i) && !solid[i]
    requires RowsDone(solid, nx, ny, marks, nx) && ColumnsDone(solid, nx, ny, marks, ny)
    ensures marks[i]
  {
    XYInside(nx, ny, i);
    hide X, Y;
    assert Done(solid, nx, marks, X(nx, i), 0) && Done(solid, nx, marks, 0, Y(nx, i));
    assert Done(solid, nx, marks, X(nx, i), Y(nx, i));
  }

  /** Something was marked, or nothing changed. */
  ghost predicate Progress(was: seq<bool>, queue: seq<nat>, now: seq<bool>, queue': seq<nat>) {
    Unmarked(now) < Unmarked(was) || (now == was && queue' == queue)
  }

  lemma {:induction false} ProgressChain(a: seq<bool>, p: seq<nat>, b: seq<bool>, q: seq<nat>, c: seq<bool>, r: seq<nat>)
    requires Progress(a, p, b, q) && Progress(b, q, c, r)
    ensures Progress(a, p, c, r)
  {
    hide Unmarked;
  }

  lemma {:induction false} GrewChain(a: seq<bool>, b: seq<bool>, c: seq<bool>)
    requires Grew(a, b) && Grew(b, c)
    ensures Grew(a, c)
  {
  }

  class Occupancy {
    const nx: nat
    const ny: nat
    const solid: array<bool>
    const outside: array<bool>

    ghost predicate Valid()
      reads this, solid, outside
    {
      nx > 0 && ny > 0 && solid != outside && solid.Length == outside.Length == nx * ny
    }

    constructor (columns: nat, rows: nat, filled: array<bool>)
      requires columns > 0 && rows > 0 && filled.Length == columns * rows
      ensures nx == columns && ny == rows && solid == filled && fresh(outside) && Valid()
      ensures forall i :: 0 <= i < outside.Length ==> !outside[i]
    {
      nx, ny, solid := columns, rows, filled;
      outside := new bool[columns * rows](_ => false);
    }

    /** Marks and queues an empty cell not marked before. */
    method Push(ix: nat, iy: nat, queue: seq<nat>, ghost but: nat) returns (queue': seq<nat>)
      requires Valid() && ix < nx && iy < ny && Beside(solid[..], nx, ny, ix, iy)
      requires Flooding(solid[..], nx, ny, outside[..], queue) && Pending(solid[..], nx, outside[..], queue, but)
      modifies outside
      ensures Valid() && Grew(old(outside[..]), outside[..])
      ensures Flooding(solid[..], nx, ny, outside[..], queue') && Pending(solid[..], nx, outside[..], queue', but)
      ensures Done(solid[..], nx, outside[..], ix, iy)
      ensures Progress(old(outside[..]), queue, outside[..], queue')
    {
      hide OpenAir, Pending, Flooding, Unmarked;
      queue' := queue;
      var i := iy * nx + ix;
      if solid[i] || outside[i] {
        return;
      }
      MarkStep(solid[..], nx, ny, outside[..], queue, but, i);
      ghost var was := outside[..];
      outside[i] := true;
      assert outside[..] == was[i := true];
      queue' := queue + [i];
    }

    /** A border cell, if empty, is open air. */
    method PushBorder(ix: nat, iy: nat, queue: seq<nat>) returns (queue': seq<nat>)
      requires Valid() && ix < nx && iy < ny && (ix == 0 || ix + 1 == nx || iy == 0 || iy + 1 == ny)
      requires Flooding(solid[..], nx, ny, outside[..], queue) && Pending(solid[..], nx, outside[..], queue, nx * ny)
      modifies outside
      ensures Valid() && Grew(old(outside[..]), outside[..])
      ensures Flooding(solid[..], nx, ny, outside[..], queue') && Pending(solid[..], nx, outside[..], queue', nx * ny)
      ensures Done(solid[..], nx, outside[..], ix, iy)
    {
      hide OpenAir, Pending, Flooding, Unmarked, Done, Grew;
      BorderBeside(solid[..], nx, ny, ix, iy);
      queue' := Push(ix, iy, queue, nx * ny);
    }

    /** Queues the border's empty cells. */
    method SeedBorder() returns (queue: seq<nat>)
      requires Valid() && forall i :: 0 <= i < outside.Length ==> !outside[i]
      modifies outside
      ensures Valid() && Flooding(solid[..], nx, ny, outside[..], queue) && Pending(solid[..], nx, outside[..], queue, nx * ny)
      ensures RowsDone(solid[..], nx, ny, outside[..], nx) && ColumnsDone(solid[..], nx, ny, outside[..], ny)
    {
      queue := [];
      ghost var s := solid[..];
      NothingMarked(s, nx, ny, outside[..]);
      NoneDone(s, nx, ny, outside[..]);
      hide Pending, Flooding, Done, Grew, RowsDone, ColumnsDone;
      for ix := 0 to nx
        invariant Valid() && solid[..] == s && Flooding(s, nx, ny, outside[..], queue) && Pending(s, nx, outside[..], queue, nx * ny)
        invariant RowsDone(s, nx, ny, outside[..], ix)
      {
        ghost var a := outside[..];
        queue := PushBorder(ix, 0, queue);
        ghost var b := outside[..];
        queue := PushBorder(ix, ny - 1, queue);
        RowsNext(s, nx, ny, a, b, outside[..], ix);
      }
      NoneDone(s, nx, ny, outside[..]);
      for iy := 0 to ny
        invariant Valid() && solid[..] == s && Flooding(s, nx, ny, outside[..], queue) && Pending(s, nx, outside[..], queue, nx * ny)
        invariant RowsDone(s, nx, ny, outside[..], nx) && ColumnsDone(s, nx, ny, outside[..], iy)
      {
        ghost var a := outside[..];
        queue := PushBorder(0, iy, queue);
        ghost var b := outside[..];
        queue := PushBorder(nx - 1, iy, queue);
        ColumnsNext(s, nx, ny, a, b, outside[..], iy);
        RowsKept(s, nx, ny, a, outside[..], nx);
      }
    }

    /** Drains the queue: marks exactly the open air. */
    method FloodOutside()
      requires Valid() && forall i :: 0 <= i < outside.Length ==> !outside[i]
      modifies outside
      ensures Valid()
      ensures forall i: nat :: i < outside.Length ==> (outside[i] <==> !solid[i] && OpenAir(solid[..], nx, ny, i))
    {
      hide OpenAir, Pending, Flooding, Unmarked, Neighbours, X, Y, OnBorder, RowsDone, ColumnsDone, Grew;
      ghost var s := solid[..];
      var queue := SeedBorder();
      while |queue| > 0
        invariant Valid() && solid[..] == s && Flooding(s, nx, ny, outside[..], queue) && Pending(s, nx, outside[..], queue, nx * ny)
        invariant RowsDone(s, nx, ny, outside[..], nx) && ColumnsDone(s, nx, ny, outside[..], ny)
        decreases Unmarked(outside[..]), |queue|
      {
        var i := queue[|queue| - 1];
        Popped(s, nx, ny, outside[..], queue);
        queue := queue[..|queue| - 1];
        ghost var was := outside[..];
        queue := Spread(i, queue);
        RowsKept(s, nx, ny, was, outside[..], nx);
        ColumnsKept(s, nx, ny, was, outside[..], ny);
      }
      assert queue == [];
      forall i: nat | i < |s| && OnBorder(nx, ny, i) && !s[i] ensures outside[..][i] { BorderDone(s, nx, ny, outside[..], i); }
      Drained(s, nx, ny, outside[..]);
    }

    /** Marks a marked cell's empty neighbours. */
    method Spread(i: nat, queue: seq<nat>) returns (queue': seq<nat>)
      requires Valid() && i < solid.Length && outside[i] && !solid[i]
      requires Flooding(solid[..], nx, ny, outside[..], queue) && Pending(solid[..], nx, outside[..], queue, i)
      modifies outside
      ensures Valid() && Grew(old(outside[..]), outside[..])
      ensures Flooding(solid[..], nx, ny, outside[..], queue') && Pending(solid[..], nx, outside[..], queue', nx * ny)
      ensures Progress(old(outside[..]), queue, outside[..], queue')
    {
      hide Pending, Flooding, Progress, Beside, Done, Grew, Index, X, Y;
      ghost var s, m0 := solid[..], outside[..];
      var ix, iy := X(nx, i), Y(nx, i);
      Around(s, nx, ny, m0, queue, i);
      var q1 := PushWhen(ix > 0, ix - 1, iy, queue, i);
      ghost var m1 := outside[..];
      var q2 := PushWhen(ix + 1 < nx, ix + 1, iy, q1, i);
      ghost var m2 := outside[..];
      var q3 := PushWhen(iy > 0, ix, iy - 1, q2, i);
      ghost var m3 := outside[..];
      queue' := PushWhen(iy + 1 < ny, ix, iy + 1, q3, i);
      ghost var m4 := outside[..];
      SpreadSteps(s, nx, ny, i, m0, queue, m1, q1, m2, q2, m3, q3, m4, queue');
    }

    /** Pushes a cell that lies inside the grid. */
    method PushWhen(inside: bool, ix: int, iy: int, queue: seq<nat>, ghost but: nat) returns (queue': seq<nat>)
      requires Valid() && (inside ==> 0 <= ix < nx && 0 <= iy < ny && Beside(solid[..], nx, ny, ix, iy))
      requires Flooding(solid[..], nx, ny, outside[..], queue) && Pending(solid[..], nx, outside[..], queue, but)
      modifies outside
      ensures Valid() && Grew(old(outside[..]), outside[..])
      ensures Flooding(solid[..], nx, ny, outside[..], queue') && Pending(solid[..], nx, outside[..], queue', but)
      ensures inside ==> Done(solid[..], nx, outside[..], ix, iy)
      ensures Progress(old(outside[..]), queue, outside[..], queue')
    {
      hide Pending, Flooding, Beside, Done;
      queue' := queue;
      if inside {
        queue' := Push(ix, iy, queue, but);
      }
    }
  }

  /** Four pushes round a cell settle it. */
  lemma {:induction false} SpreadSteps(solid: seq<bool>, nx: nat, ny: nat, i: nat, m0: seq<bool>, q0: seq<nat>, m1: seq<bool>, q1: seq<nat>,
                                       m2: seq<bool>, q2: seq<nat>, m3: seq<bool>, q3: seq<nat>, m4: seq<bool>, q4: seq<nat>)
    requires nx > 0 && i < |solid| == nx * ny && |m0| == |solid|
    requires Grew(m0, m1) && Grew(m1, m2) && Grew(m2, m3) && Grew(m3, m4)
    requires Progress(m0, q0, m1, q1) && Progress(m1, q1, m2, q2) && Progress(m2, q2, m3, q3) && Progress(m3, q3, m4, q4)
    requires Pending(solid, nx, m4, q4, i)
    requires var ix, iy := X(nx, i), Y(nx, i);
      && (ix > 0 ==> Done(solid, nx, m1, ix - 1, iy)) && (ix + 1 < nx ==> Done(solid, nx, m2, ix + 1, iy))
      && (iy > 0 ==> Done(solid, nx, m3, ix, iy - 1)) && (iy + 1 < ny ==> Done(solid, nx, m4, ix, iy + 1))
    ensures Grew(m0, m4) && Progress(m0, q0, m4, q4) && Pending(solid, nx, m4, q4, nx * ny)
  {
    hide Pending, Progress, Done, X, Y;
    var ix, iy := X(nx, i), Y(nx, i);
    GrewChain(m2, m3, m4);
    GrewChain(m1, m2, m4);
    GrewChain(m0, m1, m4);
    ProgressChain(m2, q2, m3, q3, m4, q4);
    ProgressChain(m1, q1, m2, q2, m4, q4);
    ProgressChain(m0, q0, m1, q1, m4, q4);
    assert |m1| == |m2| == |m3| == |m4| == |solid|;
    if ix > 0 { DoneKept(solid, nx, m1, m4, ix - 1, iy); }
    if ix + 1 < nx { DoneKept(solid, nx, m2, m4, ix + 1, iy); }
    if iy > 0 { DoneKept(solid, nx, m3, m4, ix, iy - 1); }
    SpreadDone(solid, nx, ny, m4, q4, i);
  }

  lemma {:induction false} NothingMarked(solid: seq<bool>, nx: nat, ny: nat, marks: seq<bool>)
    requires nx > 0 && |marks| == |solid| == nx * ny && forall i :: 0 <= i < |marks| ==> !marks[i]
    ensures Flooding(solid, nx, ny, marks, []) && Pending(solid, nx, marks, [], nx * ny)
  {
  }

  lemma {:induction false} BorderBeside(solid: seq<bool>, nx: nat, ny: nat, ix: nat, iy: nat)
    requires |solid| == nx * ny && ix < nx && iy < ny && (ix == 0 || ix + 1 == nx || iy == 0 || iy + 1 == ny)
    ensures Beside(solid, nx, ny, ix, iy)
  {
    var i := Index(nx, ix, iy);
    IndexInside(nx, ny, ix, iy);
    IndexXY(nx, ix, iy);
    if !solid[i] { BorderOpen(solid, nx, ny, i); }
  }

  lemma {:induction false} BesideOpen(solid: seq<bool>, nx: nat, ny: nat, i: nat, ix: nat, iy: nat)
    requires nx > 0 && |solid| == nx * ny && i < |solid| && OpenAir(solid, nx, ny, i) && ix < nx && iy < ny
    requires (ix == X(nx, i) && (iy + 1 == Y(nx, i) || Y(nx, i) + 1 == iy)) || (iy == Y(nx, i) && (ix + 1 == X(nx, i) || X(nx, i) + 1 == ix))
    ensures Beside(solid, nx, ny, ix, iy)
  {
    IndexInside(nx, ny, ix, iy);
    IndexXY(nx, ix, iy);
    hide X, Y, OpenAir, Index;
    var j := Index(nx, ix, iy);
    if !solid[j] { NeighbourOpen(solid, nx, ny, i, j); }
  }

  /** All four cells beside a marked one. */
  lemma {:induction false} Around(solid: seq<bool>, nx: nat, ny: nat, marks: seq<bool>, queue: seq<nat>, i: nat)
    requires nx > 0 && Flooding(solid, nx, ny, marks, queue) && i < |solid| && marks[i]
    ensures var ix, iy := X(nx, i), Y(nx, i);
      && ix < nx && iy < ny
      && (ix > 0 ==> Beside(solid, nx, ny, ix - 1, iy)) && (ix + 1 < nx ==> Beside(solid, nx, ny, ix + 1, iy))
      && (iy > 0 ==> Beside(solid, nx, ny, ix, iy - 1)) && (iy + 1 < ny ==> Beside(solid, nx, ny, ix, iy + 1))
  {
    XYInside(nx, ny, i);
    var ix, iy := X(nx, i), Y(nx, i);
    hide X, Y, OpenAir, Beside, Index;
    if ix > 0 { BesideOpen(solid, nx, ny, i, ix - 1, iy); }
    if ix + 1 < nx { BesideOpen(solid, nx, ny, i, ix + 1, iy); }
    if iy > 0 { BesideOpen(solid, nx, ny, i, ix, iy - 1); }
    if iy + 1 < ny { BesideOpen(solid, nx, ny, i, ix, iy + 1); }
  }

  /** With all four sides done, the cell is settled. */
  lemma {:induction false} SpreadDone(solid: seq<bool>, nx: nat, ny: nat, marks: seq<bool>, queue: seq<nat>, i: nat)
    requires nx > 0 && |marks| == |solid| == nx * ny && i < |solid| && Pending(solid, nx, marks, queue, i)
    requires var ix, iy := X(nx, i), Y(nx, i);
      && (ix > 0 ==> Done(solid, nx, marks, ix - 1, iy)) && (ix + 1 < nx ==> Done(solid, nx, marks, ix + 1, iy))
      && (iy > 0 ==> Done(solid, nx, marks, ix, iy - 1)) && (iy + 1 < ny ==> Done(solid, nx, marks, ix, iy + 1))
    ensures Pending(solid, nx, marks, queue, nx * ny)
  {
    forall j: nat | j < |solid| && !solid[j] && Neighbours(nx, i, j) ensures marks[j] {
      XYInside(nx, ny, i);
      XYInside(nx, ny, j);
      assert Done(solid, nx, marks, X(nx, j), Y(nx, j));
    }
    assert Settled(solid, nx, marks, i);
    hide Settled, X, Y;
  }

  /** Taking a cell off the queue. */
  lemma {:induction false} Popped(solid: seq<bool>, nx: nat, ny: nat, marks: seq<bool>, queue: seq<nat>)
    requires nx > 0 && queue != [] && Flooding(solid, nx, ny, marks, queue) && Pending(solid, nx, marks, queue, nx * ny)
    ensures var i := queue[|queue| - 1];
      && i < |solid| && marks[i] && !solid[i]
      && Flooding(solid, nx, ny, marks, queue[..|queue| - 1]) && Pending(solid, nx, marks, queue[..|queue| - 1], i)
  {
    hide OpenAir, Settled;
    var n := |queue| - 1;
    assert queue == queue[..n] + [queue[n]];
  }

  lemma {:induction false} Drained(solid: seq<bool>, nx: nat, ny: nat, marks: seq<bool>)
    requires nx > 0 && Flooding(solid, nx, ny, marks, []) && Pending(solid, nx, marks, [], nx * ny)
    requires forall i: nat :: i < |solid| && OnBorder(nx, ny, i) && !solid[i] ==> marks[i]
    ensures forall i: nat :: i < |solid| ==> (marks[i] <==> !solid[i] && OpenAir(solid, nx, ny, i))
  {
    hide OnBorder, Neighbours, X, Y;
    forall i: nat, j: nat | i < |solid| && j < |solid| && marks[i] && !solid[j] && Neighbours(nx, i, j) ensures marks[j] {
      assert Settled(solid, nx, marks, i);
    }
    forall i: nat | i < |solid| && OpenAir(solid, nx, ny, i) ensures marks[i] {
      var p :| Walk(solid, nx, ny, p) && p[|p| - 1] == i;
      SaturatedReaches(solid, nx, ny, marks, p);
    }
  }

  // ---------------------------------------------------------------- sizing the grid

  const CELL: real := 0.1
  const PAD: real := 3.0 * CELL
  const MAX_CELLS: nat := 41943040

  /** An element as the grid sees it: whether it has triangles, and its box. */
  datatype Solid = Solid(meshed: bool, minX: real, minY: real, minZ: real, maxX: real, maxY: real, maxZ: real)

  /** The slice at `z` cuts the element. */
  predicate Cut(e: Solid, z: real) { e.meshed && e.minZ <= z <= e.maxZ }

  datatype Dims = NoGrid | Dims(originX: real, originY: real, nx: nat, ny: nat)

  /** A machine integer of some width, and how a real converts to it: truncated when it fits,
      anything at all when it does not. */
  datatype Machine = Machine(maxInt: int, convert: real -> int)

  function Trunc(r: real): int { if r >= 0.0 then r.Floor else -((-r).Floor) }

  ghost predicate Sane(m: Machine) {
    && m.maxInt >= 0x7FFF_FFFF
    && forall r {:trigger m.convert(r)} ::
        && -m.maxInt - 1 <= m.convert(r) <= m.maxInt
        && (-m.maxInt <= Trunc(r) <= m.maxInt ==> m.convert(r) == Trunc(r))
  }

  /** One more, wrapping round at the top. */
  function Next(m: Machine, i: int): int { if i == m.maxInt then -m.maxInt - 1 else i + 1 }

  /** The size guard: each axis before the product, and the product by division. */
  predicate Allowed(nx: int, ny: int) {
    !(nx <= 0 || ny <= 0 || nx > MAX_CELLS || ny > MAX_CELLS || nx > MAX_CELLS / ny)
  }

  lemma {:induction false} DivideExact(a: int, b: int, c: int)
    requires b > 0
    ensures a > c / b <==> a * b > c
  {
    var q := c / b;
    assert c == q * b + c % b;
    if a > q {
      assert a * b >= (q + 1) * b;
    } else {
      assert a * b <= q * b;
    }
  }

  /** The guard accepts exactly the positive sizes whose cells are within the cap, and no step
      of it, nor the product it licenses, leaves 32 bits. */
  lemma {:induction false} GuardExact(nx: int, ny: int)
    ensures Allowed(nx, ny) <==> nx > 0 && ny > 0 && nx * ny <= MAX_CELLS
    ensures Allowed(nx, ny) ==> 0 < nx * ny <= 0x7FFF_FFFF
  {
    if nx > 0 && ny > 0 {
      DivideExact(nx, ny, MAX_CELLS);
      assert nx * ny >= nx && nx * ny >= ny by { Grows(nx, ny); }
    }
  }

  lemma {:induction false} Grows(a: int, b: int)
    requires a > 0 && b > 0
    ensures a * b >= a && a * b >= b
  {
    assert a * b == a + a * (b - 1);
    assert a * b == b + b * (a - 1);
  }

  /** The smallest box round every element the slice cuts. */
  ghost predicate IsExtent(es: seq<Solid>, z: real, x0: real, y0: real, x1: real, y1: real) {
    && (forall e <- es :: Cut(e, z) ==> x0 <= e.minX && y0 <= e.minY && e.maxX <= x1 && e.maxY <= y1)
    && (exists e <- es :: Cut(e, z) && x0 == e.minX) && (exists e <- es :: Cut(e, z) && y0 == e.minY)
    && (exists e <- es :: Cut(e, z) && x1 == e.maxX) && (exists e <- es :: Cut(e, z) && y1 == e.maxY)
  }

  function Cells(m: Machine, w: real): int { Next(m, m.convert((w + 2.0 * PAD) / CELL)) }

  /** The column or row a coordinate falls in. */
  function CellAt(origin: real, v: real): int { ((v - origin) / CELL).Floor }

  function Lesser(a: real, b: real): real { if a <= b then a else b }
  function Greater(a: real, b: real): real { if a >= b then a else b }

  datatype Box = NoBox | Box(x0: real, y0: real, x1: real, y1: real)

  function Widened(b: Box, e: Solid): Box {
    if b.NoBox? then Box(e.minX, e.minY, e.maxX, e.maxY)
    else Box(Lesser(b.x0, e.minX), Lesser(b.y0, e.minY), Greater(b.x1, e.maxX), Greater(b.y1, e.maxY))
  }

  /** The box round the elements the slice cuts. */
  function Hull(es: seq<Solid>, z: real): Box {
    if es == [] then NoBox
    else
      var n := |es| - 1;
      if Cut(es[n], z) then Widened(Hull(es[..n], z), es[n]) else Hull(es[..n], z)
  }

  /** ... is the smallest such box, and absent exactly when nothing is cut. */
  lemma {:induction false} HullIsExtent(es: seq<Solid>, z: real)
    ensures Hull(es, z).NoBox? <==> forall e <- es :: !Cut(e, z)
    ensures Hull(es, z).Box? ==> var b := Hull(es, z); IsExtent(es, z, b.x0, b.y0, b.x1, b.y1)
  {
    if es != [] {
      var n := |es| - 1;
      assert es == es[..n] + [es[n]];
      HullIsExtent(es[..n], z);
      var b := Hull(es[..n], z);
      assert es[n] in es && forall e <- es[..n] :: e in es;
      if !Cut(es[n], z) {
        if b.Box? { ExtentSkips(es[..n], es[n], z, b.x0, b.y0, b.x1, b.y1); }
      } else if b.Box? {
        ExtentGrows(es[..n], es[n], z, b.x0, b.y0, b.x1, b.y1);
      }
    }
  }

  /** The grid for the slice at `z`. */
  function GridDims(m: Machine, es: seq<Solid>, z: real): Dims {
    match Hull(es, z)
    case NoBox => NoGrid
    case Box(x0, y0, x1, y1) =>
      var nx, ny := Cells(m, x1 - x0), Cells(m, y1 - y0);
      if Allowed(nx, ny) then Dims(x0 - PAD, y0 - PAD, nx, ny) else NoGrid
  }

  /** How many cells it takes: none when there is no grid. */
  function GridCells(m: Machine, es: seq<Solid>, z: real): (c: nat)
    ensures c <= MAX_CELLS
  {
    match GridDims(m, es, z)
    case NoGrid => 0
    case Dims(_, _, nx, ny) =>
      GuardExact(nx, ny);
      nx * ny
  }

  /** Sizes the grid for the slice at `z`, without allocating it. */
  method BandGridDims(m: Machine, es: seq<Solid>, z: real) returns (d: Dims)
    requires Sane(m)
    ensures d == GridDims(m, es, z)
    ensures d.Dims? ==> 0 < d.nx && 0 < d.ny && d.nx * d.ny <= MAX_CELLS
    ensures (forall e <- es :: !Cut(e, z)) ==> d.NoGrid?
    ensures forall x0, y0, x1, y1 :: IsExtent(es, z, x0, y0, x1, y1) ==>
      d == if Allowed(Cells(m, x1 - x0), Cells(m, y1 - y0)) then Dims(x0 - PAD, y0 - PAD, Cells(m, x1 - x0), Cells(m, y1 - y0)) else NoGrid
  {
    hide IsExtent;
    var any, x0, y0, x1, y1 := false, 0.0, 0.0, 0.0, 0.0;
    for i := 0 to |es|
      invariant Hull(es[..i], z) == if any then Box(x0, y0, x1, y1) else NoBox
    {
      var e := es[i];
      assert es[..i + 1][..i] == es[..i];
      if !e.meshed || e.minZ > z || e.maxZ < z {
        continue;
      }
      if any {
        x0, y0, x1, y1 := Lesser(x0, e.minX), Lesser(y0, e.minY), Greater(x1, e.maxX), Greater(y1, e.maxY);
      } else {
        any, x0, y0, x1, y1 := true, e.minX, e.minY, e.maxX, e.maxY;
      }
    }
    assert es[..|es|] == es;
    HullIsExtent(es, z);
    forall a, b, c, e | IsExtent(es, z, a, b, c, e) ensures any && a == x0 && b == y0 && c == x1 && e == y1 {
      ExtentCuts(es, z, a, b, c, e);
      ExtentUnique(es, z, x0, y0, x1, y1, a, b, c, e);
    }
    if !any {
      return NoGrid;
    }
    var nx, ny := Cells(m, x1 - x0), Cells(m, y1 - y0);
    GuardExact(nx, ny);
    if nx <= 0 || ny <= 0 || nx > MAX_CELLS || ny > MAX_CELLS || nx > MAX_CELLS / ny {
      return NoGrid;
    }
    d := Dims(x0 - PAD, y0 - PAD, nx, ny);
  }

  lemma {:induction false} ExtentCuts(es: seq<Solid>, z: real, x0: real, y0: real, x1: real, y1: real)
    requires IsExtent(es, z, x0, y0, x1, y1)
    ensures exists e <- es :: Cut(e, z)
  {
  }

  /** How many cells the slice's grid takes. */
  method BandGridCells(m: Machine, es: seq<Solid>, z: real) returns (c: nat)
    requires Sane(m)
    ensures c == GridCells(m, es, z)
  {
    var d := BandGridDims(m, es, z);
    if d.NoGrid? {
      return 0;
    }
    c := d.nx * d.ny;
  }

  lemma {:induction false} ExtentSkips(es: seq<Solid>, e: Solid, z: real, x0: real, y0: real, x1: real, y1: real)
    requires !Cut(e, z)
    ensures IsExtent(es, z, x0, y0, x1, y1) ==> IsExtent(es + [e], z, x0, y0, x1, y1)
    ensures (exists x <- es :: Cut(x, z)) <==> exists x <- es + [e] :: Cut(x, z)
  {
    assert forall x :: x in es + [e] <==> x in es || x == e;
  }

  lemma {:induction false} ExtentGrows(es: seq<Solid>, e: Solid, z: real, x0: real, y0: real, x1: real, y1: real)
    requires Cut(e, z) && IsExtent(es, z, x0, y0, x1, y1)
    ensures IsExtent(es + [e], z, Lesser(x0, e.minX), Lesser(y0, e.minY), Greater(x1, e.maxX), Greater(y1, e.maxY))
  {
    assert forall x :: x in es + [e] <==> x in es || x == e;
  }

  lemma {:induction false} ExtentUnique(es: seq<Solid>, z: real, x0: real, y0: real, x1: real, y1: real, a: real, b: real, c: real, d: real)
    requires IsExtent(es, z, x0, y0, x1, y1) && IsExtent(es, z, a, b, c, d)
    ensures a == x0 && b == y0 && c == x1 && d == y1
  {
  }

  lemma {:induction false} FloorOrder(u: real, v: real)
    requires u <= v
    ensures u.Floor <= v.Floor
  {
  }

  /** The padding ring is clear: whatever a cut element spans falls at least three cells inside
      the grid on every side, so the flood always starts in air outside the building. */
  lemma {:induction false} PaddingClear(m: Machine, lo: real, hi: real, v: real)
    requires Sane(m) && lo <= v <= hi && Trunc((hi - lo + 2.0 * PAD) / CELL) < m.maxInt
    ensures 3 <= CellAt(lo - 0.3, v) <= Cells(m, hi - lo) - 4 && CellAt(lo - 0.3, hi + 0.3) == Cells(m, hi - lo) - 1
  {
    var w := hi - lo;
    assert (w + 2.0 * PAD) / CELL == w * 10.0 + 6.0;
    assert (v - (lo - PAD)) / CELL == (v - lo) * 10.0 + 3.0;
    FloorOrder(0.0, (v - lo) * 10.0);
    FloorOrder((v - lo) * 10.0, w * 10.0);
    assert ((v - lo) * 10.0 + 3.0).Floor == ((v - lo) * 10.0).Floor + 3;
    assert (w * 10.0 + 6.0).Floor == (w * 10.0).Floor + 6;
  }

  // ---------------------------------------------------------------- the probe

  datatype Side = SideSolid | SideOutside | SideOffGrid | SideEnclosed | SideCovered

  /** Where sample `s` of a probe falls. */
  function SampleX(fromX: real, ux: real, s: nat): real { fromX + ux * (s as real) * (CELL / 2.0) }

  datatype Probe = Probe(originX: real, originY: real, fromX: real, fromY: real, ux: real, uy: real)

  function Column(p: Probe, s: nat): int { CellAt(p.originX, SampleX(p.fromX, p.ux, s)) }
  function Row(p: Probe, s: nat): int { CellAt(p.originY, SampleX(p.fromY, p.uy, s)) }

  predicate OnGrid(p: Probe, nx: nat, ny: nat, s: nat) { 0 <= Column(p, s) < nx && 0 <= Row(p, s) < ny }

  predicate InFabric(p: Probe, nx: nat, ny: nat, solid: seq<bool>, s: nat) {
    OnGrid(p, nx, ny, s) && Index(nx, Column(p, s), Row(p, s)) < |solid| && solid[Index(nx, Column(p, s), Row(p, s))]
  }

  /** The first sample that is not building fabric. */
  ghost predicate FirstAir(p: Probe, nx: nat, ny: nat, solid: seq<bool>, s: nat) {
    && 1 <= s <= 2 * (nx + ny) && !InFabric(p, nx, ny, solid, s)
    && forall t: nat :: 1 <= t < s ==> InFabric(p, nx, ny, solid, t)
  }

  /** What a probe finds at the first air it reaches. */
  ghost function Found(p: Probe, nx: nat, ny: nat, solid: seq<bool>, covered: seq<bool>, s: nat): Side
    requires |solid| == |covered| == nx * ny
  {
    if !OnGrid(p, nx, ny, s) then SideOffGrid
    else
      IndexInside(nx, ny, Column(p, s), Row(p, s));
      var i := Index(nx, Column(p, s), Row(p, s));
      if OpenAir(solid, nx, ny, i) then SideOutside else if covered[i] then SideCovered else SideEnclosed
  }

  /** Walks out of the fabric and reports the first air reached. On a flooded grid that is
      outside exactly when the first air cell has a walk over empty cells from the border. */
  method RunProbe(g: Occupancy, covered: array<bool>, p: Probe, length: real) returns (r: Side)
    requires g.Valid() && covered.Length == g.solid.Length
    requires forall i: nat :: i < g.outside.Length ==> (g.outside[i] <==> !g.solid[i] && OpenAir(g.solid[..], g.nx, g.ny, i))
    ensures length <= 0.0 ==> r == SideSolid
    ensures length > 0.0 ==> forall s: nat :: FirstAir(p, g.nx, g.ny, g.solid[..], s) ==> r == Found(p, g.nx, g.ny, g.solid[..], covered[..], s)
    ensures (forall s: nat :: !FirstAir(p, g.nx, g.ny, g.solid[..], s)) ==> r == SideSolid
    ensures length > 0.0 && p.ux * p.ux + p.uy * p.uy == 1.0 ==> r != SideSolid
  {
    if length <= 0.0 {
      return SideSolid;
    }
    hide OpenAir, Column, Row, Index, InFabric, FirstAir;
    ghost var solid := g.solid[..];
    for s := 1 to 2 * (g.nx + g.ny) + 1
      invariant forall t: nat :: 1 <= t < s ==> InFabric(p, g.nx, g.ny, solid, t)
    {
      var ix, iy := Column(p, s), Row(p, s);
      Sampled(p, g.nx, g.ny, solid, s);
      if ix < 0 || iy < 0 || ix >= g.nx || iy >= g.ny {
        OnlyFirst(p, g.nx, g.ny, solid, s);
        assert FirstAir(p, g.nx, g.ny, g.solid[..], s);
        return SideOffGrid;
      }
      var i := Index(g.nx, ix, iy);
      if g.solid[i] {
        continue;
      }
      OnlyFirst(p, g.nx, g.ny, solid, s);
      assert FirstAir(p, g.nx, g.ny, g.solid[..], s);
      return if g.outside[i] then SideOutside else if covered[i] then SideCovered else SideEnclosed;
    }
    NoAir(p, g.nx, g.ny, solid);
    ProbeLeaves(p, g.nx, g.ny, solid);
    r := SideSolid;
  }

  lemma {:induction false} Sampled(p: Probe, nx: nat, ny: nat, solid: seq<bool>, s: nat)
    requires |solid| == nx * ny
    ensures OnGrid(p, nx, ny, s) ==> Index(nx, Column(p, s), Row(p, s)) < |solid|
    ensures InFabric(p, nx, ny, solid, s) <==> OnGrid(p, nx, ny, s) && solid[Index(nx, Column(p, s), Row(p, s))]
  {
    hide Column, Row;
    if OnGrid(p, nx, ny, s) { IndexInside(nx, ny, Column(p, s), Row(p, s)); }
  }

  /** A point's cell is the one whose tenth of a unit holds it. */
  lemma {:induction false} CellExact(origin: real, v: real, k: int)
    ensures CellAt(origin, v) == k <==> origin + 0.1 * (k as real) <= v < origin + 0.1 * ((k + 1) as real)
  {
    var q := (v - origin) / CELL;
    assert q == (v - origin) * 10.0;
    assert (k + 1) as real == k as real + 1.0;
    assert q.Floor == k <==> k as real <= q < k as real + 1.0;
  }

  lemma {:induction false} SampleIs(from: real, u: real, s: nat)
    ensures SampleX(from, u, s) == from + 0.05 * (u * (s as real))
  {
  }

  /** A probe in a unit direction skips no cell: one sample on, it is in the same column and row
      or in a neighbouring one. */
  lemma {:induction false} NoCellSkipped(p: Probe, s: nat)
    requires p.ux * p.ux + p.uy * p.uy == 1.0
    ensures -1 <= Column(p, s + 1) - Column(p, s) <= 1 && -1 <= Row(p, s + 1) - Row(p, s) <= 1
  {
    UnitParts(p.ux, p.uy);
    UnitParts(p.uy, p.ux);
    OneSample(p.originX, p.fromX, p.ux, s);
    OneSample(p.originY, p.fromY, p.uy, s);
    hide CellAt, SampleX;
  }

  lemma {:induction false} UnitParts(u: real, v: real)
    requires u * u + v * v == 1.0
    ensures -1.0 <= u <= 1.0
  {
    assert v * v >= 0.0;
    SquareOver(u);
  }

  lemma {:induction false} SquareOver(u: real)
    ensures u > 1.0 || u < -1.0 ==> u * u > 1.0
  {
  }

  lemma {:induction false} OneSample(origin: real, from: real, u: real, s: nat)
    requires -1.0 <= u <= 1.0
    ensures -1 <= CellAt(origin, SampleX(from, u, s + 1)) - CellAt(origin, SampleX(from, u, s)) <= 1
  {
    var v, w := SampleX(from, u, s), SampleX(from, u, s + 1);
    SampleIs(from, u, s);
    SampleIs(from, u, s + 1);
    assert u * ((s + 1) as real) == u * (s as real) + u;
    CellExact(origin, v, CellAt(origin, v));
    CellExact(origin, w, CellAt(origin, w));
    hide CellAt, SampleX;
  }

  /** A probe in a unit direction never stays in the fabric for all its samples: it would leave
      the grid first. */
  lemma {:induction false} ProbeLeaves(p: Probe, nx: nat, ny: nat, solid: seq<bool>)
    requires nx > 0 && ny > 0 && forall t: nat :: 1 <= t < 2 * (nx + ny) + 1 ==> InFabric(p, nx, ny, solid, t)
    ensures p.ux * p.ux + p.uy * p.uy != 1.0
  {
    hide CellAt, SampleX, InFabric;
    var last := 2 * (nx + ny);
    FabricOnGrid(p, nx, ny, solid, 1);
    FabricOnGrid(p, nx, ny, solid, last);
    var d := (last - 1) as real;
    Travelled(p.originX, p.fromX, p.ux, nx, last);
    Travelled(p.originY, p.fromY, p.uy, ny, last);
    TooFar(p.ux, p.uy, d, 2.0 * (nx as real), 2.0 * (ny as real));
  }

  lemma {:induction false} FabricOnGrid(p: Probe, nx: nat, ny: nat, solid: seq<bool>, s: nat)
    requires InFabric(p, nx, ny, solid, s)
    ensures 0 <= CellAt(p.originX, SampleX(p.fromX, p.ux, s)) < nx && 0 <= CellAt(p.originY, SampleX(p.fromY, p.uy, s)) < ny
  {
    hide CellAt, SampleX, Index;
  }

  lemma {:induction false} Travelled(origin: real, from: real, u: real, n: nat, last: nat)
    requires last >= 1 && 0 <= CellAt(origin, SampleX(from, u, 1)) < n && 0 <= CellAt(origin, SampleX(from, u, last)) < n
    ensures -2.0 * (n as real) < u * ((last - 1) as real) < 2.0 * (n as real)
  {
    var v, w := SampleX(from, u, 1), SampleX(from, u, last);
    SampleIs(from, u, 1);
    SampleIs(from, u, last);
    assert u * ((last - 1) as real) == u * (last as real) - u;
    CellExact(origin, v, CellAt(origin, v));
    CellExact(origin, w, CellAt(origin, w));
    hide CellAt, SampleX;
  }

  lemma {:induction false} TooFar(u: real, v: real, d: real, a: real, b: real)
    requires a >= 2.0 && b >= 2.0 && d == a + b - 1.0
    requires -a < u * d < a && -b < v * d < b
    ensures u * u + v * v != 1.0
  {
    SquareLess(u * d, a);
    SquareLess(v * d, b);
    SquaresTimes(u, v, d);
    TimesGrow(a - 1.0, b - 1.0);
    assert d * d == a * a + b * b + 2.0 * ((a - 1.0) * (b - 1.0)) - 1.0;
  }

  lemma {:induction false} TimesGrow(x: real, y: real)
    requires x >= 1.0 && y >= 1.0
    ensures x * y >= 1.0
  {
    assert x * y >= x;
  }

  lemma {:induction false} SquareLess(x: real, a: real)
    requires -a < x < a
    ensures x * x < a * a
  {
    assert (a - x) * (a + x) > 0.0;
  }

  lemma {:induction false} SquaresTimes(u: real, v: real, d: real)
    ensures u * d * (u * d) + v * d * (v * d) == (u * u + v * v) * (d * d)
  {
    assert u * d * (u * d) == (u * u) * (d * d) && v * d * (v * d) == (v * v) * (d * d);
  }

  lemma {:induction false} NoAir(p: Probe, nx: nat, ny: nat, solid: seq<bool>)
    requires forall t: nat :: 1 <= t < 2 * (nx + ny) + 1 ==> InFabric(p, nx, ny, solid, t)
    ensures forall s: nat :: !FirstAir(p, nx, ny, solid, s)
  {
    hide InFabric;
  }

  lemma {:induction false} OnlyFirst(p: Probe, nx: nat, ny: nat, solid: seq<bool>, s: nat)
    requires 1 <= s <= 2 * (nx + ny) && !InFabric(p, nx, ny, solid, s)
    requires forall t: nat :: 1 <= t < s ==> InFabric(p, nx, ny, solid, t)
    ensures FirstAir(p, nx, ny, solid, s) && forall t: nat :: FirstAir(p, nx, ny, solid, t) ==> t == s
  {
    hide InFabric;
  }
}
