// The bucket grid over bounding boxes: an accelerator that never loses a candidate.
module PlanarGrid {

  datatype Box = Box(x0: real, y0: real, x1: real, y1: real)

  predicate Proper(b: Box) { b.x0 <= b.x1 && b.y0 <= b.y1 }

  predicate Overlap(a: Box, b: Box) {
    a.x0 <= b.x1 && b.x0 <= a.x1 && a.y0 <= b.y1 && b.y0 <= a.y1
  }

  /** The integer part, towards zero. */
  function Trunc(v: real): int { if v >= 0.0 then v.Floor else -((-v).Floor) }

  /** A cell index along an axis of `n` cells. */
  function Clamp(v: real, n: nat): (i: nat)
    requires n > 0
    ensures i < n
  {
    var i := Trunc(v);
    if i < 0 then 0 else if i >= n then n - 1 else i
  }

  lemma {:induction false} FloorMonotone(u: real, v: real)
    requires u <= v
    ensures u.Floor <= v.Floor
  {
  }

  lemma {:induction false} ClampMonotone(u: real, v: real, n: nat)
    requires n > 0 && u <= v
    ensures Clamp(u, n) <= Clamp(v, n)
  {
    if u >= 0.0 { FloorMonotone(u, v); } else if v < 0.0 { FloorMonotone(-v, -u); }
  }

  lemma {:induction false} DivideMonotone(u: real, v: real, c: real)
    requires c > 0.0 && u <= v
    ensures u / c <= v / c
  {
  }

  lemma {:induction false} CellInGrid(ix: nat, iy: nat, nx: nat, ny: nat)
    requires ix < nx && iy < ny
    ensures iy * nx + ix < nx * ny
  {
    assert (iy + 1) * nx <= ny * nx;
  }

  /** Every cell still holds what it held. */
  ghost predicate Grown(was: seq<seq<nat>>, now: seq<seq<nat>>) {
    |was| == |now| && forall k :: 0 <= k < |was| ==> was[k] <= now[k]
  }

  lemma {:induction false} GrownStep(was: seq<seq<nat>>, now: seq<seq<nat>>, k: nat, i: nat)
    requires Grown(was, now) && k < |now|
    ensures Grown(was, now[k := now[k] + [i]])
  {
  }

  lemma {:induction false} GrownChain(a: seq<seq<nat>>, b: seq<seq<nat>>, c: seq<seq<nat>>)
    requires Grown(a, b) && Grown(b, c)
    ensures Grown(a, c)
  {
  }

  lemma {:induction false} StillIn(was: seq<seq<nat>>, now: seq<seq<nat>>, k: nat, i: nat)
    requires Grown(was, now) && k < |was| && i in was[k]
    ensures i in now[k]
  {
    var j :| 0 <= j < |was[k]| && was[k][j] == i;
    assert now[k][j] == i;
  }

  /** A grid's origin, cell size and shape. */
  datatype Layout = Layout(minX: real, minY: real, cell: real, nx: nat, ny: nat) {
    predicate Valid() { nx > 0 && ny > 0 && cell > 0.0 }

    /** The cell columns and rows a box touches. */
    function Columns(b: Box): (nat, nat)
      requires Valid()
    {
      (Clamp((b.x0 - minX) / cell, nx), Clamp((b.x1 - minX) / cell, nx))
    }

    function Rows(b: Box): (nat, nat)
      requires Valid()
    {
      (Clamp((b.y0 - minY) / cell, ny), Clamp((b.y1 - minY) / cell, ny))
    }
  }

  predicate InCell(nx: nat, cells: seq<seq<nat>>, ix: nat, iy: nat, i: nat) {
    iy * nx + ix < |cells| && i in cells[iy * nx + ix]
  }

  predicate InRow(nx: nat, cells: seq<seq<nat>>, c0: nat, c1: nat, iy: nat, i: nat) {
    forall x: nat {:trigger InCell(nx, cells, x, iy, i)} :: c0 <= x <= c1 ==> InCell(nx, cells, x, iy, i)
  }

  /** Item `i` is in every cell its box touches. */
  predicate Placed(l: Layout, cells: seq<seq<nat>>, b: Box, i: nat)
    requires l.Valid()
  {
    forall y: nat {:trigger InRow(l.nx, cells, l.Columns(b).0, l.Columns(b).1, y, i)} ::
      l.Rows(b).0 <= y <= l.Rows(b).1 ==> InRow(l.nx, cells, l.Columns(b).0, l.Columns(b).1, y, i)
  }

  lemma {:induction false} RowKept(nx: nat, was: seq<seq<nat>>, now: seq<seq<nat>>, c0: nat, c1: nat, iy: nat, i: nat)
    requires Grown(was, now) && InRow(nx, was, c0, c1, iy, i)
    ensures InRow(nx, now, c0, c1, iy, i)
  {
    forall x: nat | c0 <= x <= c1 ensures InCell(nx, now, x, iy, i) {
      assert InCell(nx, was, x, iy, i);
      StillIn(was, now, iy * nx + x, i);
    }
  }

  lemma {:induction false} PlacedKept(l: Layout, was: seq<seq<nat>>, now: seq<seq<nat>>, b: Box, i: nat)
    requires l.Valid() && Grown(was, now) && Placed(l, was, b, i)
    ensures Placed(l, now, b, i)
  {
    var cs := l.Columns(b);
    forall y: nat | l.Rows(b).0 <= y <= l.Rows(b).1 ensures InRow(l.nx, now, cs.0, cs.1, y, i) {
      assert InRow(l.nx, was, cs.0, cs.1, y, i);
      RowKept(l.nx, was, now, cs.0, cs.1, y, i);
    }
  }

  class Grid {
    var layout: Layout
    var cells: seq<seq<nat>>
    ghost var boxes: seq<Box>

    ghost predicate Sized()
      reads this
    {
      && layout.Valid() && |cells| == layout.nx * layout.ny
      && (forall k :: 0 <= k < |cells| ==> forall i <- cells[k] :: i < |boxes|)
    }

    ghost predicate Valid()
      reads this
    {
      && Sized() && (forall i :: 0 <= i < |boxes| ==> Proper(boxes[i]))
      && if |cells| == 1 then forall i: nat :: i < |boxes| ==> i in cells[0]
         else forall i: nat :: i < |boxes| ==> Placed(layout, cells, boxes[i], i)
    }

    /** Buckets the boxes, `axis` cells along the longer side. */
    constructor (bs: seq<Box>, axis: nat)
      requires axis > 0 && forall i :: 0 <= i < |bs| ==> Proper(bs[i])
      ensures Valid() && boxes == bs
    {
      layout, cells, boxes := Layout(0.0, 0.0, 1.0, 1, 1), [[]], bs;
      new;
      if |bs| == 0 {
        return;
      }
      var minX, minY, maxX, maxY := bs[0].x0, bs[0].y0, bs[0].x1, bs[0].y1;
      for i := 1 to |bs|
        invariant minX <= maxX && minY <= maxY && boxes == bs
      {
        minX, minY := Min(minX, bs[i].x0), Min(minY, bs[i].y0);
        maxX, maxY := Max(maxX, bs[i].x1), Max(maxY, bs[i].y1);
      }
      var w, h := maxX - minX, maxY - minY;
      var span := Max(w, h);
      if span <= 0.0 {
        layout, cells := Layout(minX, minY, 1.0, 1, 1), [AllItems(|bs|)];
        return;
      }
      var cell := span / axis as real;
      PositiveQuotient(span, axis as real);
      NonNegativeQuotient(w, cell);
      NonNegativeQuotient(h, cell);
      layout := Layout(minX, minY, cell, (w / cell).Floor + 1, (h / cell).Floor + 1);
      CellInGrid(0, 0, layout.nx, layout.ny);
      cells := seq(layout.nx * layout.ny, _ => []);
      for i := 0 to |bs|
        invariant Sized() && boxes == bs
        invariant forall j: nat :: j < i ==> Placed(layout, cells, bs[j], j)
      {
        ghost var before := cells;
        Place(i, bs[i]);
        forall j: nat | j < i ensures Placed(layout, cells, bs[j], j) { PlacedKept(layout, before, cells, bs[j], j); }
      }
      if |cells| == 1 {
        forall i: nat | i < |bs| ensures i in cells[0] { OneCell(layout, cells, bs[i], i); }
      }
    }

    /** Adds item `i` to the cells of one row. */
    method PlaceRow(i: nat, iy: nat, c0: nat, c1: nat)
      requires Sized() && i < |boxes| && c1 < layout.nx && iy < layout.ny
      modifies this`cells
      ensures Sized() && Grown(old(cells), cells)
      ensures InRow(layout.nx, cells, c0, c1, iy, i)
    {
      ghost var was := cells;
      var ix := c0;
      while ix <= c1
        invariant c0 <= ix && Sized() && Grown(was, cells)
        invariant forall x: nat :: c0 <= x < ix && x <= c1 ==> InCell(layout.nx, cells, x, iy, i)
        decreases c1 + 1 - ix
      {
        CellInGrid(ix, iy, layout.nx, layout.ny);
        var k := iy * layout.nx + ix;
        ghost var before := cells;
        cells := cells[k := cells[k] + [i]];
        GrownStep(was, before, k, i);
        forall x: nat | c0 <= x <= ix ensures InCell(layout.nx, cells, x, iy, i) {
          if x < ix {
            assert InCell(layout.nx, before, x, iy, i);
            GrownStep(before, before, k, i);
            StillIn(before, cells, iy * layout.nx + x, i);
          }
        }
        ix := ix + 1;
      }
    }

    /** Adds item `i` to every cell its box touches. */
    method Place(i: nat, b: Box)
      requires Sized() && i < |boxes|
      modifies this`cells
      ensures Sized() && Grown(old(cells), cells)
      ensures Placed(layout, cells, b, i)
    {
      hide InRow, InCell, Clamp;
      var cs, rs := layout.Columns(b), layout.Rows(b);
      ghost var was := cells;
      var iy := rs.0;
      while iy <= rs.1
        invariant rs.0 <= iy && Sized() && Grown(was, cells)
        invariant forall y: nat :: rs.0 <= y < iy && y <= rs.1 ==> InRow(layout.nx, cells, cs.0, cs.1, y, i)
        decreases rs.1 + 1 - iy
      {
        ghost var before := cells;
        PlaceRow(i, iy, cs.0, cs.1);
        GrownChain(was, before, cells);
        forall y: nat | rs.0 <= y <= iy ensures InRow(layout.nx, cells, cs.0, cs.1, y, i) {
          if y < iy { RowKept(layout.nx, before, cells, cs.0, cs.1, y, i); }
        }
        iy := iy + 1;
      }
    }

    /** The items of one row's cells. */
    method QueryRow(iy: nat, c0: nat, c1: nat) returns (found: seq<nat>)
      requires Sized() && c1 < layout.nx && iy < layout.ny
      ensures forall i <- found :: i < |boxes|
      ensures forall x: nat, i: nat :: c0 <= x <= c1 && InCell(layout.nx, cells, x, iy, i) ==> i in found
    {
      found := [];
      var ix := c0;
      while ix <= c1
        invariant c0 <= ix && (forall i <- found :: i < |boxes|)
        invariant forall x: nat, i: nat :: c0 <= x < ix && x <= c1 && InCell(layout.nx, cells, x, iy, i) ==> i in found
        decreases c1 + 1 - ix
      {
        CellInGrid(ix, iy, layout.nx, layout.ny);
        found := found + cells[iy * layout.nx + ix];
        ix := ix + 1;
      }
    }

    /** The items of every cell a box touches: none whose own box overlaps it is missed. */
    method Query(q: Box) returns (found: seq<nat>)
      requires Valid() && Proper(q)
      ensures forall i <- found :: i < |boxes|
      ensures forall i: nat :: i < |boxes| && Overlap(boxes[i], q) ==> i in found
    {
      if |cells| == 1 {
        return cells[0];
      }
      hide InRow, InCell, Clamp, Placed;
      found := [];
      var cs, rs := layout.Columns(q), layout.Rows(q);
      var iy := rs.0;
      while iy <= rs.1
        invariant rs.0 <= iy && (forall i <- found :: i < |boxes|)
        invariant forall x: nat, y: nat, i: nat :: cs.0 <= x <= cs.1 && rs.0 <= y < iy && y <= rs.1 && InCell(layout.nx, cells, x, y, i) ==> i in found
        decreases rs.1 + 1 - iy
      {
        var row := QueryRow(iy, cs.0, cs.1);
        found := found + row;
        iy := iy + 1;
      }
      forall i: nat | i < |boxes| && Overlap(boxes[i], q) ensures i in found {
        var x, y := SharedCell(layout, cells, boxes[i], i, q);
      }
    }
  }

  /** Boxes that overlap touch a common cell: clamping keeps order. */
  lemma {:induction false} SharedCell(l: Layout, cells: seq<seq<nat>>, b: Box, i: nat, q: Box) returns (x: nat, y: nat)
    requires l.Valid() && Proper(b) && Proper(q) && Overlap(b, q) && Placed(l, cells, b, i)
    ensures InCell(l.nx, cells, x, y, i)
    ensures l.Columns(q).0 <= x <= l.Columns(q).1 && l.Rows(q).0 <= y <= l.Rows(q).1
  {
    hide InCell, Clamp;
    x := Common(b.x0, b.x1, q.x0, q.x1, l.minX, l.cell, l.nx);
    y := Common(b.y0, b.y1, q.y0, q.y1, l.minY, l.cell, l.ny);
    assert InRow(l.nx, cells, l.Columns(b).0, l.Columns(b).1, y, i);
  }

  /** Overlapping intervals clamp to overlapping index ranges. */
  lemma {:induction false} Common(a0: real, a1: real, b0: real, b1: real, o: real, c: real, n: nat) returns (k: nat)
    requires n > 0 && c > 0.0 && a0 <= a1 && b0 <= b1 && a0 <= b1 && b0 <= a1
    ensures k < n && Clamp((a0 - o) / c, n) <= k <= Clamp((a1 - o) / c, n)
    ensures Clamp((b0 - o) / c, n) <= k <= Clamp((b1 - o) / c, n)
  {
    Ordered(a0, a1, o, c, n);
    Ordered(b0, b1, o, c, n);
    Ordered(a0, b1, o, c, n);
    Ordered(b0, a1, o, c, n);
    var i, j := Clamp((a0 - o) / c, n), Clamp((b0 - o) / c, n);
    hide Clamp;
    k := if i >= j then i else j;
  }

  lemma {:induction false} Ordered(u: real, v: real, o: real, c: real, n: nat)
    requires n > 0 && c > 0.0 && u <= v
    ensures Clamp((u - o) / c, n) <= Clamp((v - o) / c, n)
  {
    hide Clamp;
    DivideMonotone(u - o, v - o, c);
    ClampMonotone((u - o) / c, (v - o) / c, n);
  }

  lemma {:induction false} OneCell(l: Layout, cells: seq<seq<nat>>, b: Box, i: nat)
    requires l.Valid() && |cells| == 1 && l.nx * l.ny == 1 && Placed(l, cells, b, i)
    ensures i in cells[0]
  {
    OneByOne(l.nx, l.ny);
    assert InRow(l.nx, cells, l.Columns(b).0, l.Columns(b).1, 0, i);
    assert InCell(l.nx, cells, 0, 0, i);
  }

  lemma {:induction false} OneByOne(a: nat, b: nat)
    ensures a * b == 1 ==> a == 1 && b == 1
  {
    if a > 1 && b >= 1 { assert a * b >= 2 * b; }
  }

  function Min(a: real, b: real): real { if a <= b then a else b }
  function Max(a: real, b: real): real { if a >= b then a else b }

  function AllItems(n: nat): (s: seq<nat>)
    ensures forall i :: 0 <= i < n ==> i in s
    ensures forall i <- s :: i < n
  {
    if n == 0 then [] else AllItems(n - 1) + [n - 1]
  }

  lemma {:induction false} PositiveQuotient(a: real, b: real)
    requires a > 0.0 && b > 0.0
    ensures a / b > 0.0
  {
  }

  lemma {:induction false} NonNegativeQuotient(a: real, b: real)
    requires a >= 0.0 && b > 0.0
    ensures a / b >= 0.0
  {
  }
}
