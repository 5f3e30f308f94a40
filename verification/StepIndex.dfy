// The id, type and inverse indexes: parallel counting sorts whose ranges share one
// output. Each range counts its items per key; prefix sums give every (key, range) pair
// a stretch of its own; the ranges then fill concurrently. The fill is modelled as single
// writes under an arbitrary scheduler.
module StepIndex {

  /** One item on its way to `key`'s list. */
  datatype Item<K(==), V> = Item(key: K, value: V)

  // ---------------------------------------------------------------- the naive lists

  /** The values sent to `key`, in stream order: the list a sequential scan would build. */
  function Listed<K, V>(s: seq<Item<K, V>>, key: K): seq<V> {
    if s == [] then []
    else Listed(s[..|s| - 1], key) + (if s[|s| - 1].key == key then [s[|s| - 1].value] else [])
  }

  function Count<K, V>(s: seq<Item<K, V>>, key: K): nat { |Listed(s, key)| }

  function Concat<T>(ss: seq<seq<T>>): seq<T> {
    if ss == [] then [] else Concat(ss[..|ss| - 1]) + ss[|ss| - 1]
  }

  lemma {:induction false} ListedAppend<K, V>(a: seq<Item<K, V>>, b: seq<Item<K, V>>, key: K)
    ensures Listed(a + b, key) == Listed(a, key) + Listed(b, key)
  {
    if b == [] {
      assert a + b == a;
    } else {
      var ab := a + b;
      assert ab[..|ab| - 1] == a + b[..|b| - 1];
      ListedAppend(a, b[..|b| - 1], key);
    }
  }

  lemma {:induction false} ListedPrefix<K, V>(s: seq<Item<K, V>>, j: nat, key: K)
    requires j <= |s|
    ensures Listed(s[..j], key) <= Listed(s, key)
  {
    assert s == s[..j] + s[j..];
    ListedAppend(s[..j], s[j..], key);
  }

  lemma {:induction false} ListedStep<K, V>(s: seq<Item<K, V>>, j: nat, key: K)
    requires j < |s|
    ensures Listed(s[..j + 1], key) == Listed(s[..j], key) + (if s[j].key == key then [s[j].value] else [])
    ensures s[j].key != key ==> Listed(s[..j + 1], key) == Listed(s[..j], key)
  {
    assert s[..j + 1][..j] == s[..j];
    assert Listed(s[..j], key) + [] == Listed(s[..j], key);
  }

  // ---------------------------------------------------------------- offsets

  /** How many items of all ranges go to keys below `t`, or to `t` from ranges below `g`:
      where range `g`'s stretch of key `t`'s list begins. */
  function Before<V>(ss: seq<seq<Item<int, V>>>, t: nat, g: nat): nat
    requires g <= |ss|
    decreases t, g
  {
    if g > 0 then Before(ss, t, g - 1) + Count(ss[g - 1], t)
    else if t > 0 then Before(ss, t - 1, |ss|)
    else 0
  }

  lemma {:induction false} BeforeMonotone<V>(ss: seq<seq<Item<int, V>>>, t: nat, g: nat, t': nat, g': nat)
    requires g <= |ss| && g' <= |ss| && (t < t' || (t == t' && g <= g'))
    ensures Before(ss, t, g) <= Before(ss, t', g')
    decreases t', g'
  {
    if g' > 0 && (t < t' || g < g') {
      BeforeMonotone(ss, t, g, t', g' - 1);
    } else if t < t' {
      BeforeMonotone(ss, t, g, t' - 1, |ss|);
    }
  }

  /** Stretches of different (key, range) pairs never share a cell. */
  lemma {:induction false} StretchesDisjoint<V>(ss: seq<seq<Item<int, V>>>, t: nat, g: nat, t': nat, g': nat, c: nat)
    requires g < |ss| && g' < |ss|
    requires Before(ss, t, g) <= c < Before(ss, t, g) + Count(ss[g], t)
    requires Before(ss, t', g') <= c < Before(ss, t', g') + Count(ss[g'], t')
    ensures t == t' && g == g'
  {
    if t < t' || (t == t' && g < g') {
      BeforeMonotone(ss, t, g + 1, t', g');
    } else if t' < t || (t == t' && g' < g) {
      BeforeMonotone(ss, t', g' + 1, t, g);
    }
  }

  lemma {:induction false} WithinTotal<V>(ss: seq<seq<Item<int, V>>>, n: nat, t: nat, g: nat)
    requires g < |ss| && t < n
    ensures Before(ss, t, g) + Count(ss[g], t) <= Before(ss, n, 0)
  {
    BeforeMonotone(ss, t, g + 1, n, 0);
  }

  /** A key's list, cut at its ranges' stretches, is the concatenation's list. */
  lemma {:induction false} KeyList<V>(ss: seq<seq<Item<int, V>>>, t: nat, g: nat)
    requires g <= |ss|
    ensures |Listed(Concat(ss[..g]), t)| == Before(ss, t, g) - Before(ss, t, 0)
    ensures Before(ss, t, 0) <= Before(ss, t, g)
  {
    if g > 0 {
      KeyList(ss, t, g - 1);
      assert ss[..g][..g - 1] == ss[..g - 1];
      ListedAppend(Concat(ss[..g - 1]), ss[g - 1], t);
    }
  }

  // ---------------------------------------------------------------- the inverse index

  /** The values `s` stand in `cells` from `a` on. */
  predicate At<V(==)>(cells: seq<V>, a: nat, s: seq<V>) {
    a + |s| <= |cells| && cells[a..a + |s|] == s
  }

  lemma {:induction false} NothingAt<V>(cells: seq<V>, a: nat)
    requires a <= |cells|
    ensures At(cells, a, [])
  {
  }

  lemma {:induction false} AtKept<V>(cells: seq<V>, a: nat, s: seq<V>, c: nat, v: V)
    requires At(cells, a, s) && c < |cells| && (c < a || a + |s| <= c)
    ensures At(cells[c := v], a, s)
  {
  }

  lemma {:induction false} AtExtended<V>(cells: seq<V>, a: nat, s: seq<V>, v: V)
    requires At(cells, a, s) && a + |s| < |cells|
    ensures At(cells[a + |s| := v], a, s + [v])
  {
  }

  lemma {:induction false} AtJoined<V>(cells: seq<V>, a: nat, s: seq<V>, t: seq<V>)
    requires At(cells, a, s) && At(cells, a + |s|, t)
    ensures At(cells, a, s + t)
  {
    assert cells[a..a + |s| + |t|] == cells[a..a + |s|] + cells[a + |s|..a + |s| + |t|];
  }

  /** Row g's writes so far: its cursor for every key, and the cells behind the cursor. */
  ghost predicate RowFilled<V>(ss: seq<seq<Item<int, V>>>, n: nat, g: nat, done: nat, next: array2<nat>, inv: array<V>)
    requires g < |ss| && done <= |ss[g]| && next.Length0 == |ss| && next.Length1 == n
    requires inv.Length == Before(ss, n, 0)
    reads next, inv
  {
    forall t {:trigger next[g, t]} :: 0 <= t < n ==>
      && next[g, t] == Before(ss, t, g) + Count(ss[g][..done], t)
      && At(inv[..], Before(ss, t, g), Listed(ss[g][..done], t))
  }

  /** Counts each range's items per key; items with a key outside [0, n) are not counted. */
  method CountRanges<V>(ss: seq<seq<Item<int, V>>>, n: nat) returns (counts: array2<nat>)
    ensures fresh(counts) && counts.Length0 == |ss| && counts.Length1 == n
    ensures forall g, t :: 0 <= g < |ss| && 0 <= t < n ==> counts[g, t] == Count(ss[g], t)
  {
    counts := new nat[|ss|, n]((_, _) => 0);
    for g := 0 to |ss|
      invariant forall h, t :: 0 <= h < g && 0 <= t < n ==> counts[h, t] == Count(ss[h], t)
      invariant forall h, t :: g <= h < |ss| && 0 <= t < n ==> counts[h, t] == 0
    {
      for j := 0 to |ss[g]|
        invariant forall h, t :: 0 <= h < g && 0 <= t < n ==> counts[h, t] == Count(ss[h], t)
        invariant forall t :: 0 <= t < n ==> counts[g, t] == Count(ss[g][..j], t)
        invariant forall h, t :: g < h < |ss| && 0 <= t < n ==> counts[h, t] == 0
      {
        forall t | 0 <= t < n ensures Count(ss[g][..j + 1], t) == Count(ss[g][..j], t) + if ss[g][j].key == t then 1 else 0 {
          ListedStep(ss[g], j, t);
        }
        var key := ss[g][j].key;
        if 0 <= key < n {
          counts[g, key] := counts[g, key] + 1;
        }
      }
      assert ss[g][..|ss[g]|] == ss[g];
    }
  }

  /** How the offsets add up: range by range within a key, then key by key. */
  lemma {:induction false} BeforeSteps<V>(ss: seq<seq<Item<int, V>>>, t: nat, g: nat)
    requires g <= |ss|
    ensures g < |ss| ==> Before(ss, t, g + 1) == Before(ss, t, g) + Count(ss[g], t)
    ensures Before(ss, t + 1, 0) == Before(ss, t, |ss|) && Before(ss, 0, 0) == 0
  {
  }

  /** Turns each range's counts into its write offsets, key by key. */
  method PrefixSums<V>(ss: seq<seq<Item<int, V>>>, n: nat, counts: array2<nat>) returns (start: seq<nat>)
    requires counts.Length0 == |ss| && counts.Length1 == n
    requires forall g, t :: 0 <= g < |ss| && 0 <= t < n ==> counts[g, t] == Count(ss[g], t)
    modifies counts
    ensures forall g, t :: 0 <= g < |ss| && 0 <= t < n ==> counts[g, t] == Before(ss, t, g)
    ensures |start| == n + 1 && forall t :: 0 <= t <= n ==> start[t] == Before(ss, t, 0)
  {
    hide Before, Listed;
    start := [];
    var total := 0;
    BeforeSteps(ss, 0, 0);
    for t := 0 to n
      invariant |start| == t && total == Before(ss, t, 0)
      invariant forall u :: 0 <= u < t ==> start[u] == Before(ss, u, 0)
      invariant forall g, u :: 0 <= g < |ss| && 0 <= u < t ==> counts[g, u] == Before(ss, u, g)
      invariant forall g, u :: 0 <= g < |ss| && t <= u < n ==> counts[g, u] == Count(ss[g], u)
    {
      start := start + [total];
      for g := 0 to |ss|
        invariant total == Before(ss, t, g)
        invariant forall h, u :: 0 <= h < |ss| && 0 <= u < t ==> counts[h, u] == Before(ss, u, h)
        invariant forall h :: 0 <= h < g ==> counts[h, t] == Before(ss, t, h)
        invariant forall h :: g <= h < |ss| ==> counts[h, t] == Count(ss[h], t)
        invariant forall h, u :: 0 <= h < |ss| && t < u < n ==> counts[h, u] == Count(ss[h], u)
      {
        var k := counts[g, t];
        counts[g, t] := total;
        BeforeSteps(ss, t, g);
        total := total + k;
      }
      BeforeSteps(ss, t, 0);
    }
    start := start + [total];
  }

  /** A cursor never leaves its stretch. */
  lemma {:induction false} CursorInStretch<V>(ss: seq<seq<Item<int, V>>>, n: nat, g: nat, done: nat, t: nat)
    requires g < |ss| && done <= |ss[g]| && t < n
    ensures Before(ss, t, g) + Count(ss[g][..done], t) <= Before(ss, t, g) + Count(ss[g], t) <= Before(ss, n, 0)
  {
    ListedPrefix(ss[g], done, t);
    WithinTotal(ss, n, t, g);
  }

  /** The cell range `g` writes next, for its item's key. */
  ghost predicate NextWrite<V>(ss: seq<seq<Item<int, V>>>, n: nat, g: nat, j: nat, key: int, c: nat) {
    && g < |ss| && j < |ss[g]| && 0 <= key < n && ss[g][j].key == key
    && c == Before(ss, key, g) + Count(ss[g][..j], key) < Before(ss, n, 0)
  }

  lemma {:induction false} WriteInside<V>(ss: seq<seq<Item<int, V>>>, n: nat, g: nat, j: nat)
    requires g < |ss| && j < |ss[g]| && 0 <= ss[g][j].key < n
    ensures Before(ss, ss[g][j].key, g) + Count(ss[g][..j], ss[g][j].key) < Before(ss, n, 0)
    ensures NextWrite(ss, n, g, j, ss[g][j].key, Before(ss, ss[g][j].key, g) + Count(ss[g][..j], ss[g][j].key))
  {
    ListedStep(ss[g], j, ss[g][j].key);
    CursorInStretch(ss, n, g, j + 1, ss[g][j].key);
  }

  /** The writer's stretch of that key grows by the item it writes. */
  lemma {:induction false} CellWritten<V>(ss: seq<seq<Item<int, V>>>, n: nat, g: nat, j: nat, key: int, c: nat, was: seq<V>)
    requires NextWrite(ss, n, g, j, key, c) && |was| == Before(ss, n, 0)
    requires At(was, Before(ss, key, g), Listed(ss[g][..j], key))
    ensures At(was[c := ss[g][j].value], Before(ss, key, g), Listed(ss[g][..j + 1], key))
    ensures Count(ss[g][..j + 1], key) == Count(ss[g][..j], key) + 1
  {
    hide Before, At;
    ListedStep(ss[g], j, key);
    AtExtended(was, Before(ss, key, g), Listed(ss[g][..j], key), ss[g][j].value);
  }

  /** No other (key, range) pair's finished cells are touched. */
  lemma {:induction false} CellKept<V>(ss: seq<seq<Item<int, V>>>, n: nat, g: nat, j: nat, key: int, c: nat, was: seq<V>, h: nat, t: nat, done: nat)
    requires NextWrite(ss, n, g, j, key, c) && |was| == Before(ss, n, 0)
    requires h < |ss| && done <= |ss[h]| && t < n && (h != g || t != key)
    requires At(was, Before(ss, t, h), Listed(ss[h][..done], t))
    ensures At(was[c := ss[g][j].value], Before(ss, t, h), Listed(ss[h][..done], t))
  {
    CursorInStretch(ss, n, h, done, t);
    ListedStep(ss[g], j, key);
    ListedPrefix(ss[g], j + 1, key);
    if Before(ss, t, h) <= c < Before(ss, t, h) + Count(ss[h][..done], t) {
      StretchesDisjoint(ss, t, h, key, g, c);
    }
    AtKept(was, Before(ss, t, h), Listed(ss[h][..done], t), c, ss[g][j].value);
  }

  /** Range `g` writes its next item: one cell and one cursor change, and every other
      range's finished cells are untouched. */
  method WriteNext<V>(ss: seq<seq<Item<int, V>>>, n: nat, g: nat, pos: seq<nat>, next: array2<nat>, inv: array<V>)
    requires g < |ss| == |pos| && next.Length0 == |ss| && next.Length1 == n && inv.Length == Before(ss, n, 0)
    requires forall h :: 0 <= h < |ss| ==> pos[h] <= |ss[h]|
    requires pos[g] < |ss[g]|
    requires forall h :: 0 <= h < |ss| ==> RowFilled(ss, n, h, pos[h], next, inv)
    modifies next, inv
    ensures RowFilled(ss, n, g, pos[g] + 1, next, inv)
    ensures forall h :: 0 <= h < |ss| && h != g ==> RowFilled(ss, n, h, pos[h], next, inv)
  {
    hide Before, Listed, At, NextWrite;
    var item, j := ss[g][pos[g]], pos[g];
    var key := item.key;
    if 0 <= key < n {
      WriteInside(ss, n, g, j);
      var c := next[g, key];
      ghost var was := inv[..];
      assert RowFilled(ss, n, g, j, next, inv) && c == Before(ss, key, g) + Count(ss[g][..j], key);
      forall h: nat, t: nat | h < |ss| && t < n ensures At(was, Before(ss, t, h), Listed(ss[h][..pos[h]], t)) {
        assert RowFilled(ss, n, h, pos[h], next, inv) && next[h, t] == Before(ss, t, h) + Count(ss[h][..pos[h]], t);
      }
      inv[c] := item.value;
      next[g, key] := c + 1;
      assert inv[..] == was[c := item.value];
      CellWritten(ss, n, g, j, key, c, was);
      forall h, t | 0 <= h < |ss| && 0 <= t < n && (h != g || t != key)
        ensures At(inv[..], Before(ss, t, h), Listed(ss[h][..pos[h]], t))
      {
        CellKept(ss, n, g, j, key, c, was, h, t, pos[h]);
      }
    }
    forall t | 0 <= t < n
      ensures next[g, t] == Before(ss, t, g) + Count(ss[g][..j + 1], t) && At(inv[..], Before(ss, t, g), Listed(ss[g][..j + 1], t))
    {
      assert old(RowFilled(ss, n, g, j, next, inv)) && old(next[g, t]) == Before(ss, t, g) + Count(ss[g][..j], t);
      if t != key { ListedStep(ss[g], j, t); }
    }
  }

  /** Key `t`'s cells, from its start to the next key's, hold exactly `list`. */
  predicate KeySlice<V(==)>(cells: seq<V>, start: seq<nat>, t: nat, list: seq<V>)
    requires t + 1 < |start|
  {
    start[t] <= start[t + 1] <= |cells| && cells[start[t]..start[t + 1]] == list
  }

  /** The concurrent fill: at every turn an arbitrary unfinished range writes its next item.
      However the writes interleave, key `t`'s cells end up holding the naive list. */
  method Fill<V>(ss: seq<seq<Item<int, V>>>, n: nat, start: seq<nat>, next: array2<nat>, inv: array<V>)
    requires next.Length0 == |ss| && next.Length1 == n && inv.Length == Before(ss, n, 0)
    requires forall g, t :: 0 <= g < |ss| && 0 <= t < n ==> next[g, t] == Before(ss, t, g)
    requires |start| == n + 1 && forall t :: 0 <= t <= n ==> start[t] == Before(ss, t, 0)
    modifies next, inv
    ensures forall t :: 0 <= t < n ==> KeySlice(inv[..], start, t, Listed(Concat(ss), t))
  {
    hide Before, At, LeftOver, KeySlice;
    var pos: seq<nat> := seq(|ss|, _ => 0);
    forall g | 0 <= g < |ss| ensures RowFilled(ss, n, g, 0, next, inv) {
      forall t | 0 <= t < n ensures At(inv[..], Before(ss, t, g), Listed(ss[g][..0], t)) {
        WithinTotal(ss, n, t, g);
        NothingAt(inv[..], Before(ss, t, g));
      }
    }
    while exists g :: 0 <= g < |ss| && pos[g] < |ss[g]|
      invariant |pos| == |ss| && forall g :: 0 <= g < |ss| ==> pos[g] <= |ss[g]|
      invariant forall g :: 0 <= g < |ss| ==> RowFilled(ss, n, g, pos[g], next, inv)
      decreases LeftOver(ss, pos, |ss|)
    {
      var g :| 0 <= g < |ss| && pos[g] < |ss[g]|;
      WriteNext(ss, n, g, pos, next, inv);
      LeftOverDrops(ss, pos, g, |ss|);
      pos := pos[g := pos[g] + 1];
    }
    forall g, t: nat | 0 <= g < |ss| && t < n ensures At(inv[..], Before(ss, t, g), Listed(ss[g], t)) {
      assert ss[g][..pos[g]] == ss[g];
      assert RowFilled(ss, n, g, pos[g], next, inv);
      assert next[g, t] == Before(ss, t, g) + Count(ss[g][..pos[g]], t);
    }
    FillDone(ss, n, start, inv[..]);
  }

  /** Once every range has written its whole list, each key's cells hold the joined list. */
  lemma {:induction false} FillDone<V>(ss: seq<seq<Item<int, V>>>, n: nat, start: seq<nat>, cells: seq<V>)
    requires |cells| == Before(ss, n, 0)
    requires |start| == n + 1 && forall t :: 0 <= t <= n ==> start[t] == Before(ss, t, 0)
    requires forall g, t: nat :: 0 <= g < |ss| && t < n ==> At(cells, Before(ss, t, g), Listed(ss[g], t))
    ensures forall t :: 0 <= t < n ==> KeySlice(cells, start, t, Listed(Concat(ss), t))
  {
    hide Before, Listed, Concat;
    assert ss[..|ss|] == ss;
    forall t | 0 <= t < n ensures KeySlice(cells, start, t, Listed(Concat(ss), t)) {
      BeforeMonotone(ss, t, |ss|, n, 0);
      StretchesJoin(ss, t, |ss|, cells);
      KeyList(ss, t, |ss|);
      NextKey(ss, t);
      assert start[t + 1] == Before(ss, t, |ss|);
    }
  }

  lemma {:induction false} NextKey<V>(ss: seq<seq<Item<int, V>>>, t: nat)
    ensures Before(ss, t + 1, 0) == Before(ss, t, |ss|)
  {
  }

  /** Writes left to do in the first `g` ranges. */
  ghost function LeftOver<K, V>(ss: seq<seq<Item<K, V>>>, pos: seq<nat>, g: nat): nat
    requires g <= |ss| == |pos| && forall h :: 0 <= h < |ss| ==> pos[h] <= |ss[h]|
  {
    if g == 0 then 0 else LeftOver(ss, pos, g - 1) + (|ss[g - 1]| - pos[g - 1])
  }

  lemma {:induction false} LeftOverDrops<K, V>(ss: seq<seq<Item<K, V>>>, pos: seq<nat>, h: nat, g: nat)
    requires g <= |ss| == |pos| && forall h :: 0 <= h < |ss| ==> pos[h] <= |ss[h]|
    requires h < |ss| && pos[h] < |ss[h]|
    ensures LeftOver(ss, pos[h := pos[h] + 1], g) == LeftOver(ss, pos, g) - (if h < g then 1 else 0)
  {
    if g > 0 { LeftOverDrops(ss, pos, h, g - 1); }
  }

  /** Stretches laid side by side hold the concatenated ranges' list. */
  lemma {:induction false} StretchesJoin<V>(ss: seq<seq<Item<int, V>>>, t: nat, g: nat, cells: seq<V>)
    requires g <= |ss| && Before(ss, t, |ss|) <= |cells|
    requires forall h :: 0 <= h < |ss| ==> At(cells, Before(ss, t, h), Listed(ss[h], t))
    ensures At(cells, Before(ss, t, 0), Listed(Concat(ss[..g]), t))
  {
    hide At, Listed, Concat, Before;
    if g > 0 {
      assert At(cells, Before(ss, t, g - 1), Listed(ss[g - 1], t));
      StretchesJoin(ss, t, g - 1, cells);
      assert ss[..g][..g - 1] == ss[..g - 1];
      ConcatLast(ss[..g]);
      ListedAppend(Concat(ss[..g - 1]), ss[g - 1], t);
      KeyList(ss, t, g - 1);
      assert Before(ss, t, 0) + |Listed(Concat(ss[..g - 1]), t)| == Before(ss, t, g - 1);
      AtJoined(cells, Before(ss, t, 0), Listed(Concat(ss[..g - 1]), t), Listed(ss[g - 1], t));
    } else {
      BeforeMonotone(ss, t, 0, t, |ss|);
      EmptyStretch(cells, Before(ss, t, 0), t);
    }
  }

  lemma {:induction false} EmptyStretch<V>(cells: seq<V>, a: nat, t: int)
    requires a <= |cells|
    ensures At(cells, a, Listed(Concat<Item<int, V>>([]), t))
  {
  }

  // ---------------------------------------------------------------- the type index

  /** Where range `g`'s stretch of key `t`'s own list begins. */
  function Offset<K, V>(ss: seq<seq<Item<K, V>>>, t: K, g: nat): nat
    requires g <= |ss|
  {
    if g == 0 then 0 else Offset(ss, t, g - 1) + Count(ss[g - 1], t)
  }

  lemma {:induction false} OffsetMonotone<K, V>(ss: seq<seq<Item<K, V>>>, t: K, g: nat, g': nat)
    requires g <= g' <= |ss|
    ensures Offset(ss, t, g) <= Offset(ss, t, g')
  {
    if g < g' { OffsetMonotone(ss, t, g, g' - 1); }
  }

  lemma {:induction false} OffsetIsLength<K, V>(ss: seq<seq<Item<K, V>>>, t: K, g: nat)
    requires g <= |ss|
    ensures Offset(ss, t, g) == Count(Concat(ss[..g]), t)
  {
    if g > 0 {
      OffsetIsLength(ss, t, g - 1);
      assert ss[..g][..g - 1] == ss[..g - 1];
      ListedAppend(Concat(ss[..g - 1]), ss[g - 1], t);
    }
  }

  /** `c` counts a stream: each key it meets, and no other. */
  ghost predicate Counted<K(!new), V>(c: map<K, nat>, s: seq<Item<K, V>>) {
    forall t :: if t in c then c[t] == Count(s, t) > 0 else Listed(s, t) == []
  }

  /** One range's count per type. */
  method CountTypes<K(==, !new), V>(s: seq<Item<K, V>>) returns (c: map<K, nat>)
    ensures Counted(c, s)
  {
    c := map[];
    for j := 0 to |s|
      invariant Counted(c, s[..j])
    {
      CountedStep(c, s, j);
      c := c[s[j].key := (if s[j].key in c then c[s[j].key] else 0) + 1];
    }
    assert s[..|s|] == s;
  }

  lemma {:induction false} CountedStep<K(!new), V>(c: map<K, nat>, s: seq<Item<K, V>>, j: nat)
    requires j < |s| && Counted(c, s[..j])
    ensures Counted(c[s[j].key := (if s[j].key in c then c[s[j].key] else 0) + 1], s[..j + 1])
  {
    forall t ensures Listed(s[..j + 1], t) == Listed(s[..j], t) + (if s[j].key == t then [s[j].value] else []) {
      ListedStep(s, j, t);
    }
  }

  /** Every slice is as long as the first `g` ranges' items of its key; absent keys have none. */
  ghost predicate SizedTo<K(!new), V>(ss: seq<seq<Item<K, V>>>, byType: map<K, seq<V>>, g: nat)
    requires g <= |ss|
  {
    forall t :: if t in byType then |byType[t]| == Offset(ss, t, g) else Offset(ss, t, g) == 0
  }

  /** Types in `offs` have been lengthened, the others not yet. */
  ghost predicate Growing<K, V>(ss: seq<seq<Item<K, V>>>, g: nat, c: map<K, nat>, before: map<K, seq<V>>, byType: map<K, seq<V>>, offs: map<K, nat>)
    requires g < |ss|
  {
    && offs.Keys <= c.Keys && byType.Keys == before.Keys + offs.Keys
    && (forall t <- offs :: offs[t] == Offset(ss, t, g) && |byType[t]| == Offset(ss, t, g) + c[t])
    && (forall t <- byType :: t !in offs ==> byType[t] == before[t])
  }

  lemma {:induction false} GrowStart<K, V>(ss: seq<seq<Item<K, V>>>, g: nat, c: map<K, nat>, before: map<K, seq<V>>)
    requires g < |ss|
    ensures Growing(ss, g, c, before, before, map[])
  {
  }

  lemma {:induction false} GrowStep<K(!new), V>(ss: seq<seq<Item<K, V>>>, g: nat, c: map<K, nat>, before: map<K, seq<V>>, byType: map<K, seq<V>>,
                       offs: map<K, nat>, t: K, cur: seq<V>, more: seq<V>)
    requires g < |ss| && SizedTo(ss, before, g) && Growing(ss, g, c, before, byType, offs)
    requires t in c && t !in offs && cur == (if t in byType then byType[t] else []) && |more| == c[t]
    ensures Growing(ss, g, c, before, byType[t := cur + more], offs[t := |cur|])
  {
  }

  lemma {:induction false} GrowEnd<K(!new), V>(ss: seq<seq<Item<K, V>>>, g: nat, c: map<K, nat>, before: map<K, seq<V>>, byType: map<K, seq<V>>, offs: map<K, nat>)
    requires g < |ss| && Counted(c, ss[g]) && SizedTo(ss, before, g) && Growing(ss, g, c, before, byType, offs)
    requires offs.Keys == c.Keys
    ensures SizedTo(ss, byType, g + 1) && byType.Keys == before.Keys + c.Keys
    ensures forall t <- offs :: offs[t] == Offset(ss, t, g)
  {
  }

  /** Lengthens every slice by a range's counts, and records where that range's stretches
      begin. Types are met in arbitrary order. */
  method GrowSlices<K(==, !new), V(0)>(ss: seq<seq<Item<K, V>>>, g: nat, c: map<K, nat>, before: map<K, seq<V>>, blank: V)
    returns (byType: map<K, seq<V>>, offs: map<K, nat>)
    requires g < |ss| && Counted(c, ss[g]) && SizedTo(ss, before, g)
    ensures SizedTo(ss, byType, g + 1)
    ensures offs.Keys == c.Keys && byType.Keys == before.Keys + c.Keys
    ensures forall t <- offs :: offs[t] == Offset(ss, t, g)
  {
    hide Offset, Counted, SizedTo, Growing;
    byType, offs := before, map[];
    GrowStart(ss, g, c, before);
    var left := c.Keys;
    while left != {}
      invariant left <= c.Keys && offs.Keys == c.Keys - left
      invariant Growing(ss, g, c, before, byType, offs)
      decreases |left|
    {
      var t :| t in left;
      left := left - {t};
      var cur := if t in byType then byType[t] else [];
      var more: seq<V> := seq(c[t], _ => blank);
      GrowStep(ss, g, c, before, byType, offs, t, cur, more);
      offs := offs[t := |cur|];
      byType := byType[t := cur + more];
    }
    GrowEnd(ss, g, c, before, byType, offs);
  }

  /** Range `g`'s writes so far. */
  ghost predicate SliceFilled<K, V>(ss: seq<seq<Item<K, V>>>, g: nat, done: nat, next: map<K, nat>, byType: map<K, seq<V>>)
    requires g < |ss| && done <= |ss[g]|
  {
    && (forall j :: 0 <= j < |ss[g]| ==> ss[g][j].key in next && ss[g][j].key in byType)
    && (forall t <- next :: next[t] == Offset(ss, t, g) + Count(ss[g][..done], t))
    && (forall t <- byType :: At(byType[t], Offset(ss, t, g), Listed(ss[g][..done], t)))
  }

  predicate Sized<K, V>(ss: seq<seq<Item<K, V>>>, byType: map<K, seq<V>>) {
    forall t <- byType :: |byType[t]| == Offset(ss, t, |ss|)
  }

  /** Where range `g`'s next item goes: a cell of its own stretch of its type's slice. */
  lemma {:induction false} NextCell<K, V>(ss: seq<seq<Item<K, V>>>, g: nat, done: nat, next: map<K, nat>, byType: map<K, seq<V>>)
    requires g < |ss| && done < |ss[g]| && Sized(ss, byType) && SliceFilled(ss, g, done, next, byType)
    ensures var t := ss[g][done].key;
      && t in next && t in byType
      && next[t] == Offset(ss, t, g) + Count(ss[g][..done], t)
      && Offset(ss, t, g) <= next[t] < Offset(ss, t, g + 1) <= |byType[t]|
  {
    var t := ss[g][done].key;
    ListedStep(ss[g], done, t);
    ListedPrefix(ss[g], done + 1, t);
    OffsetMonotone(ss, t, g + 1, |ss|);
  }

  /** The writer's own stretch grows by the item it wrote. */
  lemma {:induction false} OwnWrite<K, V>(ss: seq<seq<Item<K, V>>>, g: nat, done: nat, next: map<K, nat>, byType: map<K, seq<V>>)
    requires g < |ss| && done < |ss[g]| && Sized(ss, byType) && SliceFilled(ss, g, done, next, byType)
    ensures var t := ss[g][done].key;
      t in next && t in byType && next[t] < |byType[t]| &&
      SliceFilled(ss, g, done + 1, next[t := next[t] + 1], byType[t := byType[t][next[t] := ss[g][done].value]])
  {
    hide At, Offset, Listed;
    var t, v := ss[g][done].key, ss[g][done].value;
    NextCell(ss, g, done, next, byType);
    ListedStep(ss[g], done, t);
    AtExtended(byType[t], Offset(ss, t, g), Listed(ss[g][..done], t), v);
    var next', byType' := next[t := next[t] + 1], byType[t := byType[t][next[t] := v]];
    assert At(byType'[t], Offset(ss, t, g), Listed(ss[g][..done + 1], t));
    forall u | u in next' ensures next'[u] == Offset(ss, u, g) + Count(ss[g][..done + 1], u) {
      if u != t { ListedStep(ss[g], done, u); }
    }
    forall u | u in byType' ensures At(byType'[u], Offset(ss, u, g), Listed(ss[g][..done + 1], u)) {
      if u != t { ListedStep(ss[g], done, u); }
    }
  }

  lemma {:induction false} OtherCell<K, V>(ss: seq<seq<Item<K, V>>>, h: nat, doneH: nat, g: nat, t: K, c: nat, v: V, cells: seq<V>)
    requires g < |ss| && h < |ss| && h != g && doneH <= |ss[h]|
    requires Offset(ss, t, g) <= c < Offset(ss, t, g + 1) && c < |cells|
    requires At(cells, Offset(ss, t, h), Listed(ss[h][..doneH], t))
    ensures At(cells[c := v], Offset(ss, t, h), Listed(ss[h][..doneH], t))
  {
    ListedPrefix(ss[h], doneH, t);
    assert Offset(ss, t, h) + Count(ss[h][..doneH], t) <= Offset(ss, t, h + 1);
    if h < g { OffsetMonotone(ss, t, h + 1, g); } else { OffsetMonotone(ss, t, g + 1, h); }
    AtKept(cells, Offset(ss, t, h), Listed(ss[h][..doneH], t), c, v);
  }

  /** Every other range's finished cells are untouched by it. */
  lemma {:induction false} OtherKept<K, V>(ss: seq<seq<Item<K, V>>>, h: nat, doneH: nat, nextH: map<K, nat>,
                                          g: nat, t: K, c: nat, v: V, byType: map<K, seq<V>>)
    requires g < |ss| && h < |ss| && h != g && doneH <= |ss[h]| && SliceFilled(ss, h, doneH, nextH, byType)
    requires t in byType && Offset(ss, t, g) <= c < Offset(ss, t, g + 1) && c < |byType[t]|
    ensures SliceFilled(ss, h, doneH, nextH, byType[t := byType[t][c := v]])
  {
    OtherCell(ss, h, doneH, g, t, c, v, byType[t]);
    hide Offset, At, Listed, Count;
    var byType' := byType[t := byType[t][c := v]];
    forall u | u in byType' ensures At(byType'[u], Offset(ss, u, h), Listed(ss[h][..doneH], u)) {
      assert u != t ==> byType'[u] == byType[u];
    }
  }

  /** Range `h` has a stretch planned for every item it holds. */
  ghost predicate Planned<K, V>(ss: seq<seq<Item<K, V>>>, h: nat, next: map<K, nat>, byType: map<K, seq<V>>)
    requires h < |ss|
  {
    && (forall j :: 0 <= j < |ss[h]| ==> ss[h][j].key in next && ss[h][j].key in byType)
    && (forall t <- next :: next[t] == Offset(ss, t, h))
  }

  lemma {:induction false} CountedKeys<K(!new), V>(c: map<K, nat>, s: seq<Item<K, V>>, j: nat)
    requires Counted(c, s) && j < |s|
    ensures s[j].key in c
  {
    ListedStep(s, j, s[j].key);
    ListedPrefix(s, j + 1, s[j].key);
  }

  /** The count and offset passes of every range. */
  method PlanSlices<K(==, !new), V(0)>(ss: seq<seq<Item<K, V>>>, blank: V) returns (byType: map<K, seq<V>>, nexts: seq<map<K, nat>>)
    ensures SizedTo(ss, byType, |ss|) && |nexts| == |ss|
    ensures forall h :: 0 <= h < |ss| ==> Planned(ss, h, nexts[h], byType)
  {
    byType, nexts := map[], [];
    for g := 0 to |ss|
      invariant |nexts| == g && SizedTo(ss, byType, g)
      invariant forall h :: 0 <= h < g ==> Planned(ss, h, nexts[h], byType)
    {
      var c := CountTypes(ss[g]);
      forall j | 0 <= j < |ss[g]| ensures ss[g][j].key in c { CountedKeys(c, ss[g], j); }
      ghost var before := byType;
      var offs;
      byType, offs := GrowSlices(ss, g, c, byType, blank);
      forall h | 0 <= h < g ensures Planned(ss, h, nexts[h], byType) {
        assert Planned(ss, h, nexts[h], before);
      }
      assert Planned(ss, g, offs, byType);
      nexts := nexts + [offs];
    }
  }

  ghost predicate AllFilled<K, V>(ss: seq<seq<Item<K, V>>>, pos: seq<nat>, nexts: seq<map<K, nat>>, byType: map<K, seq<V>>) {
    && |pos| == |ss| == |nexts| && Sized(ss, byType)
    && forall h :: 0 <= h < |ss| ==> pos[h] <= |ss[h]| && SliceFilled(ss, h, pos[h], nexts[h], byType)
  }

  /** Range `g` writes its next item into its type's slice and moves that cursor. */
  method WriteType<K(==), V>(ss: seq<seq<Item<K, V>>>, g: nat, pos: seq<nat>, nexts: seq<map<K, nat>>, byType: map<K, seq<V>>)
    returns (nexts': seq<map<K, nat>>, byType': map<K, seq<V>>)
    requires AllFilled(ss, pos, nexts, byType) && g < |ss| && pos[g] < |ss[g]|
    ensures AllFilled(ss, pos[g := pos[g] + 1], nexts', byType') && byType'.Keys == byType.Keys
  {
    hide SliceFilled, Offset, Listed, Count, At;
    var item := ss[g][pos[g]];
    NextCell(ss, g, pos[g], nexts[g], byType);
    OwnWrite(ss, g, pos[g], nexts[g], byType);
    var t, c := item.key, nexts[g][item.key];
    byType' := byType[t := byType[t][c := item.value]];
    nexts' := nexts[g := nexts[g][t := c + 1]];
    forall h | 0 <= h < |ss| && h != g ensures SliceFilled(ss, h, pos[h], nexts[h], byType') {
      OtherKept(ss, h, pos[h], nexts[h], g, t, c, item.value, byType);
    }
  }

  /** Groups the items of concurrent ranges by key. Whatever the interleaving of the fill's
      writes, every key's slice is the naive list of the ranges laid end to end. */
  method GroupByType<K(==, !new), V(0)>(ss: seq<seq<Item<K, V>>>, blank: V) returns (byType: map<K, seq<V>>)
    ensures forall t :: (if t in byType then byType[t] else []) == Listed(Concat(ss), t)
  {
    var nexts;
    byType, nexts := PlanSlices(ss, blank);
    var pos: seq<nat> := seq(|ss|, _ => 0);
    forall h | 0 <= h < |ss| ensures SliceFilled(ss, h, 0, nexts[h], byType) {
      NothingWritten(ss, h, nexts[h], byType);
    }
    ghost var sized := byType;
    while exists g :: 0 <= g < |ss| && pos[g] < |ss[g]|
      invariant AllFilled(ss, pos, nexts, byType) && byType.Keys == sized.Keys
      decreases LeftOver(ss, pos, |ss|)
    {
      var g :| 0 <= g < |ss| && pos[g] < |ss[g]|;
      LeftOverDrops(ss, pos, g, |ss|);
      nexts, byType := WriteType(ss, g, pos, nexts, byType);
      pos := pos[g := pos[g] + 1];
    }
    GroupDone(ss, sized, byType, nexts, pos);
  }

  lemma {:induction false} GroupDone<K(!new), V>(ss: seq<seq<Item<K, V>>>, sized: map<K, seq<V>>, byType: map<K, seq<V>>,
                                          nexts: seq<map<K, nat>>, pos: seq<nat>)
    requires SizedTo(ss, sized, |ss|) && byType.Keys == sized.Keys && Sized(ss, byType)
    requires |pos| == |ss| == |nexts|
    requires forall h :: 0 <= h < |ss| ==> pos[h] == |ss[h]| && SliceFilled(ss, h, pos[h], nexts[h], byType)
    ensures forall t :: (if t in byType then byType[t] else []) == Listed(Concat(ss), t)
  {
    forall t ensures (if t in byType then byType[t] else []) == Listed(Concat(ss), t) {
      assert ss[..|ss|] == ss;
      OffsetIsLength(ss, t, |ss|);
      if t in byType {
        forall h | 0 <= h < |ss| ensures At(byType[t], Offset(ss, t, h), Listed(ss[h], t)) {
          assert ss[h][..pos[h]] == ss[h];
          assert SliceFilled(ss, h, pos[h], nexts[h], byType);
        }
        SlicesJoin(ss, t, |ss|, byType[t]);
      } else {
        assert t !in sized;
      }
    }
  }

  /** Nothing is written yet: every stretch is empty and inside its slice. */
  lemma {:induction false} NothingWritten<K(!new), V>(ss: seq<seq<Item<K, V>>>, h: nat, next: map<K, nat>, byType: map<K, seq<V>>)
    requires h < |ss| && Planned(ss, h, next, byType) && SizedTo(ss, byType, |ss|)
    ensures SliceFilled(ss, h, 0, next, byType)
  {
    forall t | t in byType ensures At(byType[t], Offset(ss, t, h), []) { OffsetMonotone(ss, t, h, |ss|); }
  }

  lemma {:induction false} SlicesJoin<K, V>(ss: seq<seq<Item<K, V>>>, t: K, g: nat, cells: seq<V>)
    requires g <= |ss|
    requires forall h :: 0 <= h < |ss| ==> At(cells, Offset(ss, t, h), Listed(ss[h], t))
    ensures At(cells, 0, Listed(Concat(ss[..g]), t))
  {
    hide At, Listed, Offset, Concat;
    if g == 0 {
      EmptyAt(cells, t);
    } else {
      SlicesJoin(ss, t, g - 1, cells);
      assert At(cells, Offset(ss, t, g - 1), Listed(ss[g - 1], t));
      assert ss[..g][..g - 1] == ss[..g - 1];
      ConcatLast(ss[..g]);
      ListedAppend(Concat(ss[..g - 1]), ss[g - 1], t);
      OffsetIsLength(ss, t, g - 1);
      AtJoined(cells, 0, Listed(Concat(ss[..g - 1]), t), Listed(ss[g - 1], t));
    }
  }

  lemma {:induction false} EmptyAt<K, V>(cells: seq<V>, t: K)
    ensures At(cells, 0, Listed(Concat<Item<K, V>>([]), t))
  {
  }

  lemma {:induction false} ConcatLast<T>(ss: seq<seq<T>>)
    requires ss != []
    ensures Concat(ss) == Concat(ss[..|ss| - 1]) + ss[|ss| - 1]
  {
  }

  // ---------------------------------------------------------------- ranges

  /** Where range `i` of `g` begins. */
  function CutAt(n: nat, g: nat, i: nat): nat
    requires g > 0
  {
    n * i / g
  }

  /** [0, n) in `g` contiguous ranges, in order. */
  function Ranges(n: nat, g: nat): (rs: seq<(nat, nat)>)
    requires g > 0
    ensures |rs| == g
  {
    seq(g, i requires 0 <= i < g => (CutAt(n, g, i), CutAt(n, g, i + 1)))
  }

  /** A cut of [0, n) into ranges laid end to end. */
  predicate Partition(rs: seq<(nat, nat)>, n: nat) {
    && rs != [] && rs[0].0 == 0 && rs[|rs| - 1].1 == n
    && (forall i :: 0 <= i < |rs| ==> rs[i].0 <= rs[i].1 <= n)
    && (forall i :: 0 < i < |rs| ==> rs[i - 1].1 == rs[i].0)
  }

  lemma {:induction false} DivMonotone(a: nat, b: nat, g: nat)
    requires g > 0 && a <= b
    ensures a / g <= b / g
  {
    var x, y := a / g, b / g;
    assert g * x <= a && b < g * (y + 1);
    if x >= y + 1 { TimesMonotone(g, y + 1, x); }
  }

  lemma {:induction false} TimesMonotone(g: nat, x: nat, y: nat)
    requires x <= y
    ensures g * x <= g * y
  {
  }

  lemma {:induction false} CutInside(n: nat, g: nat, i: nat)
    requires i < g
    ensures CutAt(n, g, i) <= CutAt(n, g, i + 1) <= n
  {
    assert n * i <= n * (i + 1) <= n * g;
    DivMonotone(n * i, n * (i + 1), g);
    DivMonotone(n * (i + 1), n * g, g);
    WholeCut(n, g);
  }

  lemma {:induction false} WholeCut(n: nat, g: nat)
    requires g > 0
    ensures CutAt(n, g, 0) == 0 && CutAt(n, g, g) == n && n * g / g == n
  {
    var q := n * g / g;
    assert g * q <= g * n < g * (q + 1);
  }

  lemma {:induction false} RangesPartition(n: nat, g: nat)
    requires g > 0
    ensures Partition(Ranges(n, g), n)
  {
    WholeCut(n, g);
    forall i: nat | i < g ensures Rises(n, g, i) {
      CutInside(n, g, i);
    }
    hide CutAt;
    var rs := Ranges(n, g);
    forall i | 0 <= i < |rs| ensures rs[i].0 <= rs[i].1 <= n {
      assert Rises(n, g, i);
    }
  }

  predicate Rises(n: nat, g: nat, i: nat)
    requires i < g
  {
    CutAt(n, g, i) <= CutAt(n, g, i + 1) <= n
  }
}
