// Classifying elements band by band on a bounded worker pool: the pool's memory ceiling, and
// a merged result no schedule can reach.
module GeoFacing {
  import opened Common
  import opened Sorting
  import opened GeoOccupancy

  // ---------------------------------------------------------------- the sign

  datatype Exposure = Exterior | Enclosed | Interior

  const CERTAIN: real := 1.0
  const COURTYARD: real := 0.8
  const AMBIGUOUS: real := 0.3

  predicate OpenSide(s: Side) { s.SideOutside? || s.SideOffGrid? }

  /** Two probe results to an exposure, whether to flip the direction, and how far to trust it. */
  function ResolveSign(pos: Side, neg: Side): (Exposure, bool, real) {
    if OpenSide(pos) && !OpenSide(neg) then (Exterior, false, CERTAIN)
    else if OpenSide(neg) && !OpenSide(pos) then (Exterior, true, CERTAIN)
    else if OpenSide(pos) && OpenSide(neg) then (Exterior, false, AMBIGUOUS)
    else if pos.SideEnclosed? && !neg.SideEnclosed? then (Enclosed, false, COURTYARD)
    else if neg.SideEnclosed? && !pos.SideEnclosed? then (Enclosed, true, COURTYARD)
    else if pos.SideEnclosed? && neg.SideEnclosed? then (Enclosed, false, AMBIGUOUS)
    else (Interior, false, AMBIGUOUS)
  }

  /** Turning the element's canonical direction round changes neither the exposure nor the
      trust, and turns the flip round exactly when the sign was not a coin flip. */
  lemma {:induction false} SignTurnsRound(pos: Side, neg: Side)
    ensures var (e, f, c) := ResolveSign(pos, neg);
      var (e', f', c') := ResolveSign(neg, pos);
      e == e' && c == c' && (f' != f <==> c != AMBIGUOUS)
    ensures var (e, f, c) := ResolveSign(pos, neg);
      && (c == CERTAIN <==> OpenSide(pos) != OpenSide(neg))
      && (e == Exterior <==> OpenSide(pos) || OpenSide(neg))
      && (c != AMBIGUOUS ==> var shown, other := if f then neg else pos, if f then pos else neg;
          (e == Exterior ==> OpenSide(shown) && !OpenSide(other)) && (e == Enclosed ==> shown.SideEnclosed? && !other.SideEnclosed?))
  {
  }

  /** How open a side is: under the sky outside, under the sky in a court, roofed or solid. */
  function Openness(s: Side): nat {
    match s case SideOutside => 2 case SideOffGrid => 2 case SideEnclosed => 1 case SideCovered => 0 case SideSolid => 0
  }

  /** The more open side shows. It alone decides the exposure; the sign is certain when that side
      is outside, likely when it is a court, and a coin flip when the other is as open. */
  lemma {:induction false} OpenerShows(pos: Side, neg: Side)
    ensures var (e, f, c) := ResolveSign(pos, neg);
      var (p, n) := (Openness(pos), Openness(neg));
      var best := if p >= n then p else n;
      && (f <==> n > p)
      && (e == Exterior <==> best == 2) && (e == Enclosed <==> best == 1) && (e == Interior <==> best == 0)
      && c == if p == n then 0.3 else if best == 2 then 1.0 else 0.8
  {
  }

  // ---------------------------------------------------------------- votes and bands

  /** An element: its id, whether it has a facade axis, its band when its box is finite, and
      how the grids see it. */
  datatype Elem = Elem(id: string, axis: bool, key: Option<int>, solid: Solid)

  /** Later in the serial order: bands after unbanded elements, bands by key, and elements of
      one band by position. */
  predicate Before(es: seq<Elem>, i: nat, j: nat)
    requires i < |es| && j < |es|
  {
    var (a, b) := (es[i].key, es[j].key);
    if a == b then i < j else if a.None? then true else if b.None? then false else a.value < b.value
  }

  /** Elements classified once the bands in `keys` are. */
  predicate Considered(es: seq<Elem>, keys: seq<int>, i: nat)
    requires i < |es|
  {
    es[i].axis && (es[i].key.None? || es[i].key.value in keys)
  }

  /** The last element classified under an id. */
  ghost predicate WinnerIn(es: seq<Elem>, keys: seq<int>, id: string, i: nat) {
    && i < |es| && Considered(es, keys, i) && es[i].id == id
    && forall j: nat :: j < |es| && j != i && Considered(es, keys, j) && es[j].id == id ==> Before(es, j, i)
  }

  /** A map from each id to its winner's facing. */
  ghost predicate Right<F(!new)>(es: seq<Elem>, sign: (nat, Option<int>) -> F, keys: seq<int>, out: map<string, F>) {
    && (forall id, i: nat :: WinnerIn(es, keys, id, i) ==> id in out && out[id] == sign(i, es[i].key))
    && (forall id <- out :: exists i: nat :: i < |es| && Considered(es, keys, i) && es[i].id == id)
  }

  /** One band's facings, its elements in order. */
  function Band<F>(es: seq<Elem>, sign: (nat, Option<int>) -> F, key: int, n: nat): map<string, F>
    requires n <= |es|
  {
    if n == 0 then map[]
    else if InBand(es, key, n - 1) then Band(es, sign, key, n - 1)[es[n - 1].id := sign(n - 1, Some(key))]
    else Band(es, sign, key, n - 1)
  }

  predicate InBand(es: seq<Elem>, key: int, i: nat)
    requires i < |es|
  {
    es[i].axis && es[i].key == Some(key)
  }

  lemma {:induction false} BandLast<F>(es: seq<Elem>, sign: (nat, Option<int>) -> F, key: int, n: nat, id: string, i: nat)
    requires i < n <= |es| && InBand(es, key, i) && es[i].id == id
    requires forall j: nat :: i < j < n && InBand(es, key, j) ==> es[j].id != id
    ensures id in Band(es, sign, key, n) && Band(es, sign, key, n)[id] == sign(i, Some(key))
  {
    if i < n - 1 { BandLast(es, sign, key, n - 1, id, i); }
  }

  lemma {:induction false} BandMembers<F>(es: seq<Elem>, sign: (nat, Option<int>) -> F, key: int, n: nat, id: string)
    requires n <= |es|
    ensures id in Band(es, sign, key, n) <==> exists i: nat :: i < n && InBand(es, key, i) && es[i].id == id
  {
    if n > 0 { BandMembers(es, sign, key, n - 1, id); }
  }

  /** Merging the next band in key order. */
  lemma {:induction false} MergeStep<F(!new)>(es: seq<Elem>, sign: (nat, Option<int>) -> F, keys: seq<int>, key: int, out: map<string, F>)
    requires Right(es, sign, keys, out) && forall k <- keys :: k < key
    ensures Right(es, sign, keys + [key], out + Band(es, sign, key, |es|))
  {
    var more, band := keys + [key], Band(es, sign, key, |es|);
    assert forall k :: k in more <==> k in keys || k == key;
    forall id, i: nat | WinnerIn(es, more, id, i) ensures id in out + band && (out + band)[id] == sign(i, es[i].key) {
      BandMembers(es, sign, key, |es|, id);
      if InBand(es, key, i) {
        assert forall j: nat :: i < j < |es| && Considered(es, more, j) && es[j].id == id ==> Before(es, j, i);
        BandLast(es, sign, key, |es|, id, i);
      } else {
        assert forall j: nat :: j < |es| && j != i && Considered(es, more, j) && es[j].id == id ==> Before(es, j, i);
        assert WinnerIn(es, keys, id, i);
      }
    }
    forall id | id in out + band ensures exists i: nat :: i < |es| && Considered(es, more, i) && es[i].id == id {
      BandMembers(es, sign, key, |es|, id);
      if id in band {
        var i: nat :| i < |es| && InBand(es, key, i) && es[i].id == id;
        assert Considered(es, more, i);
      } else {
        var i: nat :| i < |es| && Considered(es, keys, i) && es[i].id == id;
        assert Considered(es, more, i);
      }
    }
  }

  // ---------------------------------------------------------------- the pool's ceiling

  const BAND_WORKERS: nat := 8
  const CELL_BUDGET: nat := MAX_CELLS

  function Solids(es: seq<Elem>): (r: seq<Solid>)
    ensures |r| == |es|
  {
    seq(|es|, i requires 0 <= i < |es| => es[i].solid)
  }

  /** The cells of a band's grid, at the height its key denotes. */
  function BandCells(m: Machine, es: seq<Elem>, key: int): (c: nat)
    ensures c <= MAX_CELLS
  {
    GridCells(m, Solids(es), key as real * CELL)
  }

  ghost predicate AllWithin(m: Machine, es: seq<Elem>, keys: seq<int>, bound: nat) {
    forall j :: 0 <= j < |keys| ==> BandCells(m, es, keys[j]) <= bound
  }

  /** Some band takes that many cells, or none takes any. */
  ghost predicate Attained(m: Machine, es: seq<Elem>, keys: seq<int>, most: nat) {
    most > 0 ==> exists j :: 0 <= j < |keys| && BandCells(m, es, keys[j]) == most
  }

  /** Grid cells held by the workers building bands. */
  function LiveCells(m: Machine, es: seq<Elem>, keys: seq<int>, holding: seq<Option<nat>>): nat {
    if holding == [] then 0
    else
      var last := holding[|holding| - 1];
      LiveCells(m, es, keys, holding[..|holding| - 1]) + if last.Some? && last.value < |keys| then BandCells(m, es, keys[last.value]) else 0
  }

  lemma {:induction false} LiveBound(m: Machine, es: seq<Elem>, keys: seq<int>, holding: seq<Option<nat>>, most: nat)
    requires AllWithin(m, es, keys, most)
    ensures LiveCells(m, es, keys, holding) <= |holding| * most
  {
    hide BandCells;
    if holding != [] {
      var n := |holding| - 1;
      LiveBound(m, es, keys, holding[..n], most);
      assert (n + 1) * most == n * most + most;
    }
  }

  /** A worker that takes a band adds its grid's cells, and one that hands it in gives them back. */
  lemma {:induction false} LiveTaken(m: Machine, es: seq<Elem>, keys: seq<int>, holding: seq<Option<nat>>, w: nat, k: nat)
    requires w < |holding| && holding[w].None? && k < |keys|
    ensures LiveCells(m, es, keys, holding[w := Some(k)]) == LiveCells(m, es, keys, holding) + BandCells(m, es, keys[k])
  {
    hide BandCells;
    var n, more := |holding| - 1, holding[w := Some(k)];
    if w < n {
      LiveTaken(m, es, keys, holding[..n], w, k);
      assert more[..n] == holding[..n][w := Some(k)];
    } else {
      assert more[..n] == holding[..n];
    }
  }

  lemma {:induction false} NoneLive(m: Machine, es: seq<Elem>, keys: seq<int>, holding: seq<Option<nat>>)
    requires forall w :: 0 <= w < |holding| ==> holding[w].None?
    ensures LiveCells(m, es, keys, holding) == 0
  {
    if holding != [] { NoneLive(m, es, keys, holding[..|holding| - 1]); }
  }

  /** The most cells any band's grid takes. */
  method MostCells(m: Machine, es: seq<Elem>, keys: seq<int>) returns (most: nat)
    requires Sane(m)
    ensures most <= MAX_CELLS && AllWithin(m, es, keys, most) && Attained(m, es, keys, most)
  {
    hide GridCells, Solids;
    most := 0;
    for i := 0 to |keys|
      invariant most <= MAX_CELLS && AllWithin(m, es, keys[..i], most)
      invariant Attained(m, es, keys, most)
    {
      assert keys[..i + 1] == keys[..i] + [keys[i]];
      var c := BandGridCells(m, Solids(es), keys[i] as real * CELL);
      if c > most {
        most := c;
      }
    }
    assert keys[..|keys|] == keys;
  }

  /** No more workers than processors or bands, and one more would exceed one of the limits. */
  predicate Widest(workers: nat, procs: nat, bands: nat, most: nat) {
    && (workers == 1 || (workers <= procs && workers <= bands))
    && (workers == BAND_WORKERS || workers >= procs || workers >= bands || (workers + 1) * most > CELL_BUDGET)
  }

  /** As many workers as the limits allow, and never so many that their grids together could
      exceed the budget. */
  ghost predicate Sized(m: Machine, es: seq<Elem>, keys: seq<int>, procs: nat, workers: nat) {
    exists most: nat ::
      && 1 <= workers <= BAND_WORKERS && AllWithin(m, es, keys, most) && Attained(m, es, keys, most)
      && workers * most <= CELL_BUDGET && Widest(workers, procs, |keys|, most)
  }

  /** How many workers share the budget. */
  method PoolSize(m: Machine, es: seq<Elem>, keys: seq<int>, procs: nat) returns (workers: nat)
    requires Sane(m)
    ensures Sized(m, es, keys, procs, workers)
  {
    hide AllWithin, Attained;
    workers := procs;
    if workers > BAND_WORKERS {
      workers := BAND_WORKERS;
    }
    if workers > |keys| {
      workers := |keys|;
    }
    var most := MostCells(m, es, keys);
    if most > 0 {
      var allowed := CELL_BUDGET / most;
      if allowed < workers {
        workers := allowed;
      }
      DivideExact(workers, most, CELL_BUDGET);
      DivideExact(1, most, CELL_BUDGET);
      DivideExact(workers + 1, most, CELL_BUDGET);
    }
    if workers < 1 {
      workers := 1;
    }
    assert workers * most <= CELL_BUDGET && Widest(workers, procs, |keys|, most);
  }

  lemma {:induction false} SizedLive(m: Machine, es: seq<Elem>, keys: seq<int>, procs: nat, workers: nat, holding: seq<Option<nat>>)
    requires Sized(m, es, keys, procs, workers) && |holding| == workers
    ensures LiveCells(m, es, keys, holding) <= CELL_BUDGET
  {
    hide AllWithin, Attained, Widest, LiveCells;
    var most: nat :| 1 <= workers <= BAND_WORKERS && AllWithin(m, es, keys, most) && Attained(m, es, keys, most)
      && workers * most <= CELL_BUDGET && Widest(workers, procs, |keys|, most);
    LiveBound(m, es, keys, holding, most);
  }

  // ---------------------------------------------------------------- the pool

  /** Workers building bands: the counter, what each holds, and the finished results. */
  ghost predicate PoolOk<F(!new)>(es: seq<Elem>, sign: (nat, Option<int>) -> F, keys: seq<int>, next: nat,
                            holding: seq<Option<nat>>, results: seq<Option<map<string, F>>>) {
    && |results| == |keys|
    && (forall w :: 0 <= w < |holding| && holding[w].Some? ==> holding[w].value < next && holding[w].value < |keys|)
    && (forall v, w :: 0 <= v < w < |holding| && holding[v].Some? && holding[w].Some? ==> holding[v].value != holding[w].value)
    && (forall k :: 0 <= k < |keys| ==> (results[k].Some? <==> k < next && !Held(holding, k)))
    && (forall k :: 0 <= k < |keys| && results[k].Some? ==> results[k].value == Band(es, sign, keys[k], |es|))
  }

  predicate Held(holding: seq<Option<nat>>, k: nat) {
    exists w :: 0 <= w < |holding| && holding[w] == Some(k)
  }

  /** A worker takes the next band: no other worker has it or has had it. */
  lemma {:induction false} Claimed<F(!new)>(es: seq<Elem>, sign: (nat, Option<int>) -> F, keys: seq<int>, next: nat,
                                      holding: seq<Option<nat>>, results: seq<Option<map<string, F>>>, w: nat)
    requires PoolOk(es, sign, keys, next, holding, results) && w < |holding| && holding[w].None? && next < |keys|
    ensures !Held(holding, next) && results[next].None?
    ensures PoolOk(es, sign, keys, next + 1, holding[w := Some(next)], results)
  {
    hide Band;
    var now := holding[w := Some(next)];
    forall k | 0 <= k < |keys| ensures results[k].Some? <==> k < next + 1 && !Held(now, k) {
      HeldBut(holding, w, Some(next), k);
    }
  }

  /** A worker hands in its band. */
  lemma {:induction false} HandedIn<F(!new)>(es: seq<Elem>, sign: (nat, Option<int>) -> F, keys: seq<int>, next: nat,
                                       holding: seq<Option<nat>>, results: seq<Option<map<string, F>>>, w: nat, k: nat)
    requires PoolOk(es, sign, keys, next, holding, results) && w < |holding| && holding[w] == Some(k)
    ensures PoolOk(es, sign, keys, next, holding[w := None], results[k := Some(Band(es, sign, keys[k], |es|))])
  {
    hide Band;
    var now, done := holding[w := None], results[k := Some(Band(es, sign, keys[k], |es|))];
    assert !Held(now, k);
    forall m | 0 <= m < |keys| ensures done[m].Some? <==> m < next && !Held(now, m) {
      HeldBut(holding, w, None, m);
    }
  }

  lemma {:induction false} HeldBut(holding: seq<Option<nat>>, w: nat, h: Option<nat>, k: nat)
    requires w < |holding|
    ensures Held(holding[w := h], k) <==> h == Some(k) || exists v :: 0 <= v < |holding| && v != w && holding[v] == Some(k)
    ensures Held(holding, k) <==> holding[w] == Some(k) || exists v :: 0 <= v < |holding| && v != w && holding[v] == Some(k)
  {
    var now := holding[w := h];
    if h == Some(k) { assert now[w] == Some(k); }
    if v :| 0 <= v < |holding| && v != w && holding[v] == Some(k) { assert now[v] == Some(k); }
    if v :| 0 <= v < |now| && now[v] == Some(k) && v != w { assert holding[v] == Some(k); }
  }

  /** Facings a worker is still to deliver: bands not claimed, and bands held. */
  ghost function Outstanding(holding: seq<Option<nat>>): nat {
    if holding == [] then 0 else Outstanding(holding[..|holding| - 1]) + if holding[|holding| - 1].Some? then 1 else 0
  }

  lemma {:induction false} OutstandingSet(holding: seq<Option<nat>>, w: nat, h: Option<nat>)
    requires w < |holding|
    ensures Outstanding(holding[w := h]) + (if holding[w].Some? then 1 else 0) == Outstanding(holding) + if h.Some? then 1 else 0
  {
    var n := |holding| - 1;
    if w == n {
      assert holding[w := h][..n] == holding[..n];
    } else {
      assert holding[w := h][..n] == holding[..n][w := h];
      OutstandingSet(holding[..n], w, h);
    }
  }

  /** The pool: the counter, what each worker holds, who has left, and the finished bands. */
  datatype Pool<!F> = Pool(next: nat, holding: seq<Option<nat>>, left: set<nat>, results: seq<Option<map<string, F>>>)

  /** The pool between turns. */
  ghost predicate Running<F(!new)>(es: seq<Elem>, sign: (nat, Option<int>) -> F, keys: seq<int>, s: Pool<F>) {
    && PoolOk(es, sign, keys, s.next, s.holding, s.results)
    && (forall w <- s.left :: w < |s.holding| && s.holding[w].None?) && (s.left != {} ==> s.next >= |keys|)
  }

  /** One worker's turn: it hands in the band it has, takes the next, or leaves. */
  ghost predicate Steps<F(!new)>(es: seq<Elem>, sign: (nat, Option<int>) -> F, keys: seq<int>, s: Pool<F>, w: nat, s': Pool<F>) {
    && w < |s.holding| && w !in s.left
    && match s.holding[w]
       case None =>
         if s.next < |keys| then s' == s.(next := s.next + 1, holding := s.holding[w := Some(s.next)])
         else s' == s.(next := s.next + 1, left := s.left + {w})
       case Some(k) =>
         k < |keys| && k < |s.results|
         && s' == s.(holding := s.holding[w := None], results := s.results[k := Some(BandOf(es, sign, keys[k]))])
  }

  /** The pool before anyone starts. */
  function Idle<F>(workers: nat, bands: nat): Pool<F> {
    Pool(0, seq(workers, _ => None), {}, seq(bands, _ => None))
  }

  /** A run: the states of a pool from its start, each a worker's turn after the one before. */
  ghost predicate Run<F(!new)>(es: seq<Elem>, sign: (nat, Option<int>) -> F, keys: seq<int>, workers: nat, states: seq<Pool<F>>) {
    && states != [] && states[0] == Idle(workers, |keys|)
    && forall i: nat :: i + 1 < |states| ==> Follows(es, sign, keys, states, i)
  }

  ghost predicate Follows<F(!new)>(es: seq<Elem>, sign: (nat, Option<int>) -> F, keys: seq<int>, states: seq<Pool<F>>, i: nat)
    requires i + 1 < |states|
  {
    var s, s' := states[i], states[i + 1];
    exists w: nat :: Steps(es, sign, keys, s, w, s')
  }

  /** A run is over when every worker has left. */
  predicate Over<F>(s: Pool<F>) { forall w: nat :: w < |s.holding| ==> w in s.left }

  /** Turn `i` takes band `k`: a worker holds it that did not. */
  ghost predicate Takes<F(!new)>(states: seq<Pool<F>>, i: nat, k: nat)
    requires i + 1 < |states|
  {
    var s, s' := states[i], states[i + 1];
    exists w: nat :: Gains(s, w, k, s')
  }

  predicate Gains<F>(s: Pool<F>, w: nat, k: nat, s': Pool<F>) {
    w < |s.holding| && w < |s'.holding| && s.holding[w] != Some(k) && s'.holding[w] == Some(k)
  }

  ghost predicate Taken<F(!new)>(states: seq<Pool<F>>, k: nat) { exists i: nat :: i + 1 < |states| && Takes(states, i, k) }

  lemma {:induction false} IdleRunning<F(!new)>(es: seq<Elem>, sign: (nat, Option<int>) -> F, keys: seq<int>, workers: nat)
    ensures Running(es, sign, keys, Idle(workers, |keys|))
  {
    hide Band;
    NothingHeld(Idle<F>(workers, |keys|).holding);
  }

  /** Any worker's turn keeps the pool's invariants. */
  lemma {:induction false} StepsRunning<F(!new)>(es: seq<Elem>, sign: (nat, Option<int>) -> F, keys: seq<int>, s: Pool<F>, w: nat, s': Pool<F>)
    requires Running(es, sign, keys, s) && Steps(es, sign, keys, s, w, s')
    ensures Running(es, sign, keys, s') && |s'.holding| == |s.holding| && s.next <= s'.next <= s.next + 1
  {
    hide Band, Held;
    match s.holding[w] {
      case None =>
        if s.next < |keys| { Claimed(es, sign, keys, s.next, s.holding, s.results, w); }
      case Some(k) =>
        HandedIn(es, sign, keys, s.next, s.holding, s.results, w, k);
    }
  }

  /** Every state of a run keeps the invariants, and the counter never goes back. */
  lemma {:induction false} RunRunning<F(!new)>(es: seq<Elem>, sign: (nat, Option<int>) -> F, keys: seq<int>, workers: nat, states: seq<Pool<F>>, i: nat, j: nat)
    requires Run(es, sign, keys, workers, states) && i <= j < |states|
    ensures Running(es, sign, keys, states[j]) && |states[j].holding| == workers && states[i].next <= states[j].next
    decreases j
  {
    hide Running, Steps;
    if j == 0 {
      IdleRunning(es, sign, keys, workers);
    } else {
      RunRunning(es, sign, keys, workers, states, if i < j then i else j - 1, j - 1);
      assert Follows(es, sign, keys, states, j - 1);
      var w: nat :| Steps(es, sign, keys, states[j - 1], w, states[j]);
      StepsRunning(es, sign, keys, states[j - 1], w, states[j]);
    }
  }

  /** In every state of every run of a pool so sized, whoever moves when, the grids alive are
      within the budget. */
  lemma {:induction false} LiveWithin<F(!new)>(m: Machine, es: seq<Elem>, sign: (nat, Option<int>) -> F, keys: seq<int>, procs: nat, workers: nat,
                                        states: seq<Pool<F>>, i: nat)
    requires Sized(m, es, keys, procs, workers) && Run(es, sign, keys, workers, states) && i < |states|
    ensures LiveCells(m, es, keys, states[i].holding) <= 41943040
  {
    hide Run, Running, Sized, LiveCells;
    RunRunning(es, sign, keys, workers, states, i, i);
    SizedLive(m, es, keys, procs, workers, states[i].holding);
  }

  /** A turn takes a band exactly when the counter stood at it, and moves the counter on. */
  lemma {:induction false} TakesNext<F(!new)>(es: seq<Elem>, sign: (nat, Option<int>) -> F, keys: seq<int>, workers: nat, states: seq<Pool<F>>, i: nat, k: nat)
    requires Run(es, sign, keys, workers, states) && i + 1 < |states| && k < |keys|
    ensures Takes(states, i, k) <==> states[i].next == k && states[i + 1].next == k + 1
  {
    RunRunning(es, sign, keys, workers, states, i, i);
    assert Follows(es, sign, keys, states, i);
    var w: nat :| Steps(es, sign, keys, states[i], w, states[i + 1]);
    hide Run, Band, Held;
    var s, s' := states[i], states[i + 1];
    if s.next == k && s'.next == k + 1 {
      assert Gains(s, w, k, s');
    }
  }

  /** No band is taken twice in a run. */
  lemma {:induction false} TakenOnce<F(!new)>(es: seq<Elem>, sign: (nat, Option<int>) -> F, keys: seq<int>, workers: nat, states: seq<Pool<F>>, i: nat, j: nat, k: nat)
    requires Run(es, sign, keys, workers, states) && i <= j && j + 1 < |states| && k < |keys|
    requires Takes(states, i, k) && Takes(states, j, k)
    ensures i == j
  {
    TakesNext(es, sign, keys, workers, states, i, k);
    TakesNext(es, sign, keys, workers, states, j, k);
    hide Run, Takes, Running;
    if i < j { RunRunning(es, sign, keys, workers, states, i + 1, j); }
  }

  /** In a run that is over, every band was taken, and every result is its band's own. */
  lemma {:induction false} AllTaken<F(!new)>(es: seq<Elem>, sign: (nat, Option<int>) -> F, keys: seq<int>, workers: nat, states: seq<Pool<F>>, k: nat) returns (i: nat)
    requires Run(es, sign, keys, workers, states) && workers > 0 && Over(states[|states| - 1]) && k < |keys|
    ensures i + 1 < |states| && Takes(states, i, k)
    ensures states[|states| - 1].results == AllBands(es, sign, keys)
  {
    var n := |states| - 1;
    RunRunning(es, sign, keys, workers, states, n, n);
    OverDone(es, sign, keys, states[n]);
    assert states[0].next == 0;
    hide Running, Takes, Over;
    i := n;
    while states[i].next > k
      invariant 0 <= i <= n && (i < n ==> states[i + 1].next > k)
      decreases i
    {
      RunRunning(es, sign, keys, workers, states, 0, i - 1);
      i := i - 1;
    }
    CounterSteps(es, sign, keys, workers, states, i);
    TakesNext(es, sign, keys, workers, states, i, k);
  }

  lemma {:induction false} CounterSteps<F(!new)>(es: seq<Elem>, sign: (nat, Option<int>) -> F, keys: seq<int>, workers: nat, states: seq<Pool<F>>, i: nat)
    requires Run(es, sign, keys, workers, states) && i + 1 < |states|
    ensures states[i + 1].next <= states[i].next + 1
  {
    RunRunning(es, sign, keys, workers, states, i, i);
    assert Follows(es, sign, keys, states, i);
    var w: nat :| Steps(es, sign, keys, states[i], w, states[i + 1]);
    StepsRunning(es, sign, keys, states[i], w, states[i + 1]);
  }

  function AllBands<F>(es: seq<Elem>, sign: (nat, Option<int>) -> F, keys: seq<int>): seq<Option<map<string, F>>> {
    seq(|keys|, k requires 0 <= k < |keys| => Some(BandOf(es, sign, keys[k])))
  }

  lemma {:induction false} OverDone<F(!new)>(es: seq<Elem>, sign: (nat, Option<int>) -> F, keys: seq<int>, s: Pool<F>)
    requires Running(es, sign, keys, s) && Over(s) && |s.holding| > 0
    ensures s.next >= |keys| && s.results == AllBands(es, sign, keys)
  {
    hide Band, Held;
    assert 0 in s.left;
    AllHandedIn(es, sign, keys, s.next, s.holding, s.results);
  }

  /** Bands not claimed yet. */
  function Waiting(keys: seq<int>, next: nat): nat { if next < |keys| then |keys| - next else 0 }

  /** One worker's turn. */
  method Turn<F(!new)>(es: seq<Elem>, sign: (nat, Option<int>) -> F, keys: seq<int>, w: nat, s: Pool<F>) returns (s': Pool<F>)
    requires Running(es, sign, keys, s) && w < |s.holding| && w !in s.left
    ensures Steps(es, sign, keys, s, w, s') && Running(es, sign, keys, s') && |s'.holding| == |s.holding|
    ensures Waiting(keys, s'.next) <= Waiting(keys, s.next)
    ensures Waiting(keys, s'.next) == Waiting(keys, s.next) ==> Outstanding(s'.holding) <= Outstanding(s.holding)
    ensures Waiting(keys, s'.next) == Waiting(keys, s.next) && Outstanding(s'.holding) == Outstanding(s.holding) ==>
      |s.left| < |s'.left| <= |s.holding|
  {
    hide Band, Held, Outstanding;
    match s.holding[w] {
      case None =>
        if s.next < |keys| {
          s' := s.(next := s.next + 1, holding := s.holding[w := Some(s.next)]);
        } else {
          FewBelow(s.left + {w}, |s.holding|);
          s' := s.(next := s.next + 1, left := s.left + {w});
        }
      case Some(k) =>
        OutstandingSet(s.holding, w, None);
        s' := s.(holding := s.holding[w := None], results := s.results[k := Some(BandOf(es, sign, keys[k]))]);
    }
    StepsRunning(es, sign, keys, s, w, s');
  }

  /** Runs the pool to its end, an arbitrary worker moving at every turn. `states` is the run:
      whichever run it was, the grids alive never exceed the budget, every band is taken, by
      one turn, and the results are the bands' own. */
  method RunPool<F(!new)>(m: Machine, es: seq<Elem>, sign: (nat, Option<int>) -> F, keys: seq<int>, procs: nat)
    returns (results: seq<Option<map<string, F>>>, ghost workers: nat, ghost states: seq<Pool<F>>)
    requires Sane(m)
    ensures Sized(m, es, keys, procs, workers) && Run(es, sign, keys, workers, states) && Over(states[|states| - 1])
    ensures forall i :: 0 <= i < |states| ==> LiveCells(m, es, keys, states[i].holding) <= CELL_BUDGET
    ensures forall k: nat :: k < |keys| ==> Taken(states, k)
    ensures results == states[|states| - 1].results
    ensures results == AllBands(es, sign, keys)
  {
    hide Band, Held, LiveCells, Sized, Running, Outstanding, Steps, Takes, Waiting;
    var size := PoolSize(m, es, keys, procs);
    workers := size;
    assert workers > 0 by { SizedSome(m, es, keys, procs, workers); }
    var s: Pool<F> := Idle(size, |keys|);
    states := [s];
    IdleRunning(es, sign, keys, workers);
    while exists w: nat :: w < size && w !in s.left
      invariant |s.holding| == size && Running(es, sign, keys, s)
      invariant Run(es, sign, keys, workers, states) && states[|states| - 1] == s
      decreases Waiting(keys, s.next), Outstanding(s.holding), size - |s.left|
    {
      var w: nat :| w < size && w !in s.left;
      var s' := Turn(es, sign, keys, w, s);
      RunGoesOn(es, sign, keys, workers, states, w, s');
      s, states := s', states + [s'];
    }
    results := s.results;
    OverDone(es, sign, keys, s);
    forall i | 0 <= i < |states| ensures LiveCells(m, es, keys, states[i].holding) <= CELL_BUDGET {
      LiveWithin(m, es, sign, keys, procs, workers, states, i);
    }
    forall k: nat | k < |keys| ensures Taken(states, k) {
      var i := AllTaken(es, sign, keys, workers, states, k);
    }
  }

  lemma {:induction false} SizedSome(m: Machine, es: seq<Elem>, keys: seq<int>, procs: nat, workers: nat)
    requires Sized(m, es, keys, procs, workers)
    ensures workers > 0
  {
  }

  lemma {:induction false} RunGoesOn<F(!new)>(es: seq<Elem>, sign: (nat, Option<int>) -> F, keys: seq<int>, workers: nat, states: seq<Pool<F>>, w: nat, s': Pool<F>)
    requires Run(es, sign, keys, workers, states) && Steps(es, sign, keys, states[|states| - 1], w, s')
    ensures Run(es, sign, keys, workers, states + [s'])
  {
    hide Steps;
    var more := states + [s'];
    forall i: nat | i + 1 < |more| ensures Follows(es, sign, keys, more, i) {
      if i + 1 < |states| {
        assert Follows(es, sign, keys, states, i);
        assert more[i] == states[i] && more[i + 1] == states[i + 1];
      } else {
        assert more[i] == states[|states| - 1] && more[i + 1] == s';
      }
    }
  }

  function BandOf<F>(es: seq<Elem>, sign: (nat, Option<int>) -> F, key: int): map<string, F> { Band(es, sign, key, |es|) }

  lemma {:induction false} NothingHeld(holding: seq<Option<nat>>)
    requires forall w :: 0 <= w < |holding| ==> holding[w].None?
    ensures forall k :: !Held(holding, k)
  {
  }

  lemma {:induction false} AllHandedIn<F(!new)>(es: seq<Elem>, sign: (nat, Option<int>) -> F, keys: seq<int>, next: nat,
                                          holding: seq<Option<nat>>, results: seq<Option<map<string, F>>>)
    requires PoolOk(es, sign, keys, next, holding, results) && next >= |keys|
    requires forall w :: 0 <= w < |holding| ==> holding[w].None?
    ensures forall k :: 0 <= k < |keys| ==> results[k] == Some(Band(es, sign, keys[k], |es|))
  {
    hide Band;
    NothingHeld(holding);
  }

  // ---------------------------------------------------------------- the classification

  predicate IntLe(a: int, b: int) { a <= b }

  predicate Unbanded(es: seq<Elem>, i: nat)
    requires i < |es|
  {
    es[i].axis && es[i].key.None?
  }

  /** The last unbanded element with its id among the first `n`. */
  ghost predicate LastUnbanded(es: seq<Elem>, n: nat, i: nat)
    requires n <= |es|
  {
    i < n && Unbanded(es, i) && forall j: nat :: i < j < n && Unbanded(es, j) ==> es[j].id != es[i].id
  }

  /** Right for the unbanded elements among the first `n`. */
  ghost predicate RightTo<F(!new)>(es: seq<Elem>, sign: (nat, Option<int>) -> F, n: nat, out: map<string, F>)
    requires n <= |es|
  {
    && (forall i: nat :: LastUnbanded(es, n, i) ==> es[i].id in out && out[es[i].id] == sign(i, None))
    && (forall id <- out :: exists i: nat :: i < n && Unbanded(es, i) && es[i].id == id)
  }

  lemma {:induction false} RightSkips<F(!new)>(es: seq<Elem>, sign: (nat, Option<int>) -> F, n: nat, out: map<string, F>)
    requires n < |es| && !Unbanded(es, n) && RightTo(es, sign, n, out)
    ensures RightTo(es, sign, n + 1, out)
  {
    forall i: nat | LastUnbanded(es, n + 1, i) ensures LastUnbanded(es, n, i) { }
    hide LastUnbanded;
  }

  lemma {:induction false} RightAdds<F(!new)>(es: seq<Elem>, sign: (nat, Option<int>) -> F, n: nat, out: map<string, F>)
    requires n < |es| && Unbanded(es, n) && RightTo(es, sign, n, out)
    ensures RightTo(es, sign, n + 1, out[es[n].id := sign(n, None)])
  {
    var now := out[es[n].id := sign(n, None)];
    forall i: nat | LastUnbanded(es, n + 1, i) ensures es[i].id in now && now[es[i].id] == sign(i, None) {
      if i < n {
        assert es[n].id != es[i].id;
        assert LastUnbanded(es, n, i);
      }
    }
    hide LastUnbanded;
    forall id | id in now ensures exists i: nat :: i < n + 1 && Unbanded(es, i) && es[i].id == id {
      if id != es[n].id {
        var i: nat :| i < n && Unbanded(es, i) && es[i].id == id;
        assert i < n + 1;
      }
    }
  }

  lemma {:induction false} RightAll<F(!new)>(es: seq<Elem>, sign: (nat, Option<int>) -> F, out: map<string, F>)
    requires RightTo(es, sign, |es|, out)
    ensures Right(es, sign, [], out)
  {
    forall id, i: nat | WinnerIn(es, [], id, i) ensures id in out && out[id] == sign(i, es[i].key) {
      WinnerIsLast(es, id, i);
      hide WinnerIn, LastUnbanded;
    }
    hide WinnerIn, LastUnbanded;
    forall id | id in out ensures exists i: nat :: i < |es| && Considered(es, [], i) && es[i].id == id {
      var i: nat :| i < |es| && Unbanded(es, i) && es[i].id == id;
      assert Considered(es, [], i);
    }
  }

  lemma {:induction false} WinnerIsLast(es: seq<Elem>, id: string, i: nat)
    requires WinnerIn(es, [], id, i)
    ensures LastUnbanded(es, |es|, i) && es[i].id == id && es[i].key.None?
  {
    forall j: nat | i < j < |es| && Unbanded(es, j) ensures es[j].id != id {
      assert Considered(es, [], j);
    }
  }

  ghost predicate KeysTo(es: seq<Elem>, n: nat, keys: seq<int>)
    requires n <= |es|
  {
    && (forall k :: k in keys <==> exists i: nat :: i < n && InBand(es, k, i))
    && NoRepeats(keys)
  }

  lemma {:induction false} KeyStep(es: seq<Elem>, n: nat, keys: seq<int>)
    requires n < |es| && KeysTo(es, n, keys)
    ensures var e := es[n];
      KeysTo(es, n + 1, if e.axis && e.key.Some? && e.key.value !in keys then keys + [e.key.value] else keys)
  {
    var e := es[n];
    var more := if e.axis && e.key.Some? && e.key.value !in keys then keys + [e.key.value] else keys;
    forall k ensures k in more <==> exists i: nat :: i < n + 1 && InBand(es, k, i) {
      if k in keys {
        var i: nat :| i < n && InBand(es, k, i);
        assert i < n + 1;
      }
      if InBand(es, k, n) { assert n < n + 1; }
      if i: nat :| i < n + 1 && InBand(es, k, i) { assert i < n || i == n; }
    }
  }

  /** The facings of the unbanded elements, and the bands' keys in first-seen order. */
  method Sift<F(!new)>(es: seq<Elem>, sign: (nat, Option<int>) -> F) returns (out: map<string, F>, keys: seq<int>)
    ensures Right(es, sign, [], out) && KeysTo(es, |es|, keys)
  {
    out, keys := map[], [];
    hide RightTo, Right, KeysTo;
    SiftStarts(es, sign);
    for n := 0 to |es|
      invariant RightTo(es, sign, n, out) && KeysTo(es, n, keys)
    {
      var e := es[n];
      KeyStep(es, n, keys);
      if e.axis && e.key.None? {
        RightAdds(es, sign, n, out);
        out := out[e.id := sign(n, None)];
        continue;
      }
      RightSkips(es, sign, n, out);
      if e.axis && e.key.value !in keys {
        keys := keys + [e.key.value];
      }
    }
    RightAll(es, sign, out);
  }

  lemma {:induction false} SiftStarts<F(!new)>(es: seq<Elem>, sign: (nat, Option<int>) -> F)
    ensures RightTo(es, sign, 0, map[]) && KeysTo(es, 0, [])
  {
  }

  /** A facade element of that id. */
  predicate Named(es: seq<Elem>, id: string, i: nat) { i < |es| && es[i].axis && es[i].id == id }

  /** The element whose facing an id ends up with: the last classified serially. */
  ghost predicate Winner(es: seq<Elem>, id: string, i: nat) {
    Named(es, id, i) && forall j: nat :: Named(es, id, j) && j != i ==> Before(es, j, i)
  }

  lemma {:induction false} SomeWinner(es: seq<Elem>, id: string, n: nat, i: nat) returns (w: nat)
    requires i < n <= |es| && Named(es, id, i)
    ensures w < n && Named(es, id, w) && forall j: nat :: j < n && Named(es, id, j) && j != w ==> Before(es, j, w)
    decreases n
  {
    if i < n - 1 {
      w := SomeWinner(es, id, n - 1, i);
      if Named(es, id, n - 1) && Before(es, w, n - 1) { w := n - 1; }
    } else if j: nat :| j < n - 1 && Named(es, id, j) {
      w := SomeWinner(es, id, n - 1, j);
      if Before(es, w, n - 1) { w := n - 1; }
    } else {
      w := n - 1;
    }
  }

  /** With every band merged, the map is the serial one. */
  lemma {:induction false} AllMerged<F(!new)>(es: seq<Elem>, sign: (nat, Option<int>) -> F, keys: seq<int>, out: map<string, F>)
    requires Right(es, sign, keys, out) && forall i: nat :: i < |es| && es[i].axis ==> Considered(es, keys, i)
    ensures forall id, i: nat :: Winner(es, id, i) ==> id in out && out[id] == sign(i, es[i].key)
    ensures forall id :: id in out <==> exists i: nat :: Named(es, id, i)
  {
    hide Before;
    forall id, i: nat | Winner(es, id, i) ensures id in out && out[id] == sign(i, es[i].key) {
      assert Considered(es, keys, i);
      forall j: nat | j < |es| && j != i && Considered(es, keys, j) && es[j].id == id ensures Before(es, j, i) {
        assert Named(es, id, j);
      }
      assert WinnerIn(es, keys, id, i);
    }
    forall id ensures id in out <==> exists i: nat :: Named(es, id, i) {
      if i: nat :| Named(es, id, i) {
        var w := SomeWinner(es, id, |es|, i);
        assert Winner(es, id, w);
      }
      if id in out {
        var i: nat :| i < |es| && Considered(es, keys, i) && es[i].id == id;
        assert Named(es, id, i);
      }
    }
  }

  /** Classifies every element. Whatever the schedule of the pool, each id's facing is its
      winner's, the last classified serially: unbanded elements first, then bands in key
      order. Exactly the ids of facade elements have one. */
  method BuildFacings<F(!new)>(m: Machine, es: seq<Elem>, sign: (nat, Option<int>) -> F, procs: nat)
    returns (out: map<string, F>)
    requires Sane(m)
    ensures forall id, i: nat :: Winner(es, id, i) ==> id in out && out[id] == sign(i, es[i].key)
    ensures forall id :: id in out <==> exists i: nat :: Named(es, id, i)
  {
    hide Band, Right, InBand, Winner, Named, Run, Taken, Sized, Over, LiveCells, AllBands, Sorted;
    var found;
    out, found := Sift(es, sign);
    var sorted := Sort(found, IntLe);
    StrictlySorted(found, sorted);
    var results;
    ghost var workers, states;
    results, workers, states := RunPool(m, es, sign, sorted, procs);
    BandsAre(es, sign, sorted);
    for n := 0 to |sorted|
      invariant Right(es, sign, sorted[..n], out)
    {
      assert forall k <- sorted[..n] :: k < sorted[n] by {
        forall k | k in sorted[..n] ensures k < sorted[n] { var j :| 0 <= j < n && sorted[..n][j] == k; }
      }
      MergeStep(es, sign, sorted[..n], sorted[n], out);
      out := out + results[n].value;
      assert sorted[..n + 1] == sorted[..n] + [sorted[n]];
    }
    assert sorted[..|sorted|] == sorted;
    EveryBand(es, found, sorted);
    AllMerged(es, sign, sorted, out);
  }

  lemma {:induction false} BandsAre<F(!new)>(es: seq<Elem>, sign: (nat, Option<int>) -> F, keys: seq<int>)
    ensures |AllBands(es, sign, keys)| == |keys| && forall n :: 0 <= n < |keys| ==> AllBands(es, sign, keys)[n] == Some(Band(es, sign, keys[n], |es|))
  {
  }

  lemma {:induction false} StrictlySorted(found: seq<int>, sorted: seq<int>)
    requires Sorted(sorted, IntLe) && multiset(sorted) == multiset(found)
    requires NoRepeats(found)
    ensures forall i, j :: 0 <= i < j < |sorted| ==> sorted[i] < sorted[j]
    ensures forall k :: k in sorted <==> k in found
  {
    forall k ensures k in sorted <==> k in found { SameMembers(sorted, found, k); }
    NoRepeatsKept(sorted, found);
  }

  lemma {:induction false} EveryBand(es: seq<Elem>, found: seq<int>, keys: seq<int>)
    requires forall k :: k in keys <==> k in found
    requires forall k :: k in found <==> exists i: nat :: i < |es| && InBand(es, k, i)
    ensures forall i: nat :: i < |es| && es[i].axis ==> Considered(es, keys, i)
  {
    forall i: nat | i < |es| && es[i].axis ensures Considered(es, keys, i) {
      if es[i].key.Some? { assert InBand(es, es[i].key.value, i); }
    }
  }
}
