// Values as handles: a kind, a packed word and a length, naming strings and list
// members in a slab. `Denote` is the tree a handle stands for; the slab discipline
// (a list is closed before its parent) is what makes it well founded.
module StepSlab {
  import opened StepLexer
  import opened StepGrammar

  datatype Kind =
    | KindNull | KindDerived | KindInt | KindFloat | KindString | KindEnum
    | KindBool | KindLogical | KindBinary | KindRef | KindList | KindTyped

  datatype Value = Value(kind: Kind, x: nat, n: nat)

  datatype Slab = Slab(vals: seq<Value>, strs: Bytes)

  // A handle's word packs a slab number above 48 bits of offset.
  const SLAB_UNIT: nat := 0x1_0000_0000_0000
  const MAX_OFF: nat := 0xFFFF_FFFF  // an instance keeps its offset in 32 bits
  const MAX_SLAB: nat := 0xFFFF

  function SlabRef(slab: nat, off: nat): nat { slab * SLAB_UNIT + off }
  function SlabOf(v: Value): nat { v.x / SLAB_UNIT }
  function OffOf(v: Value): nat { v.x % SLAB_UNIT }

  lemma {:induction false} SlabRefParts(slab: nat, off: nat, v: Value)
    requires off <= MAX_OFF && v.x == SlabRef(slab, off)
    ensures SlabOf(v) == slab && OffOf(v) == off
  {
  }

  predicate IsText(k: Kind) { k == KindString || k == KindEnum || k == KindBinary }
  predicate IsAggregate(k: Kind) { k == KindList || k == KindTyped }

  /** Where the slab entries under a handle end. */
  function End(v: Value): nat { if IsAggregate(v.kind) then OffOf(v) + v.n else 0 }

  /** `v` is a handle into slab `k` that points only below `limit`. */
  predicate Fits(k: nat, s: Slab, v: Value, limit: nat) {
    && (IsText(v.kind) ==> SlabOf(v) == k && OffOf(v) + v.n <= |s.strs|)
    && (IsAggregate(v.kind) ==> SlabOf(v) == k && End(v) <= limit && limit <= |s.vals|)
    && (v.kind == KindTyped ==> v.n >= 1 && s.vals[OffOf(v)].kind == KindString)
  }

  /** Every aggregate handle stored in the slab points strictly below its own entry. */
  predicate Valid(k: nat, s: Slab) {
    forall i :: 0 <= i < |s.vals| ==> Fits(k, s, s.vals[i], i)
  }

  predicate AllFit(k: nat, s: Slab, vs: seq<Value>) {
    forall i :: 0 <= i < |vs| ==> Fits(k, s, vs[i], |s.vals|)
  }

  function Text(s: Slab, v: Value): Bytes
    requires OffOf(v) + v.n <= |s.strs|
  {
    s.strs[OffOf(v)..OffOf(v) + v.n]
  }

  function SignedWord(x: nat): int {
    if x < 0x8000_0000_0000_0000 then x else x - 0x1_0000_0000_0000_0000
  }

  /** The tree a handle stands for. */
  function Denote(k: nat, s: Slab, v: Value): Tree
    requires Valid(k, s) && Fits(k, s, v, |s.vals|)
    decreases End(v), 1
  {
    match v.kind
    case KindNull => TNull
    case KindDerived => TDerived
    case KindInt => TInt(SignedWord(v.x))
    case KindFloat => TReal(v.x)
    case KindString => TStr(Text(s, v))
    case KindEnum => TEnum(Text(s, v))
    case KindBool => TBool(v.x != 0)
    case KindLogical => TLogical
    case KindBinary => TBinary(Text(s, v))
    case KindRef => TRef(v.x)
    case KindList => TList(DenoteRange(k, s, OffOf(v), End(v)))
    case KindTyped => TTyped(Text(s, s.vals[OffOf(v)]), DenoteRange(k, s, OffOf(v) + 1, End(v)))
  }

  /** The trees of the slab entries in [lo, hi). */
  function DenoteRange(k: nat, s: Slab, lo: nat, hi: nat): (ts: seq<Tree>)
    requires Valid(k, s) && lo <= hi <= |s.vals|
    ensures |ts| == hi - lo
    decreases hi, 0
  {
    seq(hi - lo, i requires 0 <= i < hi - lo => assert Fits(k, s, s.vals[lo + i], lo + i); Denote(k, s, s.vals[lo + i]))
  }

  function DenoteAll(k: nat, s: Slab, vs: seq<Value>): (ts: seq<Tree>)
    requires Valid(k, s) && AllFit(k, s, vs)
    ensures |ts| == |vs|
  {
    seq(|vs|, i requires 0 <= i < |vs| => Denote(k, s, vs[i]))
  }

  // ---------------------------------------------------------------- growth

  predicate Grows(s: Slab, t: Slab) { s.vals <= t.vals && s.strs <= t.strs }

  lemma {:induction false} FitsGrown(k: nat, s: Slab, t: Slab, v: Value, limit: nat)
    requires Grows(s, t) && Fits(k, s, v, limit)
    ensures Fits(k, t, v, limit)
  {
  }

  lemma {:induction false} TextGrown(s: Slab, t: Slab, v: Value)
    requires Grows(s, t) && OffOf(v) + v.n <= |s.strs|
    ensures Text(s, v) == Text(t, v)
  {
  }

  /** Appending to a slab never changes what an existing handle stands for. */
  lemma {:induction false} DenoteGrown(k: nat, s: Slab, t: Slab, v: Value)
    requires Valid(k, s) && Valid(k, t) && Grows(s, t) && Fits(k, s, v, |s.vals|)
    ensures Fits(k, t, v, |t.vals|) && Denote(k, s, v) == Denote(k, t, v)
    decreases End(v), 1
  {
    if IsText(v.kind) {
      TextGrown(s, t, v);
    } else if v.kind == KindList {
      RangeGrown(k, s, t, OffOf(v), End(v));
    } else if v.kind == KindTyped {
      assert Fits(k, s, s.vals[OffOf(v)], OffOf(v));
      TextGrown(s, t, s.vals[OffOf(v)]);
      RangeGrown(k, s, t, OffOf(v) + 1, End(v));
    }
  }

  lemma {:induction false} RangeGrown(k: nat, s: Slab, t: Slab, lo: nat, hi: nat)
    requires Valid(k, s) && Valid(k, t) && Grows(s, t) && lo <= hi <= |s.vals|
    ensures DenoteRange(k, s, lo, hi) == DenoteRange(k, t, lo, hi)
    decreases hi, 0
  {
    forall i | 0 <= i < hi - lo
      ensures DenoteRange(k, s, lo, hi)[i] == DenoteRange(k, t, lo, hi)[i]
    {
      assert Fits(k, s, s.vals[lo + i], lo + i);
      DenoteGrown(k, s, t, s.vals[lo + i]);
    }
  }

  lemma {:induction false} AllGrown(k: nat, s: Slab, t: Slab, vs: seq<Value>)
    requires Valid(k, s) && Valid(k, t) && Grows(s, t) && AllFit(k, s, vs)
    ensures AllFit(k, t, vs) && DenoteAll(k, s, vs) == DenoteAll(k, t, vs)
  {
    forall i | 0 <= i < |vs| ensures Fits(k, t, vs[i], |t.vals|) && Denote(k, s, vs[i]) == Denote(k, t, vs[i]) {
      DenoteGrown(k, s, t, vs[i]);
    }
  }

  /** Appending well-formed text leaves a valid slab valid. */
  lemma {:induction false} StrsAppended(k: nat, s: Slab, text: Bytes)
    requires Valid(k, s)
    ensures Valid(k, Slab(s.vals, s.strs + text)) && Grows(s, Slab(s.vals, s.strs + text))
  {
    var t := Slab(s.vals, s.strs + text);
    forall i | 0 <= i < |t.vals| ensures Fits(k, t, t.vals[i], i) {
      FitsGrown(k, s, t, s.vals[i], i);
    }
  }

  /** Closing a list: its members, already handles into the slab, become its newest
      entries, and the range they occupy denotes what they denoted on the stack. */
  lemma {:induction false} ListClosed(k: nat, s: Slab, vs: seq<Value>)
    requires Valid(k, s) && AllFit(k, s, vs)
    ensures var t := Slab(s.vals + vs, s.strs);
      && Valid(k, t) && Grows(s, t)
      && DenoteRange(k, t, |s.vals|, |t.vals|) == DenoteAll(k, s, vs)
  {
    var t := Slab(s.vals + vs, s.strs);
    forall i | 0 <= i < |t.vals| ensures Fits(k, t, t.vals[i], i) {
      if i < |s.vals| {
        FitsGrown(k, s, t, s.vals[i], i);
      } else {
        assert t.vals[i] == vs[i - |s.vals|];
        FitsGrown(k, s, t, vs[i - |s.vals|], |s.vals|);
      }
    }
    forall i | 0 <= i < |vs|
      ensures DenoteRange(k, t, |s.vals|, |t.vals|)[i] == DenoteAll(k, s, vs)[i]
    {
      assert t.vals[|s.vals| + i] == vs[i];
      DenoteGrown(k, s, t, vs[i]);
    }
  }

  // ---------------------------------------------------------------- reading back

  /** What `Str` returns: a text value's text or a typed value's keyword, else nothing. */
  function TreeStr(t: Tree): Bytes {
    match t
    case TStr(x) => x
    case TEnum(x) => x
    case TBinary(x) => x
    case TTyped(x, _) => x
    case _ => []
  }

  /** What `List` returns: a list's members or a typed value's inner arguments, else nothing. */
  function TreeList(t: Tree): seq<Tree> {
    match t
    case TList(ts) => ts
    case TTyped(_, ts) => ts
    case _ => []
  }

  function Str(s: Slab, v: Value): Bytes
    requires Fits(SlabOf(v), s, v, |s.vals|) && Valid(SlabOf(v), s)
  {
    if IsText(v.kind) then Text(s, v)
    else if v.kind == KindTyped then
      assert Fits(SlabOf(v), s, s.vals[OffOf(v)], OffOf(v));
      Text(s, s.vals[OffOf(v)])
    else []
  }

  function List(s: Slab, v: Value): seq<Value>
    requires Fits(SlabOf(v), s, v, |s.vals|)
  {
    if v.kind == KindList then s.vals[OffOf(v)..End(v)]
    else if v.kind == KindTyped then s.vals[OffOf(v) + 1..End(v)]
    else []
  }

  /** A list's members fit, and their entries end strictly below their parent's. */
  lemma {:induction false} MembersFit(k: nat, s: Slab, v: Value)
    requires Valid(k, s) && Fits(k, s, v, |s.vals|) && IsAggregate(v.kind)
    ensures AllFit(k, s, List(s, v)) && forall m <- List(s, v) :: End(m) < End(v)
  {
    var vs := List(s, v);
    var lo := if v.kind == KindTyped then OffOf(v) + 1 else OffOf(v);
    forall i | 0 <= i < |vs|
      ensures Fits(k, s, vs[i], |s.vals|) && End(vs[i]) < End(v)
    {
      assert vs[i] == s.vals[lo + i];
      assert Fits(k, s, s.vals[lo + i], lo + i);
    }
  }

  /** Str and List read back exactly the tree a handle stands for, and a member's
      entries end strictly below its parent's: the walk over handles is well founded. */
  lemma {:induction false} ReadBack(k: nat, s: Slab, v: Value)
    requires Valid(k, s) && Fits(k, s, v, |s.vals|)
    requires IsText(v.kind) || IsAggregate(v.kind)
    ensures Str(s, v) == TreeStr(Denote(k, s, v))
    ensures AllFit(k, s, List(s, v)) && DenoteAll(k, s, List(s, v)) == TreeList(Denote(k, s, v))
    ensures forall m <- List(s, v) :: End(m) < End(v)
  {
    if v.kind == KindTyped { assert Fits(k, s, s.vals[OffOf(v)], OffOf(v)); }
    if IsAggregate(v.kind) { MembersFit(k, s, v); }
  }

  // ---------------------------------------------------------------- references

  /** The ids a tree refers to, in the order they are written. */
  function TreeRefs(t: Tree): seq<nat> {
    match t
    case TRef(id) => [id]
    case TList(ts) => TreesRefs(ts)
    case TTyped(_, ts) => TreesRefs(ts)
    case _ => []
  }

  function TreesRefs(ts: seq<Tree>): seq<nat> {
    if ts == [] then [] else TreeRefs(ts[0]) + TreesRefs(ts[1..])
  }

  /** The callback order of the handle walk. */
  function WalkRefs(k: nat, s: Slab, v: Value): seq<nat>
    requires Valid(k, s) && Fits(k, s, v, |s.vals|)
    decreases End(v), 1
  {
    match v.kind
    case KindRef => [v.x]
    case KindList => WalkRange(k, s, OffOf(v), End(v))
    case KindTyped => WalkRange(k, s, OffOf(v) + 1, End(v))
    case _ => []
  }

  function WalkRange(k: nat, s: Slab, lo: nat, hi: nat): seq<nat>
    requires Valid(k, s) && lo <= hi <= |s.vals|
    decreases hi, 0, hi - lo
  {
    if lo == hi then [] else
    assert Fits(k, s, s.vals[lo], lo);
    WalkRefs(k, s, s.vals[lo]) + WalkRange(k, s, lo + 1, hi)
  }

  /** Walking handles visits exactly the references the denoted tree spells, in order. */
  lemma {:induction false} WalkIsTreeRefs(k: nat, s: Slab, v: Value)
    requires Valid(k, s) && Fits(k, s, v, |s.vals|)
    ensures WalkRefs(k, s, v) == TreeRefs(Denote(k, s, v))
    decreases End(v), 1
  {
    if v.kind == KindList {
      RangeIsTreesRefs(k, s, OffOf(v), End(v));
    } else if v.kind == KindTyped {
      RangeIsTreesRefs(k, s, OffOf(v) + 1, End(v));
    }
  }

  lemma {:induction false} RangeIsTreesRefs(k: nat, s: Slab, lo: nat, hi: nat)
    requires Valid(k, s) && lo <= hi <= |s.vals|
    ensures WalkRange(k, s, lo, hi) == TreesRefs(DenoteRange(k, s, lo, hi))
    decreases hi, 0, hi - lo
  {
    if lo < hi {
      assert Fits(k, s, s.vals[lo], lo);
      WalkIsTreeRefs(k, s, s.vals[lo]);
      RangeIsTreesRefs(k, s, lo + 1, hi);
      assert DenoteRange(k, s, lo, hi)[1..] == DenoteRange(k, s, lo + 1, hi);
    }
  }
}
