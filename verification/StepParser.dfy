// The parser object: a scanner, a value stack, and the slab its records land in.
// Every method is proved against the tree reading of StepGrammar.
module StepParser {
  import opened Common
  import opened StepLexer
  import opened StepGrammar
  import opened StepSlab
  import opened StepChunks

  /** An instance as stored: its arguments are slab entries [start, start + n). */
  datatype Inst = Inst(typ: Bytes, id: nat, start: nat, n: nat, slab: nat)

  /** A header record kept until the slabs are frozen. */
  datatype HeaderEntry = HeaderEntry(keyword: Bytes, args: Value)

  predicate InstFits(k: nat, s: Slab, inst: Inst) {
    inst.slab == k && inst.start + inst.n <= |s.vals|
  }

  predicate EntryFits(k: nat, s: Slab, h: HeaderEntry) {
    h.args.kind == KindList && Fits(k, s, h.args, |s.vals|)
  }

  predicate RecordsFit(k: nat, s: Slab, insts: seq<Inst>, header: seq<HeaderEntry>) {
    && (forall i :: 0 <= i < |insts| ==> InstFits(k, s, insts[i]))
    && (forall i :: 0 <= i < |header| ==> EntryFits(k, s, header[i]))
  }

  function DenoteInst(k: nat, s: Slab, inst: Inst): Record
    requires Valid(k, s) && InstFits(k, s, inst)
  {
    Record(inst.id, inst.typ, DenoteRange(k, s, inst.start, inst.start + inst.n))
  }

  function DenoteEntry(k: nat, s: Slab, h: HeaderEntry): HeaderRecord
    requires Valid(k, s) && EntryFits(k, s, h)
  {
    HeaderRecord(h.keyword, DenoteRange(k, s, OffOf(h.args), End(h.args)))
  }

  /** The records held in a slab, as content. */
  function DenoteRecords(k: nat, s: Slab, insts: seq<Inst>, header: seq<HeaderEntry>,
                         complex: map<nat, seq<Bytes>>, starts: seq<nat>): Content
    requires Valid(k, s) && RecordsFit(k, s, insts, header)
  {
    Content(seq(|header|, i requires 0 <= i < |header| => DenoteEntry(k, s, header[i])),
            seq(|insts|, i requires 0 <= i < |insts| => DenoteInst(k, s, insts[i])),
            complex, starts)
  }

  lemma {:induction false} RecordsGrown(k: nat, s: Slab, t: Slab, insts: seq<Inst>, header: seq<HeaderEntry>,
                     complex: map<nat, seq<Bytes>>, starts: seq<nat>)
    requires Valid(k, s) && Valid(k, t) && Grows(s, t) && RecordsFit(k, s, insts, header)
    ensures RecordsFit(k, t, insts, header)
    ensures DenoteRecords(k, s, insts, header, complex, starts) == DenoteRecords(k, t, insts, header, complex, starts)
  {
    forall i | 0 <= i < |insts| ensures InstFits(k, t, insts[i]) && DenoteInst(k, s, insts[i]) == DenoteInst(k, t, insts[i]) {
      RangeGrown(k, s, t, insts[i].start, insts[i].start + insts[i].n);
    }
    forall i | 0 <= i < |header| ensures EntryFits(k, t, header[i]) && DenoteEntry(k, s, header[i]) == DenoteEntry(k, t, header[i]) {
      RangeGrown(k, s, t, OffOf(header[i].args), End(header[i].args));
    }
  }

  /** A stack `now` over slab `m` that holds `before`, built over the smaller slab `m0`,
      and above it handles for exactly `ts`. */
  ghost predicate Above(k: nat, m0: Slab, before: seq<Value>, m: Slab, now: seq<Value>, ts: seq<Tree>) {
    && Valid(k, m) && Grows(m0, m)
    && |now| == |before| + |ts| && now[..|before|] == before
    && AllFit(k, m, now[|before|..])
    && DenoteAll(k, m, now[|before|..]) == ts
  }

  /** Handles pushed in two goes denote the two readings back to back. */
  lemma {:induction false} AboveTwice(k: nat, m0: Slab, before: seq<Value>, m1: Slab, kept: seq<Value>, ts: seq<Tree>,
                                      m2: Slab, now: seq<Value>, us: seq<Tree>)
    requires Valid(k, m1) && Above(k, m0, before, m1, kept, ts) && Above(k, m1, kept, m2, now, us)
    ensures Above(k, m0, before, m2, now, ts + us)
  {
    var base := |before|;
    assert now[..base] == now[..|kept|][..base];
    AllGrown(k, m1, m2, kept[base..]);
    var vs, cut := now[base..], |kept| - base;
    forall i | 0 <= i < |vs| ensures Fits(k, m2, vs[i], |m2.vals|) && Denote(k, m2, vs[i]) == (ts + us)[i] {
      if i < cut {
        assert vs[i] == now[..|kept|][base + i] == kept[base..][i];
        assert DenoteAll(k, m2, kept[base..])[i] == ts[i];
      } else {
        assert vs[i] == now[|kept|..][i - cut];
        assert DenoteAll(k, m2, now[|kept|..])[i - cut] == us[i - cut];
      }
    }
  }

  lemma {:induction false} PushOne(k: nat, m: Slab, stack: seq<Value>, v: Value)
    requires Valid(k, m) && AllFit(k, m, stack) && Fits(k, m, v, |m.vals|)
    ensures AllFit(k, m, stack + [v]) && AllFit(k, m, (stack + [v])[|stack|..])
    ensures DenoteAll(k, m, (stack + [v])[|stack|..]) == [Denote(k, m, v)]
  {
    assert (stack + [v])[|stack|..] == [v];
  }

  /** A closed list appended as a record. */
  lemma {:induction false} RecordAdded(k: nat, s: Slab, insts: seq<Inst>, header: seq<HeaderEntry>, complex: map<nat, seq<Bytes>>,
                     starts: seq<nat>, inst: Inst, complex': map<nat, seq<Bytes>>, at: nat)
    requires Valid(k, s) && RecordsFit(k, s, insts, header) && InstFits(k, s, inst)
    ensures RecordsFit(k, s, insts + [inst], header)
    ensures DenoteRecords(k, s, insts + [inst], header, complex + complex', starts + [at])
         == Join(DenoteRecords(k, s, insts, header, complex, starts), Content([], [DenoteInst(k, s, inst)], complex', [at]))
  {
  }

  function Prepend(ts: seq<Tree>, r: Parse<seq<Tree>>): Parse<seq<Tree>> {
    match r
    case Ok(us, p) => Ok(ts + us, p)
    case Err(p) => Err(p)
  }

  lemma {:induction false} PrependOne(ts: seq<Tree>, t: Tree, r: Parse<seq<Tree>>)
    ensures Prepend(ts, Prepend([t], r)) == Prepend(ts + [t], r)
    ensures Prepend([], r) == r
  {
    if r.Ok? {
      assert ts + ([t] + r.value) == ts + [t] + r.value;
      assert [] + r.value == r.value;
    }
  }

  function PrependPart(ps: seq<Bytes>, ts: seq<Tree>, r: Parse<(seq<Bytes>, seq<Tree>)>): Parse<(seq<Bytes>, seq<Tree>)> {
    match r
    case Ok(rest, p) => Ok((ps + rest.0, ts + rest.1), p)
    case Err(p) => Err(p)
  }

  lemma {:induction false} PrependParts(ps: seq<Bytes>, ts: seq<Tree>, w: Bytes, us: seq<Tree>, r: Parse<(seq<Bytes>, seq<Tree>)>)
    ensures PrependPart(ps, ts, PrependPart([w], us, r)) == PrependPart(ps + [w], ts + us, r)
    ensures PrependPart([], [], r) == r
  {
    if r.Ok? {
      assert ps + ([w] + r.value.0) == ps + [w] + r.value.0;
      assert ts + (us + r.value.1) == ts + us + r.value.1;
      assert [] + r.value.0 == r.value.0 && [] + r.value.1 == r.value.1;
    }
  }

  predicate IsScalar(kind: TokenKind) {
    kind !in {TokEnum, TokBinary, TokString, TokLParen, TokKeyword}
  }

  /** The tree of a handle that carries no slab data. */
  function PlainTree(v: Value): Option<Tree> {
    match v.kind
    case KindNull => Some(TNull)
    case KindDerived => Some(TDerived)
    case KindInt => Some(TInt(SignedWord(v.x)))
    case KindFloat => Some(TReal(v.x))
    case KindBool => Some(TBool(v.x != 0))
    case KindLogical => Some(TLogical)
    case KindRef => Some(TRef(v.x))
    case _ => None
  }

  /** The handle of a scalar token: the value fits in the handle itself. */
  method ScalarHandle(codec: Codec, src: Bytes, tok: Token, p: nat) returns (v: Option<Value>)
    requires p <= |src| && IsScalar(tok.kind)
    ensures v.Some? == ValueAt(codec, src, tok, p).Ok? && ValueAt(codec, src, tok, p).pos == p
    ensures v.Some? ==> PlainTree(v.value) == Some(ValueAt(codec, src, tok, p).value)
  {
    match tok.kind {
      case TokDollar => v := Some(Value(KindNull, 0, 0));
      case TokStar => v := Some(Value(KindDerived, 0, 0));
      case TokRef =>
        var id := ParseUint32(tok.text);
        if id.None? { return None; }
        v := Some(Value(KindRef, id.value, 0));
      case TokBool =>
        if |tok.text| == 1 && tok.text[0] == 'U' {
          v := Some(Value(KindLogical, 0, 0));
        } else {
          v := Some(Value(KindBool, if |tok.text| == 1 && tok.text[0] == 'T' then 1 else 0, 0));
        }
      case TokInt =>
        var n := codec.int64(tok.text);
        if n.None? { return None; }
        var word: int := n.value;
        v := Some(Value(KindInt, if word >= 0 then word else word + 0x1_0000_0000_0000_0000, 0));
      case TokFloat =>
        var f := codec.float64(tok.text);
        if f.None? { return None; }
        v := Some(Value(KindFloat, f.value, 0));
      case _ => v := None;
    }
  }

  class Parser {
    const codec: Codec
    const slab: nat
    const s: Scanner
    const stopAtData: bool
    var intern: map<Bytes, Bytes>
    var stack: seq<Value>
    var vals: seq<Value>
    var strs: Bytes
    var insts: seq<Inst>
    var complex: map<nat, seq<Bytes>>
    var header: seq<HeaderEntry>
    var atData: bool
    ghost var starts: seq<nat>  // where each instance's '#' stood

    ghost function Mem(): Slab
      reads this
    {
      Slab(vals, strs)
    }

    /** The representation invariant. The byte bounds are why 32-bit offsets and 48-bit
        packing never overflow: every value and every text byte was paid for by input. */
    ghost predicate Inv()
      reads this, s
    {
      && s.Valid() && |s.src| <= MAX_OFF && slab <= MAX_SLAB && Shrinks(codec)
      && |vals| + |stack| <= s.pos && |strs| <= s.pos
      && Valid(slab, Mem()) && AllFit(slab, Mem(), stack)
      && RecordsFit(slab, Mem(), insts, header)
      && (forall w <- intern :: intern[w] == Upper(w))
    }

    /** What has been read so far. */
    ghost function Found(): Content
      requires Inv()
      reads this, s
    {
      DenoteRecords(slab, Mem(), insts, header, complex, starts)
    }

    /** The stack holds `before` and then handles for exactly `ts`. */
    ghost predicate Pushed(before: seq<Value>, m0: Slab, ts: seq<Tree>)
      reads this, s
    {
      Inv() && Above(slab, m0, before, Mem(), stack, ts)
    }

    constructor (c: Codec, src: Bytes, slab: nat, at: nat, stopAtData: bool)
      requires Shrinks(c) && |src| <= MAX_OFF && slab <= MAX_SLAB && at <= |src|
      ensures Inv() && fresh(s) && s.src == src && s.pos == at && codec == c
      ensures this.slab == slab && this.stopAtData == stopAtData && !atData
      ensures stack == [] && Found() == Nothing
    {
      this.codec, this.slab, this.stopAtData := c, slab, stopAtData;
      intern, stack, vals, strs, insts, complex, header, atData := map[], [], [], [], [], map[], [], false;
      starts := [];
      s := new Scanner(src);
      new;
      s.pos := at;
    }

    /** A shared upper-cased type keyword: interning is invisible in the result. */
    method InternType(raw: Bytes) returns (typ: Bytes)
      requires Inv()
      modifies this`intern
      ensures Inv() && typ == Upper(raw)
    {
      if raw in intern {
        return intern[raw];
      }
      typ := Upper(raw);
      UpperIdempotent(raw);
      if typ in intern {
        typ := intern[typ];
      }
      intern := intern[typ := typ][raw := typ];
    }

    /** Moves the stack above `mark` into the slab and returns a handle to it. */
    method CloseList(mark: nat, kind: Kind) returns (v: Value)
      requires Inv() && mark <= |stack| && IsAggregate(kind)
      requires kind == KindTyped ==> mark < |stack| && stack[mark].kind == KindString
      modifies this`stack, this`vals
      ensures Inv() && Grows(old(Mem()), Mem())
      ensures stack == old(stack)[..mark] && vals == old(vals) + old(stack)[mark..]
      ensures v.kind == kind && v.n == |old(stack)| - mark && OffOf(v) == |old(vals)|
      ensures Fits(slab, Mem(), v, |vals|)
      ensures DenoteRange(slab, Mem(), OffOf(v), End(v)) == old(DenoteAll(slab, Mem(), stack[mark..]))
      ensures Found() == old(Found())
    {
      ghost var before, m := stack, Mem();
      ListClosed(slab, m, stack[mark..]);
      var start := |vals|;
      vals := vals + stack[mark..];
      var n := |vals| - start;
      stack := stack[..mark];
      v := Value(kind, SlabRef(slab, start), n);
      SlabRefParts(slab, start, v);
      AllGrown(slab, m, Mem(), stack);
      RecordsGrown(slab, m, Mem(), insts, header, complex, starts);
    }

    /** A text value: its characters go to the end of the arena, where its handle finds them. */
    method Str(kind: Kind, text: Bytes) returns (v: Value)
      requires Inv() && IsText(kind) && |strs| + |text| <= s.pos
      modifies this`strs
      ensures Inv() && Grows(old(Mem()), Mem()) && |strs| == |old(strs)| + |text|
      ensures v.kind == kind && Fits(slab, Mem(), v, |vals|) && Text(Mem(), v) == text
      ensures Found() == old(Found())
    {
      ghost var m := Mem();
      var off := |strs|;
      strs := strs + text;
      StrsAppended(slab, m, text);
      AllGrown(slab, m, Mem(), stack);
      RecordsGrown(slab, m, Mem(), insts, header, complex, starts);
      v := Value(kind, SlabRef(slab, off), |text|);
      SlabRefParts(slab, off, v);
    }

    method Push(v: Value)
      requires Inv() && |vals| + |stack| < s.pos && Fits(slab, Mem(), v, |vals|)
      modifies this`stack
      ensures Pushed(old(stack), old(Mem()), [Denote(slab, old(Mem()), v)])
      ensures Found() == old(Found()) && stack == old(stack) + [v]
    {
      PushOne(slab, Mem(), stack, v);
      stack := stack + [v];
    }

    /** Reads an argument list whose '(' has been read, pushing its values. */
    method ParseArgs() returns (ok: bool)
      requires Inv()
      modifies this`stack, this`vals, this`strs, s
      ensures s.Valid() && s.pos == Args(codec, s.src, old(s.pos)).pos
      ensures ok == Args(codec, s.src, old(s.pos)).Ok?
      ensures ok ==> Pushed(old(stack), old(Mem()), Args(codec, s.src, old(s.pos)).value)
      ensures ok ==> Found() == old(Found()) && |vals| + |stack| < s.pos
      decreases |s.src| - s.pos, 0
    {
      hide DenoteRecords, RecordsFit, LexAt, Trivia, Fits;
      ghost var done: seq<Tree> := [];
      PrependOne([], TNull, Args(codec, s.src, s.pos));
      assert Pushed(stack, Mem(), done) by { assert stack[|stack|..] == []; }
      while true
        invariant s.Valid() && s.pos >= old(s.pos)
        invariant Pushed(old(stack), old(Mem()), done)
        invariant Found() == old(Found())
        invariant Args(codec, s.src, old(s.pos)) == Prepend(done, Args(codec, s.src, s.pos))
        decreases |s.src| - s.pos
      {
        ghost var p := s.pos;
        var tok := s.Next();
        if tok.kind == TokRParen {
          assert done + [] == done;
          return true;
        } else if tok.kind == TokEOF {
          return false;
        } else if tok.kind != TokComma {
          ghost var r, m, kept := ValueAt(codec, s.src, tok, s.pos), Mem(), stack;
          var pushed := PushValue(tok);
          if !pushed {
            return false;
          }
          AboveTwice(slab, old(Mem()), old(stack), m, kept, done, Mem(), stack, [r.value]);
          PrependOne(done, r.value, Args(codec, s.src, s.pos));
          done := done + [r.value];
        }
      }
    }

    /** Pushes the value whose leading token has just been read. */
    method PushValue(tok: Token) returns (ok: bool)
      requires Inv() && |vals| + |stack| < s.pos && |strs| + |tok.text| <= s.pos
      modifies this`stack, this`vals, this`strs, s
      ensures s.Valid() && s.pos == ValueAt(codec, s.src, tok, old(s.pos)).pos
      ensures ok == ValueAt(codec, s.src, tok, old(s.pos)).Ok?
      ensures ok ==> Pushed(old(stack), old(Mem()), [ValueAt(codec, s.src, tok, old(s.pos)).value])
      ensures ok ==> Found() == old(Found())
      decreases |s.src| - s.pos, 2
    {
      hide DenoteRecords, RecordsFit, Args, Trivia, LexAt, Fits, Valid;
      match tok.kind {
        case TokEnum => PushText(KindEnum, tok.text); return true;
        case TokBinary => PushText(KindBinary, tok.text); return true;
        case TokString =>
          if !Escaped(tok.text) {
            PushText(KindString, tok.text);
          } else {
            var text := codec.decode(tok.text);
            if text.None? { return false; }
            PushText(KindString, text.value);
          }
          return true;
        case TokLParen => ok := PushList();
        case TokKeyword =>
          var open := s.Next();
          if open.kind != TokLParen { return false; }
          ok := PushTyped(tok.text);
        case _ => ok := PushScalar(tok);
      }
    }

    /** The values that carry no slab data. */
    method PushScalar(tok: Token) returns (ok: bool)
      requires Inv() && |vals| + |stack| < s.pos && IsScalar(tok.kind)
      modifies this`stack
      ensures ok == ValueAt(codec, s.src, tok, s.pos).Ok? && s.pos == ValueAt(codec, s.src, tok, s.pos).pos
      ensures ok ==> Pushed(old(stack), old(Mem()), [ValueAt(codec, s.src, tok, s.pos).value])
      ensures ok ==> Found() == old(Found())
    {
      var v := ScalarHandle(codec, s.src, tok, s.pos);
      ok := v.Some?;
      if ok {
        Push(v.value);
      }
    }

    method PushText(kind: Kind, text: Bytes)
      requires Inv() && |vals| + |stack| < s.pos && |strs| + |text| <= s.pos && IsText(kind)
      modifies this`stack, this`strs
      ensures Pushed(old(stack), old(Mem()),
        [if kind == KindString then TStr(text) else if kind == KindEnum then TEnum(text) else TBinary(text)])
      ensures Found() == old(Found())
    {
      var v := Str(kind, text);
      Push(v);
    }

    method PushList() returns (ok: bool)
      requires Inv() && |vals| + |stack| < s.pos
      modifies this`stack, this`vals, this`strs, s
      ensures s.Valid() && s.pos == Args(codec, s.src, old(s.pos)).pos
      ensures ok == Args(codec, s.src, old(s.pos)).Ok?
      ensures ok ==> Pushed(old(stack), old(Mem()), [TList(Args(codec, s.src, old(s.pos)).value)])
      ensures ok ==> Found() == old(Found())
      decreases |s.src| - s.pos, 1
    {
      var mark := |stack|;
      ok := ParseArgs();
      if ok {
        var v := CloseList(mark, KindList);
        Push(v);
      }
    }

    /** A typed value whose '(' has been read: its keyword is stored as the list's first member. */
    method PushTyped(keyword: Bytes) returns (ok: bool)
      requires Inv() && |vals| + |stack| < s.pos && |strs| + |keyword| <= s.pos
      modifies this`stack, this`vals, this`strs, s
      ensures s.Valid() && s.pos == Args(codec, s.src, old(s.pos)).pos
      ensures ok == Args(codec, s.src, old(s.pos)).Ok?
      ensures ok ==> Pushed(old(stack), old(Mem()), [TTyped(keyword, Args(codec, s.src, old(s.pos)).value)])
      ensures ok ==> Found() == old(Found())
      decreases |s.src| - s.pos, 1
    {
      hide DenoteRecords, RecordsFit, Args, Trivia, LexAt, Fits;
      var mark := |stack|;
      var kw := Str(KindString, keyword);
      Push(kw);
      ghost var m, kept := Mem(), stack;
      ok := ParseArgs();
      if ok {
        ghost var ts := Args(codec, s.src, old(s.pos)).value;
        AboveTwice(slab, old(Mem()), old(stack), m, kept, [TStr(keyword)], Mem(), stack, ts);
        CloseTyped(mark, keyword, ts);
      }
    }

    /** Closes a typed value's members and pushes the handle in their place. */
    method CloseTyped(mark: nat, keyword: Bytes, ghost ts: seq<Tree>)
      requires Inv() && mark < |stack| && |vals| + |stack| < s.pos
      requires stack[mark].kind == KindString && AllFit(slab, Mem(), stack[mark..])
      requires DenoteAll(slab, Mem(), stack[mark..]) == [TStr(keyword)] + ts
      modifies this`stack, this`vals
      ensures Pushed(old(stack)[..mark], old(Mem()), [TTyped(keyword, ts)])
      ensures Found() == old(Found())
    {
      var v := CloseList(mark, KindTyped);
      TypedDenotes(slab, Mem(), v, keyword, ts);
      Push(v);
    }

    // ------------------------------------------------------------ records

    /** Moves the stack above `mark` into the slab as the arguments of a new instance. */
    method Register(id: nat, typ: Bytes, mark: nat, parts: seq<Bytes>, ghost at: nat, ghost ts: seq<Tree>)
      requires Inv() && mark <= |stack|
      requires AllFit(slab, Mem(), stack[mark..]) && DenoteAll(slab, Mem(), stack[mark..]) == ts
      modifies this`stack, this`vals, this`insts, this`complex, this`starts
      ensures Inv() && stack == old(stack)[..mark]
      ensures Found() == Join(old(Found()), OneRecord(at, id, typ, ts, parts))
    {
      hide DenoteRecords, RecordsFit, Valid, AllFit;
      var args := CloseList(mark, KindList);
      AddInstance(Inst(typ, id, OffOf(args) % (MAX_OFF + 1), args.n, slab), parts, at);
    }

    method AddInstance(inst: Inst, parts: seq<Bytes>, ghost at: nat)
      requires Inv() && InstFits(slab, Mem(), inst)
      modifies this`insts, this`complex, this`starts
      ensures Inv()
      ensures Found() == Join(old(Found()), OneRecord(at, inst.id, inst.typ, DenoteRange(slab, Mem(), inst.start, inst.start + inst.n), parts))
    {
      ghost var added: map<nat, seq<Bytes>> := if |parts| > 1 then map[inst.id := parts] else map[];
      RecordAdded(slab, Mem(), insts, header, complex, starts, inst, added, at);
      insts := insts + [inst];
      starts := starts + [at];
      if |parts| > 1 {
        assert complex[inst.id := parts] == complex + added;
        complex := complex[inst.id := parts];
      } else {
        assert complex + added == complex;
      }
    }

    /** A record whose leading `#id` token, at offset `at`, has just been read. */
    method ParseInstance(ref: Token, ghost at: nat) returns (ok: bool)
      requires Inv()
      modifies this, s
      ensures atData == old(atData)
      ensures s.Valid() && s.pos == Instance(codec, s.src, at, ref, old(s.pos)).pos
      ensures ok == Instance(codec, s.src, at, ref, old(s.pos)).Ok?
      ensures ok ==> Inv() && stack == old(stack)
      ensures ok ==> Found() == Join(old(Found()), Instance(codec, s.src, at, ref, old(s.pos)).value)
    {
      hide DenoteRecords, RecordsFit, Fits, AllFit, Valid, Instance, SimpleRest, ComplexRest, Trivia, LexAt;
      InstanceSteps(ref, at, s.pos);
      var id := ParseUint32(ref.text);
      if id.None? { return false; }
      var eq := s.Next();
      if eq.kind != TokEquals { return false; }
      var next := s.Next();
      match next.kind {
        case TokKeyword => ok := FinishSimple(id.value, next.text, at);
        case TokLParen => ok := FinishComplex(id.value, at);
        case _ => ok := false;
      }
    }

    /** How a record's reading goes on after its id. */
    lemma {:induction false} InstanceSteps(ref: Token, at: nat, p: nat)
      requires p <= |s.src|
      ensures var (eq, q) := Lex(s.src, p); var (next, q2) := Lex(s.src, q); var id := Uint32(ref.text);
        Instance(codec, s.src, at, ref, p) ==
        if id.None? then Err(p)
        else if eq.kind != TokEquals then Err(q)
        else if next.kind == TokKeyword then SimpleRest(id.value, next.text, at, q2)
        else if next.kind == TokLParen then ComplexRest(id.value, at, q2)
        else Err(q2)
    {
      hide Lex, Uint32;
    }

    /** "(args);" of a simple instance. */
    function SimpleRest(id: nat, kw: Bytes, at: nat, p: nat): (r: Parse<Content>)
      requires p <= |s.src|
      ensures Within(r, p, s.src)
    {
      var (open, q) := Lex(s.src, p);
      if open.kind != TokLParen then Err(q) else
      match Args(codec, s.src, q)
      case Err(e) => Err(e)
      case Ok(ts, e) =>
        match Semi(s.src, e)
        case Err(e2) => Err(e2)
        case Ok(_, e2) => Ok(OneRecord(at, id, Upper(kw), ts, []), e2)
    }

    method FinishSimple(id: nat, kw: Bytes, ghost at: nat) returns (ok: bool)
      requires Inv()
      modifies this, s
      ensures atData == old(atData)
      ensures s.Valid() && s.pos == SimpleRest(id, kw, at, old(s.pos)).pos
      ensures ok == SimpleRest(id, kw, at, old(s.pos)).Ok?
      ensures ok ==> Inv() && stack == old(stack)
      ensures ok ==> Found() == Join(old(Found()), SimpleRest(id, kw, at, old(s.pos)).value)
    {
      hide DenoteRecords, RecordsFit, Args, Trivia, LexAt, Fits, Valid;
      var typ := InternType(kw);
      var open := s.Next();
      if open.kind != TokLParen { return false; }
      var mark := |stack|;
      ghost var ts := Args(codec, s.src, s.pos);
      ok := ParseArgs();
      if !ok { return; }
      var semi := s.Next();
      if semi.kind != TokSemi { return false; }
      Register(id, typ, mark, [], at, ts.value);
    }

    /** "parts);" of a complex instance whose '(' has been read. */
    function ComplexRest(id: nat, at: nat, p: nat): (r: Parse<Content>)
      requires p <= |s.src|
      ensures Within(r, p, s.src)
    {
      match Parts(codec, s.src, p)
      case Err(e) => Err(e)
      case Ok(pt, e) =>
        if pt.0 == [] then Err(e) else
        match Semi(s.src, e)
        case Err(e2) => Err(e2)
        case Ok(_, e2) => Ok(OneRecord(at, id, pt.0[0], pt.1, pt.0), e2)
    }

    method FinishComplex(id: nat, ghost at: nat) returns (ok: bool)
      requires Inv()
      modifies this, s
      ensures atData == old(atData)
      ensures s.Valid() && s.pos == ComplexRest(id, at, old(s.pos)).pos
      ensures ok == ComplexRest(id, at, old(s.pos)).Ok?
      ensures ok ==> Inv() && stack == old(stack)
      ensures ok ==> Found() == Join(old(Found()), ComplexRest(id, at, old(s.pos)).value)
    {
      hide DenoteRecords, RecordsFit, Args, Trivia, LexAt, Parts, Fits, Valid;
      var mark := |stack|;
      var parts;
      ghost var ts := Parts(codec, s.src, s.pos);
      ok, parts := PartsLoop();
      if !ok { return; }
      if |parts| == 0 { return false; }
      var semi := s.Next();
      if semi.kind != TokSemi { return false; }
      Register(id, parts[0], mark, parts, at, ts.value.1);
    }

    /** Reads a complex instance's parts, each one's attributes on top of the last one's. */
    method PartsLoop() returns (ok: bool, parts: seq<Bytes>)
      requires Inv()
      modifies this`intern, this`stack, this`vals, this`strs, s
      ensures s.Valid() && s.pos == Parts(codec, s.src, old(s.pos)).pos
      ensures ok == Parts(codec, s.src, old(s.pos)).Ok?
      ensures ok ==> Pushed(old(stack), old(Mem()), Parts(codec, s.src, old(s.pos)).value.1)
      ensures ok ==> parts == Parts(codec, s.src, old(s.pos)).value.0 && Found() == old(Found())
    {
      hide DenoteRecords, RecordsFit, Fits, Valid, Args, Trivia, LexAt;
      parts := [];
      ghost var done: seq<Tree> := [];
      PrependParts([], [], [], [], Parts(codec, s.src, s.pos));
      assert Pushed(stack, Mem(), done) by { assert stack[|stack|..] == []; }
      while true
        invariant s.Valid() && s.pos >= old(s.pos)
        invariant Pushed(old(stack), old(Mem()), done)
        invariant Found() == old(Found())
        invariant Parts(codec, s.src, old(s.pos)) == PrependPart(parts, done, Parts(codec, s.src, s.pos))
        decreases |s.src| - s.pos
      {
        var tok := s.Next();
        if tok.kind == TokRParen {
          assert done + [] == done && parts + [] == parts;
          return true, parts;
        }
        if tok.kind != TokKeyword { return false, parts; }
        var kw := InternType(tok.text);
        var open := s.Next();
        if open.kind != TokLParen { return false, parts; }
        ghost var r, m, kept := Args(codec, s.src, s.pos), Mem(), stack;
        ok := ParseArgs();
        if !ok { return; }
        AboveTwice(slab, old(Mem()), old(stack), m, kept, done, Mem(), stack, r.value);
        PrependParts(parts, done, kw, r.value, Parts(codec, s.src, s.pos));
        done := done + r.value;
        parts := parts + [kw];
      }
    }

    /** A HEADER record whose keyword has been read. */
    method ParseHeaderRecord(kw: Bytes) returns (ok: bool)
      requires Inv()
      modifies this, s
      ensures atData == old(atData)
      ensures s.Valid() && s.pos == Header(codec, s.src, kw, old(s.pos)).pos
      ensures ok == Header(codec, s.src, kw, old(s.pos)).Ok?
      ensures ok ==> Inv() && stack == old(stack)
      ensures ok ==> Found() == Join(old(Found()), Header(codec, s.src, kw, old(s.pos)).value)
    {
      hide RecordsFit, LexAt, Trivia, Args;
      var open := s.Next();
      if open.kind != TokLParen { return false; }
      var mark := |stack|;
      ghost var ts := Args(codec, s.src, s.pos);
      ok := ParseArgs();
      if !ok { return; }
      var semi := s.Next();
      if semi.kind != TokSemi { return false; }
      var args := CloseList(mark, KindList);
      EntryAdded(slab, Mem(), insts, header, complex, starts, HeaderEntry(kw, args));
      header := header + [HeaderEntry(kw, args)];
    }

    // ------------------------------------------------------------ sections

    /** DATA-section records up to ENDSEC. */
    method ParseRecords() returns (ok: bool)
      requires Inv()
      modifies this, s
      ensures atData == old(atData)
      ensures s.Valid() && s.pos == Records(codec, s.src, old(s.pos)).pos
      ensures ok == Records(codec, s.src, old(s.pos)).Ok?
      ensures ok ==> Inv() && stack == old(stack)
      ensures ok ==> Found() == Join(old(Found()), Records(codec, s.src, old(s.pos)).value)
    {
      hide DenoteRecords, RecordsFit, Args, LexAt, Fits, Valid, AllFit, Instance;
      ghost var done, found := Nothing, Found();
      ThenNothing(Records(codec, s.src, s.pos));
      JoinUnits(found);
      while true
        invariant s.Valid() && Inv() && stack == old(stack) && atData == old(atData)
        invariant Found() == Join(found, done)
        invariant s.pos >= old(s.pos)
        invariant Records(codec, s.src, old(s.pos)) == Then(done, Records(codec, s.src, s.pos))
        decreases |s.src| - s.pos
      {
        ghost var p := s.pos;
        var tok := s.Next();
        if tok.kind == TokRef {
          ghost var r := Instance(codec, s.src, Trivia(s.src, p), tok, s.pos);
          ok := ParseInstance(tok, Trivia(s.src, p));
          if !ok { return; }
          ThenThen(done, r.value, Records(codec, s.src, s.pos));
          JoinAssociative(found, done, r.value);
          done := Join(done, r.value);
        } else if tok.kind == TokKeyword {
          JoinUnits(done);
          return Upper(tok.text) == "ENDSEC";
        } else if tok.kind != TokSemi {
          return false;
        }
      }
    }

    /** Reads a chunk on its own: records only, the last of them ending, blanks aside, at `end`. */
    method ParseChunk(end: nat) returns (ok: bool)
      requires Inv()
      modifies this, s
      ensures atData == old(atData)
      ensures s.Valid() && s.pos == Chunk(codec, s.src, old(s.pos), end).pos
      ensures ok == Chunk(codec, s.src, old(s.pos), end).Ok?
      ensures ok ==> Inv() && stack == old(stack)
      ensures ok ==> Found() == Join(old(Found()), Chunk(codec, s.src, old(s.pos), end).value)
    {
      hide DenoteRecords, RecordsFit, Args, LexAt, Fits, Valid, AllFit, Instance;
      ghost var done, found := Nothing, Found();
      ThenNothing(Chunk(codec, s.src, s.pos, end));
      JoinUnits(found);
      while true
        invariant s.Valid() && Inv() && stack == old(stack) && atData == old(atData)
        invariant Found() == Join(found, done)
        invariant s.pos >= old(s.pos)
        invariant Chunk(codec, s.src, old(s.pos), end) == Then(done, Chunk(codec, s.src, s.pos, end))
        decreases |s.src| - s.pos
      {
        s.SkipTrivia();
        if s.pos == end {
          JoinUnits(done);
          return true;
        } else if s.pos > end {
          return false;
        }
        ghost var q := s.pos;
        var tok := s.Next();
        if tok.kind != TokRef { return false; }
        ghost var r := Instance(codec, s.src, q, tok, s.pos);
        ok := ParseInstance(tok, q);
        if !ok { return; }
        ThenThen(done, r.value, Chunk(codec, s.src, s.pos, end));
        JoinAssociative(found, done, r.value);
        done := Join(done, r.value);
      }
    }

    /** The DATA section, after its keyword. */
    method ParseData() returns (ok: bool)
      requires Inv()
      modifies this, s
      ensures atData == old(atData)
      ensures s.Valid() && s.pos == DataRest(old(s.pos)).pos
      ensures ok == DataRest(old(s.pos)).Ok?
      ensures ok ==> Inv() && Found() == Join(old(Found()), DataRest(old(s.pos)).value)
    {
      var semi := s.Next();
      if semi.kind != TokSemi { return false; }
      ok := ParseRecords();
    }

    function DataRest(p: nat): (r: Parse<Content>)
      requires p <= |s.src|
      ensures Within(r, p, s.src)
    {
      match Semi(s.src, p)
      case Err(e) => Err(e)
      case Ok(_, e) => Records(codec, s.src, e)
    }

    /** One header record, DATA section or stray record: whatever is not a section mark. */
    function Entry(tok: Token, at: nat, p: nat): (r: Parse<Content>)
      requires p <= |s.src|
      ensures Within(r, p, s.src)
    {
      if tok.kind == TokRef then Instance(codec, s.src, at, tok, p)
      else if Upper(tok.text) == "DATA" then DataRest(p)
      else Header(codec, s.src, Upper(tok.text), p)
    }

    method ParseEntry(tok: Token, ghost at: nat) returns (ok: bool)
      requires Inv()
      modifies this, s
      ensures atData == old(atData)
      ensures s.Valid() && s.pos == Entry(tok, at, old(s.pos)).pos
      ensures ok == Entry(tok, at, old(s.pos)).Ok?
      ensures ok ==> Inv() && Found() == Join(old(Found()), Entry(tok, at, old(s.pos)).value)
    {
      if tok.kind == TokRef {
        ok := ParseInstance(tok, at);
      } else if Upper(tok.text) == "DATA" {
        ok := ParseData();
      } else {
        ok := ParseHeaderRecord(Upper(tok.text));
      }
    }

    /** What is neither trivia between sections nor an end: a header record, a DATA section
        to be read here, or a stray record. */
    predicate IsEntry(tok: Token) {
      || tok.kind == TokRef
      || (tok.kind == TokKeyword && !SectionMark(Upper(tok.text)) && Upper(tok.text) != "END-ISO-10303-21"
          && !(stopAtData && Upper(tok.text) == "DATA"))
    }

    /** How the document reading goes on after an entry. */
    lemma {:induction false} EntryStep(p: nat)
      requires p <= |s.src| && IsEntry(Lex(s.src, p).0)
      ensures Lex(s.src, p).0.kind != TokEOF
      ensures var (tok, q) := Lex(s.src, p);
        var e := Entry(tok, Trivia(s.src, p), q);
        Document(codec, s.src, p, stopAtData) ==
        match e
        case Err(n) => Err(n)
        case Ok(x, n) => ThenReading(x, Document(codec, s.src, n, stopAtData))
    {
      hide Lex, Trivia;
    }

    /** ... and after whatever else comes first. */
    lemma {:induction false} DocumentStep(p: nat)
      requires p <= |s.src| && !IsEntry(Lex(s.src, p).0)
      ensures var (tok, q) := Lex(s.src, p); var kw := Upper(tok.text);
        Document(codec, s.src, p, stopAtData) ==
        if tok.kind == TokSemi || (tok.kind == TokKeyword && SectionMark(kw)) then Document(codec, s.src, q, stopAtData)
        else if tok.kind == TokEOF || (tok.kind == TokKeyword && kw == "END-ISO-10303-21") then Ok(Reading(Nothing, false), q)
        else if tok.kind == TokKeyword then
          var (semi, q2) := Lex(s.src, q);
          if semi.kind == TokSemi then Ok(Reading(Nothing, true), q2) else Err(q2)
        else Err(q)
    {
      hide Trivia, LexAt;
    }

    /** A token that starts no entry: the end, a section mark, the "DATA;" to stop at, or an
        error. `more` says that reading goes on. */
    method ParseMark(tok: Token, ghost p: nat) returns (more: bool, ok: bool)
      requires Inv() && !atData && p <= |s.src| && Lex(s.src, p) == (tok, s.pos) && !IsEntry(tok)
      modifies this`atData, s
      ensures s.Valid() && s.pos >= old(s.pos)
      ensures more ==> tok.kind != TokEOF && s.pos == old(s.pos) && !atData && Document(codec, s.src, p, stopAtData) == Document(codec, s.src, s.pos, stopAtData)
      ensures more || ok ==> Inv() && Found() == old(Found())
      ensures !more ==> Document(codec, s.src, p, stopAtData) == if ok then Ok(Reading(Nothing, atData), s.pos) else Err(s.pos)
    {
      hide DenoteRecords, RecordsFit, Fits, AllFit, Valid, Document, Trivia, LexAt, SectionMark, Upper, IsEntry;
      DocumentStep(p);
      ok := true;
      var kw := Upper(tok.text);
      if tok.kind == TokSemi || (tok.kind == TokKeyword && SectionMark(kw)) {
        return true, ok;
      } else if tok.kind == TokEOF || (tok.kind == TokKeyword && kw == "END-ISO-10303-21") {
        return false, ok;
      } else if tok.kind != TokKeyword {
        return false, false;
      }
      var semi := s.Next();
      if semi.kind != TokSemi { return false, false; }
      atData := true;
      more := false;
    }

    /** The document from here on: HEADER, DATA and END sections. */
    method ParseDocument() returns (ok: bool)
      requires Inv() && !atData
      modifies this, s
      ensures s.Valid() && s.pos == Document(codec, s.src, old(s.pos), stopAtData).pos
      ensures ok == Document(codec, s.src, old(s.pos), stopAtData).Ok?
      ensures ok ==> Inv() && atData == Document(codec, s.src, old(s.pos), stopAtData).value.atData
      ensures ok ==> Found() == Join(old(Found()), Document(codec, s.src, old(s.pos), stopAtData).value.content)
    {
      hide DenoteRecords, RecordsFit, Fits, AllFit, Valid, Document, Trivia, LexAt, Entry, SectionMark, Upper, IsEntry;
      ghost var done, found := Nothing, Found();
      ThenReadingNothing(Document(codec, s.src, s.pos, stopAtData));
      JoinUnits(found);
      while true
        invariant s.Valid() && Inv() && !atData
        invariant Found() == Join(found, done)
        invariant s.pos >= old(s.pos)
        invariant Document(codec, s.src, old(s.pos), stopAtData) == ThenReading(done, Document(codec, s.src, s.pos, stopAtData))
        decreases |s.src| - s.pos
      {
        ghost var p := s.pos;
        var tok := s.Next();
        JoinUnits(done);
        if !IsEntry(tok) {
          var more;
          more, ok := ParseMark(tok, p);
          if more { continue; }
          return;
        }
        EntryStep(p);
        ghost var e := Entry(tok, Trivia(s.src, p), s.pos);
        ok := ParseEntry(tok, Trivia(s.src, p));
        if !ok { return; }
        ThenThenReading(done, e.value, Document(codec, s.src, s.pos, stopAtData));
        JoinAssociative(found, done, e.value);
        done := Join(done, e.value);
      }
    }
  }

  lemma {:induction false} ThenReadingNothing(r: Parse<Reading>)
    ensures ThenReading(Nothing, r) == r
  {
    if r.Ok? { JoinUnits(r.value.content); }
  }

  lemma {:induction false} ThenThenReading(a: Content, b: Content, r: Parse<Reading>)
    ensures ThenReading(Join(a, b), r) == ThenReading(a, ThenReading(b, r))
  {
    if r.Ok? { JoinAssociative(a, b, r.value.content); }
  }

  lemma {:induction false} EntryAdded(k: nat, s: Slab, insts: seq<Inst>, header: seq<HeaderEntry>, complex: map<nat, seq<Bytes>>,
                     starts: seq<nat>, h: HeaderEntry)
    requires Valid(k, s) && RecordsFit(k, s, insts, header) && EntryFits(k, s, h)
    ensures RecordsFit(k, s, insts, header + [h])
    ensures DenoteRecords(k, s, insts, header + [h], complex, starts)
         == Join(DenoteRecords(k, s, insts, header, complex, starts), Content([DenoteEntry(k, s, h)], [], map[], []))
  {
  }

  lemma {:induction false} TypedDenotes(k: nat, s: Slab, v: Value, keyword: Bytes, ts: seq<Tree>)
    requires Valid(k, s) && Fits(k, s, v, |s.vals|) && v.kind == KindTyped
    requires DenoteRange(k, s, OffOf(v), End(v)) == [TStr(keyword)] + ts
    ensures Denote(k, s, v) == TTyped(keyword, ts)
  {
    var off := OffOf(v);
    assert Fits(k, s, s.vals[off], off);
    assert DenoteRange(k, s, off, End(v))[0] == Denote(k, s, s.vals[off]);
    assert DenoteRange(k, s, off, End(v))[1..] == DenoteRange(k, s, off + 1, End(v));
  }
}
