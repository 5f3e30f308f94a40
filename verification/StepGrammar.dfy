// The reference reading of a STEP file: recursive descent over the token stream,
// straight to value trees, with no stacks, slabs or workers. Everything the parser
// does with them is proved against this module.
module StepGrammar {
  import opened Common
  import opened StepLexer

  /** An attribute value as the tree the token stream spells. */
  datatype Tree =
    | TNull
    | TDerived
    | TInt(i: int)
    | TReal(bits: nat)
    | TStr(text: Bytes)
    | TEnum(text: Bytes)
    | TBool(b: bool)
    | TLogical
    | TBinary(text: Bytes)
    | TRef(id: nat)
    | TList(items: seq<Tree>)
    | TTyped(keyword: Bytes, items: seq<Tree>)

  type Int64 = i: int | -0x8000_0000_0000_0000 <= i < 0x8000_0000_0000_0000
  type Uint64 = i: int | 0 <= i < 0x1_0000_0000_0000_0000

  const MAX_UINT32: nat := 0xFFFF_FFFF

  /** The literal decoders shared by every parser: string unescaping (section 7.3.4 of
      ISO 10303-21), 64-bit integers, and reals as their IEEE bits. */
  datatype Codec = Codec(decode: Bytes -> Option<Bytes>, int64: Bytes -> Option<Int64>, float64: Bytes -> Option<Uint64>)

  /** Unescaping never lengthens a literal: every escape sequence is at least as long
      as the UTF-8 text it stands for. */
  ghost predicate Shrinks(c: Codec) {
    forall t: Bytes :: c.decode(t).Some? ==> |c.decode(t).value| <= |t|
  }

  /** A reading and the position it ended at, or the position where it stopped. */
  datatype Parse<+T> = Ok(value: T, pos: nat) | Err(pos: nat)

  predicate Within<T>(r: Parse<T>, p: nat, src: Bytes) { p <= r.pos <= |src| }

  // ---------------------------------------------------------------- words

  function UpperByte(c: Byte): Byte {
    if 'a' <= c <= 'z' then (c as int - 32) as char else c
  }

  function Upper(s: Bytes): (u: Bytes)
    ensures |u| == |s| && forall i :: 0 <= i < |s| ==> u[i] == UpperByte(s[i])
  {
    seq(|s|, i requires 0 <= i < |s| => UpperByte(s[i]))
  }

  lemma {:induction false} UpperIdempotent(s: Bytes)
    ensures Upper(Upper(s)) == Upper(s)
  {
  }

  // ---------------------------------------------------------------- instance ids

  function DigitValue(c: Byte): nat
    requires IsDigit(c)
  {
    c as int - '0' as int
  }

  function Decimal(s: Bytes): nat
    requires forall i :: 0 <= i < |s| ==> IsDigit(s[i])
  {
    if s == [] then 0 else Decimal(s[..|s| - 1]) * 10 + DigitValue(s[|s| - 1])
  }

  /** An unsigned 32-bit decimal: at least one byte, all digits, in range. */
  function Uint32(s: Bytes): (r: Option<nat>)
    ensures r.Some? ==> r.value <= MAX_UINT32
  {
    if s != [] && (forall i :: 0 <= i < |s| ==> IsDigit(s[i])) && Decimal(s) <= MAX_UINT32
    then Some(Decimal(s)) else None
  }

  /** The hand-written fast path for ids agrees with the general 32-bit reading, which
      it hands anything empty, long, non-decimal or out of range to. */
  method ParseUint32(b: Bytes) returns (r: Option<nat>)
    ensures r == Uint32(b)
  {
    if |b| == 0 || |b| > 10 {
      return Uint32(b);
    }
    var n, k := 0, 0;
    while k < |b|
      invariant k <= |b|
      invariant forall i :: 0 <= i < k ==> IsDigit(b[i])
      invariant n == Decimal(b[..k])
      invariant n < Pow10(k)
    {
      if b[k] < '0' || b[k] > '9' {
        return Uint32(b);
      }
      assert b[..k + 1][..k] == b[..k];
      n := n * 10 + DigitValue(b[k]);
      k := k + 1;
    }
    assert b[..k] == b;
    Pow10Bound(k);
    assert n < 0x1_0000_0000_0000_0000;  // the 64-bit accumulator cannot wrap
    if n > MAX_UINT32 {
      return Uint32(b);
    }
    r := Some(n);
  }

  function Pow10(k: nat): nat { if k == 0 then 1 else 10 * Pow10(k - 1) }

  lemma {:induction false} Pow10Bound(k: nat)
    requires k <= 10
    ensures Pow10(k) <= 10_000_000_000
    decreases 10 - k
  {
    if k < 10 { Pow10Bound(k + 1); }
    if k == 10 {
      assert Pow10(2) == 100;
      assert Pow10(4) == 10_000;
      assert Pow10(6) == 1_000_000;
      assert Pow10(8) == 100_000_000;
      assert Pow10(10) == 10_000_000_000;
    }
  }

  // ---------------------------------------------------------------- values

  /** The values of an argument list whose '(' has been read. Commas separate nothing:
      any number of them, anywhere, is skipped. */
  function Args(c: Codec, src: Bytes, p: nat): (r: Parse<seq<Tree>>)
    requires p <= |src|
    ensures Within(r, p, src)
    decreases |src| - p, 0
  {
    var (tok, q) := Lex(src, p);
    match tok.kind
    case TokRParen => Ok([], q)
    case TokComma => Args(c, src, q)
    case TokEOF => Err(q)
    case _ =>
      match ValueAt(c, src, tok, q)
      case Err(e) => Err(e)
      case Ok(t, e) =>
        match Args(c, src, e)
        case Err(e2) => Err(e2)
        case Ok(ts, e2) => Ok([t] + ts, e2)
  }

  function Scalar<T>(o: Option<T>, f: T -> Tree, p: nat): Parse<Tree> {
    match o
    case None => Err(p)
    case Some(x) => Ok(f(x), p)
  }

  predicate Escaped(text: Bytes) { '\'' in text || '\\' in text }

  /** The value whose leading token `tok` ends at `p`. */
  function ValueAt(c: Codec, src: Bytes, tok: Token, p: nat): (r: Parse<Tree>)
    requires p <= |src|
    ensures Within(r, p, src)
    decreases |src| - p, 1
  {
    match tok.kind
    case TokDollar => Ok(TNull, p)
    case TokStar => Ok(TDerived, p)
    case TokRef => Scalar(Uint32(tok.text), id => TRef(id), p)
    case TokEnum => Ok(TEnum(tok.text), p)
    case TokBool => Ok(if tok.text == "U" then TLogical else TBool(tok.text == "T"), p)
    case TokInt => Scalar(c.int64(tok.text), i => TInt(i), p)
    case TokFloat => Scalar(c.float64(tok.text), b => TReal(b), p)
    case TokString =>
      if Escaped(tok.text) then Scalar(c.decode(tok.text), s => TStr(s), p) else Ok(TStr(tok.text), p)
    case TokBinary => Ok(TBinary(tok.text), p)
    case TokLParen =>
      (match Args(c, src, p)
       case Err(e) => Err(e)
       case Ok(ts, e) => Ok(TList(ts), e))
    case TokKeyword =>
      var (open, q) := Lex(src, p);
      if open.kind != TokLParen then Err(q) else
      (match Args(c, src, q)
       case Err(e) => Err(e)
       case Ok(ts, e) => Ok(TTyped(tok.text, ts), e))
    case _ => Err(p)
  }

  // ---------------------------------------------------------------- records

  /** A DATA record: its id, type, argument trees, and for a complex record its part types. */
  datatype Record = Record(id: nat, typ: Bytes, args: seq<Tree>)

  datatype HeaderRecord = HeaderRecord(keyword: Bytes, args: seq<Tree>)

  /** What a stretch of a file holds: its header records, its instances in source order
      with the offsets of their '#', and the part types of its complex instances. */
  datatype Content = Content(header: seq<HeaderRecord>, insts: seq<Record>, complex: map<nat, seq<Bytes>>, starts: seq<nat>)

  const Nothing := Content([], [], map[], [])

  /** One stretch followed by another; a repeated complex id keeps the later parts. */
  function Join(a: Content, b: Content): Content {
    Content(a.header + b.header, a.insts + b.insts, a.complex + b.complex, a.starts + b.starts)
  }

  function Then(a: Content, r: Parse<Content>): (t: Parse<Content>)
    ensures t.Ok? == r.Ok? && t.pos == r.pos
  {
    match r
    case Ok(b, p) => Ok(Join(a, b), p)
    case Err(p) => Err(p)
  }

  lemma {:induction false} JoinUnits(a: Content)
    ensures Join(Nothing, a) == a && Join(a, Nothing) == a
  {
  }

  lemma {:induction false} JoinAssociative(a: Content, b: Content, d: Content)
    ensures Join(Join(a, b), d) == Join(a, Join(b, d))
  {
    assert (a.complex + b.complex) + d.complex == a.complex + (b.complex + d.complex);
  }

  lemma {:induction false} ThenThen(a: Content, b: Content, r: Parse<Content>)
    ensures Then(Join(a, b), r) == Then(a, Then(b, r))
  {
    if r.Ok? { JoinAssociative(a, b, r.value); }
  }

  lemma {:induction false} ThenNothing(r: Parse<Content>)
    ensures Then(Nothing, r) == r
  {
    if r.Ok? { JoinUnits(r.value); }
  }

  function OneRecord(at: nat, id: nat, typ: Bytes, args: seq<Tree>, parts: seq<Bytes>): Content {
    Content([], [Record(id, typ, args)], if |parts| > 1 then map[id := parts] else map[], [at])
  }

  /** The parts of a complex instance whose '(' has been read: part types, and their
      attribute lists back to back. */
  function Parts(c: Codec, src: Bytes, p: nat): (r: Parse<(seq<Bytes>, seq<Tree>)>)
    requires p <= |src|
    ensures Within(r, p, src)
    decreases |src| - p
  {
    var (tok, q) := Lex(src, p);
    if tok.kind == TokRParen then Ok(([], []), q)
    else if tok.kind != TokKeyword then Err(q)
    else
      var (open, q2) := Lex(src, q);
      if open.kind != TokLParen then Err(q2) else
      match Args(c, src, q2)
      case Err(e) => Err(e)
      case Ok(ts, e) =>
        match Parts(c, src, e)
        case Err(e2) => Err(e2)
        case Ok(rest, e2) => Ok(([Upper(tok.text)] + rest.0, ts + rest.1), e2)
  }

  /** The position after an expected semicolon. */
  function Semi(src: Bytes, p: nat): (r: Parse<()>)
    requires p <= |src|
    ensures Within(r, p, src)
  {
    var (tok, q) := Lex(src, p);
    if tok.kind == TokSemi then Ok((), q) else Err(q)
  }

  /** The rest of a record whose leading `#id` token, at offset `at`, ends at `p`. */
  function Instance(c: Codec, src: Bytes, at: nat, ref: Token, p: nat): (r: Parse<Content>)
    requires p <= |src|
    ensures Within(r, p, src)
  {
    match Uint32(ref.text)
    case None => Err(p)
    case Some(id) =>
      var (eq, q) := Lex(src, p);
      if eq.kind != TokEquals then Err(q) else
      var (next, q2) := Lex(src, q);
      match next.kind
      case TokKeyword =>
        var (open, q3) := Lex(src, q2);
        if open.kind != TokLParen then Err(q3) else
        (match Args(c, src, q3)
         case Err(e) => Err(e)
         case Ok(ts, e) =>
           match Semi(src, e)
           case Err(e2) => Err(e2)
           case Ok(_, e2) => Ok(OneRecord(at, id, Upper(next.text), ts, []), e2))
      case TokLParen =>
        (match Parts(c, src, q2)
         case Err(e) => Err(e)
         case Ok(pt, e) =>
           if pt.0 == [] then Err(e) else
           match Semi(src, e)
           case Err(e2) => Err(e2)
           case Ok(_, e2) => Ok(OneRecord(at, id, pt.0[0], pt.1, pt.0), e2))
      case _ => Err(q2)
  }

  /** A header record whose keyword has been read. */
  function Header(c: Codec, src: Bytes, kw: Bytes, p: nat): (r: Parse<Content>)
    requires p <= |src|
    ensures Within(r, p, src)
  {
    var (open, q) := Lex(src, p);
    if open.kind != TokLParen then Err(q) else
    match Args(c, src, q)
    case Err(e) => Err(e)
    case Ok(ts, e) =>
      match Semi(src, e)
      case Err(e2) => Err(e2)
      case Ok(_, e2) => Ok(Content([HeaderRecord(kw, ts)], [], map[], []), e2)
  }

  /** DATA-section records from `p` up to and including ENDSEC. */
  function Records(c: Codec, src: Bytes, p: nat): (r: Parse<Content>)
    requires p <= |src|
    ensures Within(r, p, src)
    decreases |src| - p
  {
    var (tok, q) := Lex(src, p);
    match tok.kind
    case TokRef =>
      (match Instance(c, src, Trivia(src, p), tok, q)
       case Err(e) => Err(e)
       case Ok(x, e) => Then(x, Records(c, src, e)))
    case TokKeyword => if Upper(tok.text) == "ENDSEC" then Ok(Nothing, q) else Err(q)
    case TokSemi => Records(c, src, q)
    case _ => Err(q)
  }

  predicate SectionMark(kw: Bytes) { kw == "ISO-10303-21" || kw == "ENDSEC" || kw == "HEADER" }

  datatype Reading = Reading(content: Content, atData: bool)

  function ThenReading(a: Content, r: Parse<Reading>): (t: Parse<Reading>)
    ensures t.Ok? == r.Ok? && t.pos == r.pos
  {
    match r
    case Ok(b, p) => Ok(Reading(Join(a, b.content), b.atData), p)
    case Err(p) => Err(p)
  }

  /** The document from `p` on. With `stop`, reading halts right after the first "DATA;". */
  function Document(c: Codec, src: Bytes, p: nat, stop: bool): (r: Parse<Reading>)
    requires p <= |src|
    ensures Within(r, p, src)
    decreases |src| - p
  {
    var (tok, q) := Lex(src, p);
    match tok.kind
    case TokEOF => Ok(Reading(Nothing, false), q)
    case TokSemi => Document(c, src, q, stop)
    case TokKeyword =>
      var kw := Upper(tok.text);
      if SectionMark(kw) then Document(c, src, q, stop)
      else if kw == "END-ISO-10303-21" then Ok(Reading(Nothing, false), q)
      else if kw == "DATA" then
        (match Semi(src, q)
         case Err(e) => Err(e)
         case Ok(_, e) =>
           if stop then Ok(Reading(Nothing, true), e) else
           match Records(c, src, e)
           case Err(e2) => Err(e2)
           case Ok(x, e2) => ThenReading(x, Document(c, src, e2, stop)))
      else
        (match Header(c, src, kw, q)
         case Err(e) => Err(e)
         case Ok(x, e) => ThenReading(x, Document(c, src, e, stop)))
    case TokRef =>
      (match Instance(c, src, Trivia(src, p), tok, q)
       case Err(e) => Err(e)
       case Ok(x, e) => ThenReading(x, Document(c, src, e, stop)))
    case _ => Err(q)
  }

  /** The reference meaning of a whole file: its content, or the offset of its first error. */
  function File(c: Codec, src: Bytes): Parse<Content> {
    match Document(c, src, 0, false)
    case Err(e) => Err(e)
    case Ok(r, e) => Ok(r.content, e)
  }
}
