// The forms a STEP file is written in, and what they mean, told without the scanner and the
// recursive descent: values, argument lists.
module StepForms {
  import opened Common
  import opened StepLexer
  import opened StepGrammar
  import opened StepWords
  import opened StepScript

  // ---------------------------------------------------------------- forms and their words

  /** What an argument list holds: a comma, a value of one word, a list, or a typed value. */
  datatype Form = Comma | Leaf(word: Word) | Group(items: seq<Form>) | Typed(keyword: Bytes, items: seq<Form>)

  const OPEN := Mark('(')
  const CLOSE := Mark(')')
  const SEMI := Mark(';')

  function Words(f: Form): seq<Word> {
    match f
    case Comma => [Mark(',')]
    case Leaf(w) => [w]
    case Group(items) => [OPEN] + AllWords(items) + [CLOSE]
    case Typed(k, items) => [Keyword(k), OPEN] + AllWords(items) + [CLOSE]
  }

  function AllWords(fs: seq<Form>): seq<Word> { if fs == [] then [] else Words(fs[0]) + AllWords(fs[1..]) }

  // ---------------------------------------------------------------- what they mean

  function Power(n: nat): nat { if n == 0 then 1 else 10 * Power(n - 1) }

  function FigureOf(b: Byte): nat
    requires Digit(b)
  {
    b as int - '0' as int
  }

  /** The number decimal digits write. */
  function NumberOf(d: Bytes): nat
    requires forall i :: 0 <= i < |d| ==> Digit(d[i])
  {
    if d == [] then 0 else FigureOf(d[0]) * Power(|d| - 1) + NumberOf(d[1..])
  }

  predicate AllDigits(d: Bytes) { forall i :: 0 <= i < |d| ==> Digit(d[i]) }

  /** An instance's id: decimal digits, within 32 bits. */
  function IdOf(d: Bytes): Option<nat> {
    if d != [] && AllDigits(d) && NumberOf(d) <= 0xFFFF_FFFF then Some(NumberOf(d)) else None
  }

  predicate Plain(raw: Bytes) { forall i :: 0 <= i < |raw| ==> raw[i] != '\'' && raw[i] != '\\' }

  /** The value a word is, if it is one and can be decoded. */
  function LeafTree(c: Codec, w: Word): Option<Tree> {
    match w
    case Mark(b) => if b == '$' then Some(TNull) else if b == '*' then Some(TDerived) else None
    case RefWord(d) => (match IdOf(d) case None => None case Some(id) => Some(TRef(id)))
    case Quoted(raw) =>
      if Plain(raw) then Some(TStr(raw)) else (match c.decode(raw) case None => None case Some(s) => Some(TStr(s)))
    case Bits(body) => Some(TBinary(body))
    case Dotted(name, _) =>
      if name == "T" then Some(TBool(true)) else if name == "F" then Some(TBool(false)) else if name == "U" then Some(TLogical)
      else Some(TEnum(name))
    case Number(text) =>
      if RealText(text) then (match c.float64(text) case None => None case Some(b) => Some(TReal(b)))
      else (match c.int64(text) case None => None case Some(i) => Some(TInt(i)))
    case Keyword(_) => None
  }

  function Value(c: Codec, f: Form): Option<Tree> {
    match f
    case Comma => None
    case Leaf(w) => LeafTree(c, w)
    case Group(items) => (match Values(c, items) case None => None case Some(ts) => Some(TList(ts)))
    case Typed(k, items) => (match Values(c, items) case None => None case Some(ts) => Some(TTyped(k, ts)))
  }

  /** Commas mean nothing. */
  function Values(c: Codec, fs: seq<Form>): Option<seq<Tree>> {
    if fs == [] then Some([])
    else
      match Values(c, fs[1..])
      case None => None
      case Some(ts) =>
        if fs[0].Comma? then Some(ts)
        else match Value(c, fs[0]) case None => None case Some(t) => Some([t] + ts)
  }

  // ---------------------------------------------------------------- words in a row

  /** The word is what the scanner reads at `p`, blanks before it skipped, and it is written
      there. */
  ghost predicate Spelled(src: Bytes, p: nat, w: Word) {
    && p <= |src| && Lex(src, p).0 == TokenFor(w) && WordOk(w) && Ends(w, src[Lex(src, p).1..])
    && exists g: Gap :: GapOk(g) && Trivia(src, p) == p + |GapText(g)| && src[p..Lex(src, p).1] == GapText(g) + WordText(w)
  }

  /** The words stand one after the other from `p` on. */
  ghost predicate Scans(src: Bytes, p: nat, ws: seq<Word>)
    decreases |ws|
  {
    p <= |src| && (ws == [] || (Spelled(src, p, ws[0]) && Scans(src, Lex(src, p).1, ws[1..])))
  }

  /** The position after `n` words. */
  function After(src: Bytes, p: nat, n: nat): (q: nat)
    requires p <= |src|
    ensures q <= |src|
    decreases n
  {
    if n == 0 then p else After(src, Lex(src, p).1, n - 1)
  }

  lemma {:induction false} AfterSum(src: Bytes, p: nat, m: nat, n: nat)
    requires p <= |src|
    ensures After(src, p, m + n) == After(src, After(src, p, m), n)
    decreases m
  {
    hide Lex;
    if m > 0 { AfterSum(src, Lex(src, p).1, m - 1, n); }
  }

  lemma {:induction false} ScansJoin(src: Bytes, p: nat, a: seq<Word>, b: seq<Word>)
    requires p <= |src|
    ensures Scans(src, p, a + b) <==> Scans(src, p, a) && Scans(src, After(src, p, |a|), b)
    decreases |a|
  {
    hide Lex, Spelled;
    if a == [] {
      assert a + b == b;
    } else {
      assert (a + b)[0] == a[0] && (a + b)[1..] == a[1..] + b;
      ScansJoin(src, Lex(src, p).1, a[1..], b);
    }
  }

  lemma {:induction false} ScansOne(src: Bytes, p: nat, w: Word)
    requires p <= |src|
    ensures Scans(src, p, [w]) <==> Spelled(src, p, w)
    ensures After(src, p, 1) == Lex(src, p).1
  {
    assert [w][1..] == [];
    hide Spelled;
  }

  lemma {:induction false} SpelledToken(src: Bytes, p: nat, w: Word)
    requires Spelled(src, p, w)
    ensures p <= |src| && Lex(src, p).0 == TokenFor(w)
  {
  }

  // ---------------------------------------------------------------- numbers

  lemma {:induction false} NumberMore(d: Bytes, b: Byte)
    requires AllDigits(d) && Digit(b)
    ensures AllDigits(d + [b]) && NumberOf(d + [b]) == NumberOf(d) * 10 + FigureOf(b)
  {
    var e := d + [b];
    if d == [] {
      assert e[1..] == [] && Power(0) == 1;
    } else {
      assert e[1..] == d[1..] + [b] && e[0] == d[0];
      NumberMore(d[1..], b);
      TenMore(FigureOf(d[0]), |d| - 1);
    }
  }

  lemma {:induction false} TenMore(x: nat, n: nat)
    ensures x * Power(n + 1) == (x * Power(n)) * 10
  {
  }

  lemma {:induction false} NumberIsDecimal(d: Bytes)
    requires AllDigits(d)
    ensures NumberOf(d) == Decimal(d)
  {
    if d != [] {
      var front := d[..|d| - 1];
      NumberIsDecimal(front);
      NumberMore(front, d[|d| - 1]);
      assert d == front + [d[|d| - 1]];
    }
  }

  lemma {:induction false} IdIsUint32(d: Bytes)
    ensures IdOf(d) == Uint32(d)
  {
    if AllDigits(d) { NumberIsDecimal(d); }
  }

  // ---------------------------------------------------------------- values: written, so read

  predicate ValueKind(k: TokenKind) { !k.TokRParen? && !k.TokComma? && !k.TokEOF? }

  /** A value of one word is read as what it is. */
  lemma {:induction false} LeafRead(c: Codec, src: Bytes, w: Word, p: nat)
    requires p <= |src| && LeafTree(c, w).Some?
    ensures ValueKind(TokenFor(w).kind) && ValueAt(c, src, TokenFor(w), p) == Ok(LeafTree(c, w).value, p)
  {
    match w
    case RefWord(d) => IdIsUint32(d);
    case Quoted(raw) =>
      if Plain(raw) { PlainIsNotEscaped(raw); } else { EscapedIsNotPlain(raw); }
    case _ =>
  }

  lemma {:induction false} PlainIsNotEscaped(raw: Bytes)
    requires Plain(raw)
    ensures !Escaped(raw)
  {
  }

  lemma {:induction false} EscapedIsNotPlain(raw: Bytes)
    requires !Plain(raw)
    ensures Escaped(raw)
  {
  }

  /** Reading on from a list's first values. */
  function Prefixed(ts: seq<Tree>, r: Parse<seq<Tree>>): Parse<seq<Tree>> {
    match r case Err(e) => Err(e) case Ok(us, e) => Ok(ts + us, e)
  }

  lemma {:induction false} CommaStep(c: Codec, src: Bytes, p: nat)
    requires p <= |src| && Lex(src, p).0.kind.TokComma?
    ensures Args(c, src, p) == Args(c, src, Lex(src, p).1)
  {
    hide Lex, ValueAt;
  }

  lemma {:induction false} ValueStep(c: Codec, src: Bytes, p: nat, t: Tree, q: nat)
    requires p <= |src| && q <= |src| && ValueKind(Lex(src, p).0.kind) && ValueAt(c, src, Lex(src, p).0, Lex(src, p).1) == Ok(t, q)
    ensures Args(c, src, p) == Prefixed([t], Args(c, src, q))
  {
    hide Lex, ValueAt;
  }

  lemma {:induction false} CloseStep(c: Codec, src: Bytes, p: nat)
    requires p <= |src| && Lex(src, p).0.kind.TokRParen?
    ensures Args(c, src, p) == Ok([], Lex(src, p).1)
  {
    hide Lex, ValueAt;
  }

  /** A list or a typed value, once its members have been read. */
  lemma {:induction false} NestedRead(c: Codec, src: Bytes, tok: Token, p: nat, ts: seq<Tree>, e: nat)
    requires p <= |src|
    requires tok.kind.TokLParen? ==> Args(c, src, p) == Ok(ts, e)
    requires tok.kind.TokKeyword? ==> Lex(src, p).0.kind.TokLParen? && Args(c, src, Lex(src, p).1) == Ok(ts, e)
    ensures tok.kind.TokLParen? ==> ValueAt(c, src, tok, p) == Ok(TList(ts), e)
    ensures tok.kind.TokKeyword? ==> ValueAt(c, src, tok, p) == Ok(TTyped(tok.text, ts), e)
  {
    hide Lex, Args;
  }

  /** A form's value is read, and its words consumed. */
  ghost predicate FormRead(c: Codec, src: Bytes, p: nat, f: Form)
    requires p <= |src|
  {
    && ValueKind(Lex(src, p).0.kind)
    && Value(c, f).Some? && ValueAt(c, src, Lex(src, p).0, Lex(src, p).1) == Ok(Value(c, f).value, After(src, p, |Words(f)|))
  }

  lemma {:induction false} ReadForm(c: Codec, src: Bytes, p: nat, f: Form)
    requires p <= |src| && !f.Comma? && Value(c, f).Some? && Scans(src, p, Words(f))
    ensures FormRead(c, src, p, f)
    decreases f, 1
  {
    hide Lex, Args, ValueAt, LeafTree, Spelled, Scans, After;
    var tok, q := Lex(src, p).0, Lex(src, p).1;
    match f
    case Leaf(w) =>
      ScansOne(src, p, w);
      SpelledToken(src, p, w);
      LeafRead(c, src, w, q);
    case Group(items) =>
      var ws := AllWords(items) + [CLOSE];
      assert Words(f) == [OPEN] + ws;
      ScansJoin(src, p, [OPEN], ws);
      ScansOne(src, p, OPEN);
      SpelledToken(src, p, OPEN);
      ReadArgs(c, src, q, items);
      NestedRead(c, src, tok, q, Values(c, items).value, After(src, q, |ws|));
      AfterSum(src, p, 1, |ws|);
    case Typed(k, items) =>
      var ws := AllWords(items) + [CLOSE];
      assert Words(f) == [Keyword(k)] + ([OPEN] + ws);
      ScansJoin(src, p, [Keyword(k)], [OPEN] + ws);
      ScansOne(src, p, Keyword(k));
      SpelledToken(src, p, Keyword(k));
      ScansJoin(src, q, [OPEN], ws);
      ScansOne(src, q, OPEN);
      SpelledToken(src, q, OPEN);
      var q2 := Lex(src, q).1;
      ReadArgs(c, src, q2, items);
      NestedRead(c, src, tok, q, Values(c, items).value, After(src, q2, |ws|));
      AfterSum(src, p, 1, 1 + |ws|);
      AfterSum(src, q, 1, |ws|);
    case Comma =>
  }

  /** A list's members, and its closing mark. */
  lemma {:induction false} ReadArgs(c: Codec, src: Bytes, p: nat, items: seq<Form>)
    requires p <= |src| && Values(c, items).Some? && Scans(src, p, AllWords(items) + [CLOSE])
    ensures Args(c, src, p) == Ok(Values(c, items).value, After(src, p, |AllWords(items)| + 1))
    decreases items, 0
  {
    hide Lex, Args, Spelled, Scans, After, Words, Value;
    var ws := AllWords(items);
    if items == [] {
      assert ws + [CLOSE] == [CLOSE];
      ScansOne(src, p, CLOSE);
      SpelledToken(src, p, CLOSE);
      CloseStep(c, src, p);
    } else {
      var f, rest := items[0], items[1..];
      assert ws + [CLOSE] == Words(f) + (AllWords(rest) + [CLOSE]);
      ScansJoin(src, p, Words(f), AllWords(rest) + [CLOSE]);
      var q := After(src, p, |Words(f)|);
      ReadArgs(c, src, q, rest);
      AfterSum(src, p, |Words(f)|, |AllWords(rest)| + 1);
      if f.Comma? {
        CommaRead(c, src, p);
      } else {
        ReadForm(c, src, p, f);
        ValueStep(c, src, p, Value(c, f).value, q);
      }
    }
  }

  lemma {:induction false} CommaRead(c: Codec, src: Bytes, p: nat)
    requires p <= |src| && Scans(src, p, Words(Comma))
    ensures |Words(Comma)| == 1 && Args(c, src, p) == Args(c, src, After(src, p, 1))
  {
    ScansOne(src, p, Mark(','));
    SpelledToken(src, p, Mark(','));
    hide Lex, Args, Spelled, Scans;
    CommaStep(c, src, p);
  }

  // ---------------------------------------------------------------- values: read, so written

  /** Whatever is read as a token is a word written there, unless the end cuts it off. */
  lemma {:induction false} SpelledWord(src: Bytes, p: nat) returns (w: Word)
    requires p <= |src| && Lex(src, p).0.kind != TokEOF
    requires Lex(src, p).0.kind == TokString || Lex(src, p).0.kind == TokBinary ==> Lex(src, p).1 < |src|
    ensures Spelled(src, p, w)
  {
    var x := PieceOf(src, p);
    w := x.word;
    hide Lex, Trivia, GapText, WordText, GapOk, WordOk, Ends, TokenFor;
  }

  lemma {:induction false} MarkOf(src: Bytes, p: nat, w: Word)
    requires Spelled(src, p, w)
    ensures var k := Lex(src, p).0.kind;
      && (k.TokRParen? ==> w == CLOSE) && (k.TokLParen? ==> w == OPEN) && (k.TokComma? ==> w == Mark(',')) && (k.TokSemi? ==> w == SEMI)
      && (k.TokEquals? ==> w == Mark('=')) && (k.TokKeyword? ==> w == Keyword(Lex(src, p).0.text)) && (k.TokRef? ==> w == RefWord(Lex(src, p).0.text))
  {
    hide Lex, Trivia, GapText, WordText, GapOk, Ends;
  }

  /** A token that is a value by itself is a word of that value. */
  lemma {:induction false} LeafOf(c: Codec, src: Bytes, w: Word, p: nat)
    requires p <= |src| && WordOk(w)
    requires var tok := TokenFor(w); ValueKind(tok.kind) && !tok.kind.TokLParen? && !tok.kind.TokKeyword? && ValueAt(c, src, tok, p).Ok?
    ensures ValueAt(c, src, TokenFor(w), p).pos == p && LeafTree(c, w) == Some(ValueAt(c, src, TokenFor(w), p).value)
  {
    match w
    case RefWord(d) => IdIsUint32(d);
    case Quoted(raw) =>
      if Plain(raw) { PlainIsNotEscaped(raw); } else { EscapedIsNotPlain(raw); }
    case _ =>
  }

  lemma {:induction false} SomethingLeft(c: Codec, src: Bytes, p: nat)
    requires p <= |src| && Args(c, src, p).Ok?
    ensures p < |src| && Lex(src, p).0.kind != TokEOF
  {
    if p == |src| { EndTrivia(src); }
    hide ValueAt;
  }

  lemma {:induction false} ArgsUnfold(c: Codec, src: Bytes, p: nat)
    requires p <= |src| && Args(c, src, p).Ok? && ValueKind(Lex(src, p).0.kind)
    ensures var v := ValueAt(c, src, Lex(src, p).0, Lex(src, p).1);
      && v.Ok? && p < v.pos <= |src| && Args(c, src, v.pos).Ok?
      && Args(c, src, p) == Ok([v.value] + Args(c, src, v.pos).value, Args(c, src, v.pos).pos)
  {
    hide ValueAt;
  }

  lemma {:induction false} ValueUnfold(c: Codec, src: Bytes, tok: Token, p: nat)
    requires p <= |src| && ValueAt(c, src, tok, p).Ok?
    ensures tok.kind.TokLParen? ==> Args(c, src, p).Ok? && ValueAt(c, src, tok, p) == Ok(TList(Args(c, src, p).value), Args(c, src, p).pos)
    ensures tok.kind.TokKeyword? ==>
      var (open, q) := Lex(src, p);
      open.kind.TokLParen? && Args(c, src, q).Ok? && ValueAt(c, src, tok, p) == Ok(TTyped(tok.text, Args(c, src, q).value), Args(c, src, q).pos)
  {
    hide Args, Lex;
  }

  lemma {:induction false} FormOf(c: Codec, src: Bytes, p: nat) returns (f: Form)
    requires p <= |src| && ValueKind(Lex(src, p).0.kind) && ValueAt(c, src, Lex(src, p).0, Lex(src, p).1).Ok?
    requires ValueAt(c, src, Lex(src, p).0, Lex(src, p).1).pos < |src|
    ensures !f.Comma? && Scans(src, p, Words(f)) && FormRead(c, src, p, f)
    decreases |src| - p, 0
  {
    hide Args, ValueAt, LeafTree, Spelled, Scans, After;
    var tok, q := Lex(src, p).0, Lex(src, p).1;
    var v := ValueAt(c, src, tok, q);
    ValueUnfold(c, src, tok, q);
    if tok.kind.TokLParen? {
      var w := SpelledWord(src, p);
      MarkOf(src, p, w);
      var items := FormsOf(c, src, q);
      f := Group(items);
      var ws := AllWords(items) + [CLOSE];
      assert Words(f) == [OPEN] + ws;
      ScansOne(src, p, OPEN);
      ScansJoin(src, p, [OPEN], ws);
    } else if tok.kind.TokKeyword? {
      var w := SpelledWord(src, p);
      MarkOf(src, p, w);
      var u := SpelledWord(src, q);
      MarkOf(src, q, u);
      var items := FormsOf(c, src, Lex(src, q).1);
      f := Typed(tok.text, items);
      var ws := AllWords(items) + [CLOSE];
      assert Words(f) == [Keyword(tok.text)] + ([OPEN] + ws);
      ScansOne(src, q, OPEN);
      ScansJoin(src, q, [OPEN], ws);
      ScansOne(src, p, w);
      ScansJoin(src, p, [Keyword(tok.text)], [OPEN] + ws);
    } else {
      ScalarEnds(c, src, tok, q);
      var w := SpelledWord(src, p);
      f := Leaf(w);
      SpelledToken(src, p, w);
      SpelledOk(src, p, w);
      LeafOf(c, src, w, q);
      ScansOne(src, p, w);
    }
    ReadForm(c, src, p, f);
  }

  lemma {:induction false} SpelledOk(src: Bytes, p: nat, w: Word)
    requires Spelled(src, p, w)
    ensures WordOk(w)
  {
  }

  lemma {:induction false} ScalarEnds(c: Codec, src: Bytes, tok: Token, p: nat)
    requires p <= |src| && ValueAt(c, src, tok, p).Ok? && !tok.kind.TokLParen? && !tok.kind.TokKeyword?
    ensures ValueAt(c, src, tok, p).pos == p
  {
    hide Args;
  }

  /** The list read from `p` on is written as these items and a closing mark. */
  ghost predicate Listed(c: Codec, src: Bytes, p: nat, items: seq<Form>) {
    && p <= |src| && Args(c, src, p).Ok?
    && Values(c, items) == Some(Args(c, src, p).value) && Scans(src, p, AllWords(items) + [CLOSE])
    && Args(c, src, p).pos == After(src, p, |AllWords(items)| + 1)
  }

  lemma {:induction false} NoneListed(c: Codec, src: Bytes, p: nat)
    requires p <= |src| && Lex(src, p).0.kind.TokRParen?
    ensures Listed(c, src, p, [])
  {
    hide ValueAt, Spelled, Scans, Lex, Args;
    var w := SpelledWord(src, p);
    MarkOf(src, p, w);
    assert AllWords([]) + [CLOSE] == [CLOSE];
    ScansOne(src, p, CLOSE);
    CloseStep(c, src, p);
  }

  lemma {:induction false} CommaListed(c: Codec, src: Bytes, p: nat, rest: seq<Form>)
    requires p <= |src| && Lex(src, p).0.kind.TokComma? && Listed(c, src, Lex(src, p).1, rest)
    ensures Listed(c, src, p, [Comma] + rest)
  {
    hide ValueAt, Spelled, Scans, Lex, Args, After, Value, Words;
    var items := [Comma] + rest;
    assert items[1..] == rest && items[0] == Comma;
    CommaStep(c, src, p);
    var w := SpelledWord(src, p);
    MarkOf(src, p, w);
    CommaWords(rest);
    ScansOne(src, p, Mark(','));
    ScansJoin(src, p, [Mark(',')], AllWords(rest) + [CLOSE]);
    AfterSum(src, p, 1, |AllWords(rest)| + 1);
  }

  lemma {:induction false} CommaWords(rest: seq<Form>)
    ensures AllWords([Comma] + rest) + [CLOSE] == [Mark(',')] + (AllWords(rest) + [CLOSE]) && |AllWords([Comma] + rest)| == 1 + |AllWords(rest)|
  {
    assert ([Comma] + rest)[1..] == rest;
  }

  lemma {:induction false} FormListed(c: Codec, src: Bytes, p: nat, f: Form, rest: seq<Form>)
    requires p <= |src| && !f.Comma? && Scans(src, p, Words(f)) && FormRead(c, src, p, f) && Listed(c, src, After(src, p, |Words(f)|), rest)
    ensures Listed(c, src, p, [f] + rest)
  {
    hide ValueAt, Spelled, Scans, Lex, Args, After, Value, Words;
    var items, q := [f] + rest, After(src, p, |Words(f)|);
    assert items[1..] == rest && items[0] == f;
    assert AllWords(items) + [CLOSE] == Words(f) + (AllWords(rest) + [CLOSE]);
    ValueStep(c, src, p, Value(c, f).value, q);
    ScansJoin(src, p, Words(f), AllWords(rest) + [CLOSE]);
    AfterSum(src, p, |Words(f)|, |AllWords(rest)| + 1);
  }

  /** Every argument list that is read is written as one, with nothing left over. */
  lemma {:induction false} FormsOf(c: Codec, src: Bytes, p: nat) returns (items: seq<Form>)
    requires p <= |src| && Args(c, src, p).Ok?
    ensures Listed(c, src, p, items)
    decreases |src| - p, 1
  {
    hide ValueAt, Spelled, Scans, After, Words, Value, Listed, FormRead, Args;
    SomethingLeft(c, src, p);
    var tok, q := Lex(src, p).0, Lex(src, p).1;
    if tok.kind.TokRParen? {
      items := [];
      NoneListed(c, src, p);
    } else if tok.kind.TokComma? {
      CommaStep(c, src, p);
      var rest := FormsOf(c, src, q);
      items := [Comma] + rest;
      CommaListed(c, src, p, rest);
    } else {
      ArgsUnfold(c, src, p);
      var e := ValueAt(c, src, tok, q).pos;
      SomethingLeft(c, src, e);
      var f := FormOf(c, src, p);
      FormEnds(c, src, p, f);
      var rest := FormsOf(c, src, e);
      items := [f] + rest;
      FormListed(c, src, p, f, rest);
    }
  }

  lemma {:induction false} FormEnds(c: Codec, src: Bytes, p: nat, f: Form)
    requires p <= |src| && FormRead(c, src, p, f)
    ensures ValueAt(c, src, Lex(src, p).0, Lex(src, p).1).pos == After(src, p, |Words(f)|)
  {
  }
}
