// How tokens are written: blanks, comments and words as bytes, told without the scanner, and
// that the scanner reads every written word as what it is.
module StepWords {
  import opened StepLexer

  // ---------------------------------------------------------------- what is written

  /** Between words: a blank byte, or a comment and what is in it. */
  datatype Blank = Space(c: Byte) | Comment(body: Bytes)

  type Gap = seq<Blank>

  /** A word of the file: a mark of one byte, a reference's digits, a string between apostrophes
      with its own apostrophes doubled, a binary between double quotes, an enumeration between
      points (the second may be missing), a number, or a keyword. */
  datatype Word =
    | Mark(c: Byte) | RefWord(digits: Bytes) | Quoted(raw: Bytes) | Bits(body: Bytes)
    | Dotted(name: Bytes, closed: bool) | Number(text: Bytes) | Keyword(text: Bytes)

  predicate Digit(c: Byte) { '0' <= c <= '9' }

  predicate White(c: Byte) { c == ' ' || c == '\t' || c == '\r' || c == '\n' }

  predicate Breaks(c: Byte) { c == '(' || c == ')' || c == '=' || c == ',' || c == ';' || White(c) }

  predicate IsMark(c: Byte) { c == '(' || c == ')' || c == '=' || c == ',' || c == ';' || c == '$' || c == '*' }

  predicate Sign(c: Byte) { c == '+' || c == '-' }

  predicate Exponent(c: Byte) { c == 'e' || c == 'E' }

  /** A byte that begins a word of another kind than a keyword. */
  predicate Opens(c: Byte) { c == '$' || c == '*' || c == '#' || c == '\'' || c == '"' || c == '.' || Sign(c) || Digit(c) }

  predicate NoClose(body: Bytes) { forall i :: 0 <= i < |body| - 1 ==> !(body[i] == '*' && body[i + 1] == '/') }

  predicate BlankOk(b: Blank) {
    match b case Space(c) => White(c) case Comment(body) => NoClose(body)
  }

  function BlankText(b: Blank): Bytes {
    match b case Space(c) => [c] case Comment(body) => "/*" + body + "*/"
  }

  predicate GapOk(g: Gap) { forall b <- g :: BlankOk(b) }

  function GapText(g: Gap): Bytes { if g == [] then [] else BlankText(g[0]) + GapText(g[1..]) }

  function WordText(w: Word): Bytes {
    match w
    case Mark(c) => [c]
    case RefWord(d) => "#" + d
    case Quoted(raw) => "'" + raw + "'"
    case Bits(body) => "\"" + body + "\""
    case Dotted(name, closed) => "." + name + if closed then "." else ""
    case Number(text) => text
    case Keyword(text) => text
  }

  /** Apostrophes come in pairs. */
  predicate Paired(raw: Bytes) {
    raw == [] || (if raw[0] != '\'' then Paired(raw[1..]) else |raw| >= 2 && raw[1] == '\'' && Paired(raw[2..]))
  }

  /** Digits, points and exponents, a sign only right after an exponent's letter. */
  predicate Figures(t: Bytes) {
    t == [] || (if Digit(t[0]) || t[0] == '.' then Figures(t[1..])
                else Exponent(t[0]) && Figures(if |t| >= 2 && Sign(t[1]) then t[2..] else t[1..]))
  }

  predicate NumberOk(t: Bytes) {
    && t != [] && Figures(if Sign(t[0]) then t[1..] else t)
    && (Sign(t[0]) || Digit(t[0]) || (t[0] == '.' && |t| >= 2 && Digit(t[1])))
  }

  /** A number with a point or an exponent is a real. */
  predicate RealText(t: Bytes) { exists i :: 0 <= i < |t| && (t[i] == '.' || t[i] == 'e' || t[i] == 'E') }

  predicate WordOk(w: Word) {
    match w
    case Mark(c) => IsMark(c)
    case RefWord(d) => forall i :: 0 <= i < |d| ==> Digit(d[i])
    case Quoted(raw) => Paired(raw)
    case Bits(body) => '"' !in body
    case Dotted(name, _) => (forall i :: 0 <= i < |name| ==> name[i] != '.' && !Breaks(name[i])) && (name != [] ==> !Digit(name[0]))
    case Number(text) => NumberOk(text)
    case Keyword(text) =>
      && text != [] && (forall i :: 0 <= i < |text| ==> !Breaks(text[i]))
      && !Opens(text[0]) && !(|text| >= 2 && text[0] == '/' && text[1] == '*')
  }

  /** What may follow a word without running on with it. */
  predicate Ends(w: Word, next: Bytes) {
    next == [] ||
    match w
    case Mark(_) => true
    case RefWord(_) => !Digit(next[0])
    case Quoted(_) => next[0] != '\''
    case Bits(_) => true
    case Dotted(_, closed) => closed || Breaks(next[0])
    case Number(text) =>
      && !Digit(next[0]) && next[0] != '.' && !Exponent(next[0])
      && !(Sign(next[0]) && text != [] && Exponent(text[|text| - 1]))
    case Keyword(_) => Breaks(next[0])
  }

  /** Neither blank nor the beginning of a comment. */
  predicate Starts(next: Bytes) {
    next == [] || (!White(next[0]) && !(|next| >= 2 && next[0] == '/' && next[1] == '*'))
  }

  // ---------------------------------------------------------------- the token of a word

  function MarkKind(c: Byte): TokenKind {
    if c == '(' then TokLParen else if c == ')' then TokRParen else if c == ',' then TokComma else if c == '=' then TokEquals
    else if c == ';' then TokSemi else if c == '$' then TokDollar else TokStar
  }

  predicate Truth(name: Bytes) { name == "T" || name == "F" || name == "U" }

  function TokenFor(w: Word): Token {
    match w
    case Mark(c) => Token(MarkKind(c), [c])
    case RefWord(d) => Token(TokRef, d)
    case Quoted(raw) => Token(TokString, raw)
    case Bits(body) => Token(TokBinary, body)
    case Dotted(name, _) => Token(if Truth(name) then TokBool else TokEnum, name)
    case Number(text) => Token(if RealText(text) then TokFloat else TokInt, text)
    case Keyword(text) => Token(TokKeyword, text)
  }

  // ---------------------------------------------------------------- runs

  /** A stretch of bytes stands at `p`, and `next` after it. */
  predicate Stands(src: Bytes, p: nat, s: Bytes, next: Bytes) { p <= |src| && src[p..] == s + next }

  lemma {:induction false} StandsAt(src: Bytes, p: nat, s: Bytes, next: Bytes)
    requires Stands(src, p, s, next)
    ensures p + |s| <= |src| && |src| == p + |s| + |next| && src[p..p + |s|] == s && src[p + |s|..] == next
    ensures forall i :: 0 <= i < |s| ==> src[p + i] == s[i]
    ensures forall i :: 0 <= i < |next| ==> src[p + |s| + i] == next[i]
  {
    var t := src[p..];
    assert |t| == |s| + |next|;
    assert forall i :: 0 <= i < |s| ==> src[p + i] == t[i] == s[i];
    assert forall i :: 0 <= i < |next| ==> src[p + |s| + i] == t[|s| + i] == next[i];
    assert src[p + |s|..] == next;
  }

  lemma {:induction false} StandsLater(src: Bytes, p: nat, a: Bytes, b: Bytes, next: Bytes)
    requires Stands(src, p, a + b, next)
    ensures Stands(src, p, a, b + next) && Stands(src, p + |a|, b, next)
  {
    assert (a + b) + next == a + (b + next);
    StandsAt(src, p, a, b + next);
  }

  lemma {:induction false} FirstByte(src: Bytes, p: nat, s: Bytes, next: Bytes)
    requires Stands(src, p, s, next) && s != []
    ensures p < |src| && src[p] == s[0]
  {
    assert src[p..][0] == (s + next)[0];
  }

  lemma {:induction false} NextByte(src: Bytes, p: nat, s: Bytes, next: Bytes)
    requires Stands(src, p, s, next)
    ensures p + |s| <= |src| && |src| == p + |s| + |next| && src[p..p + |s|] == s
    ensures next != [] ==> src[p + |s|] == next[0]
  {
    StandsAt(src, p, s, next);
    if next != [] { assert src[p + |s| + 0] == next[0]; }
  }

  /** A run of a class of bytes, ended by a byte outside it. */
  lemma {:induction false} SpanRead(src: Bytes, p: nat, s: Bytes, next: Bytes, f: Byte -> bool)
    requires Stands(src, p, s, next) && (forall i :: 0 <= i < |s| ==> f(s[i])) && (next == [] || !f(next[0]))
    ensures Span(src, p, f) == p + |s|
    decreases |s|
  {
    StandsAt(src, p, s, next);
    if s != [] {
      assert f(src[p]) by { assert src[p + 0] == s[0]; }
      assert s == [s[0]] + s[1..];
      StandsLater(src, p, [s[0]], s[1..], next);
      SpanRead(src, p + 1, s[1..], next, f);
    } else if next != [] {
      assert src[p + |s| + 0] == next[0];
    }
  }

  lemma {:induction false} StringRead(src: Bytes, p: nat, raw: Bytes, next: Bytes)
    requires Stands(src, p, raw + "'", next) && Paired(raw) && (next == [] || next[0] != '\'')
    ensures StringEnd(src, p) == p + |raw|
    decreases |raw|
  {
    StandsAt(src, p, raw + "'", next);
    if raw == [] {
      assert src[p] == (raw + "'")[0];
      if next != [] { assert src[p + 1 + 0] == next[0]; }
    } else if raw[0] != '\'' {
      assert src[p] == (raw + "'")[0] == raw[0];
      assert raw + "'" == [raw[0]] + (raw[1..] + "'");
      StandsLater(src, p, [raw[0]], raw[1..] + "'", next);
      StringRead(src, p + 1, raw[1..], next);
    } else {
      assert src[p] == (raw + "'")[0] && src[p + 1] == (raw + "'")[1];
      assert raw + "'" == raw[..2] + (raw[2..] + "'");
      StandsLater(src, p, raw[..2], raw[2..] + "'", next);
      StringRead(src, p + 2, raw[2..], next);
    }
  }

  lemma {:induction false} CommentRead(src: Bytes, p: nat, body: Bytes, next: Bytes)
    requires Stands(src, p, body + "*/", next) && NoClose(body)
    ensures CommentEnd(src, p) == p + |body| + 2
    decreases |body|
  {
    var s := body + "*/";
    StandsAt(src, p, s, next);
    assert src[p] == s[0] && src[p + 1] == s[1];
    if body != [] {
      if |body| == 1 { assert s[1] == '*'; } else { assert s[0] == body[0] && s[1] == body[1]; }
      assert s == [body[0]] + (body[1..] + "*/");
      StandsLater(src, p, [body[0]], body[1..] + "*/", next);
      NoCloseLater(body);
      CommentRead(src, p + 1, body[1..], next);
    }
  }

  lemma {:induction false} NoCloseLater(body: Bytes)
    requires NoClose(body) && body != []
    ensures NoClose(body[1..])
  {
    var rest := body[1..];
    forall i | 0 <= i < |rest| - 1 ensures !(rest[i] == '*' && rest[i + 1] == '/') { assert rest[i] == body[i + 1] && rest[i + 1] == body[i + 2]; }
  }

  lemma {:induction false} CommentSkipped(src: Bytes, p: nat)
    requires CommentAt(src, p)
    ensures Trivia(src, p) == Trivia(src, CommentEnd(src, p + 2))
  {
  }

  lemma {:induction false} SpaceSkipped(src: Bytes, p: nat)
    requires p < |src| && White(src[p])
    ensures Trivia(src, p) == Trivia(src, p + 1)
  {
  }

  lemma {:induction false} BlankRead(src: Bytes, p: nat, b: Blank, next: Bytes)
    requires Stands(src, p, BlankText(b), next) && BlankOk(b)
    ensures p + |BlankText(b)| <= |src| && Trivia(src, p) == Trivia(src, p + |BlankText(b)|)
  {
    hide Trivia, CommentEnd, Stands, NoClose;
    var s := BlankText(b);
    StandsAt(src, p, s, next);
    assert src[p + 0] == s[0];
    match b {
      case Space(c) => SpaceSkipped(src, p);
      case Comment(body) =>
        assert src[p + 1] == s[1] && s == "/*" + (body + "*/");
        StandsLater(src, p, "/*", body + "*/", next);
        CommentSkipped(src, p);
        CommentRead(src, p + 2, body, next);
    }
  }

  lemma {:induction false} NoBlankRead(src: Bytes, p: nat)
    requires p <= |src| && Starts(src[p..])
    ensures Trivia(src, p) == p
  {
    var next := src[p..];
    if next != [] { assert src[p] == next[0]; }
    if |next| >= 2 { assert src[p + 1] == next[1]; }
  }

  lemma {:induction false} GapRead(src: Bytes, p: nat, g: Gap, next: Bytes)
    requires Stands(src, p, GapText(g), next) && GapOk(g) && Starts(next)
    ensures p + |GapText(g)| <= |src| && Trivia(src, p) == p + |GapText(g)|
    decreases |g|
  {
    hide Starts, BlankText, BlankOk, Trivia, Stands;
    if g == [] {
      StandsIs(src, p, [], next);
      assert src[p..] == next;
      NoBlankRead(src, p);
    } else {
      var b, rest := g[0], GapText(g[1..]);
      assert b in g;
      StandsLater(src, p, BlankText(b), rest, next);
      GapRead(src, p + |BlankText(b)|, g[1..], next);
      BlankRead(src, p, b, rest + next);
    }
  }

  lemma {:induction false} StandsIs(src: Bytes, p: nat, s: Bytes, next: Bytes)
    requires Stands(src, p, s, next)
    ensures p <= |src| && src[p..] == s + next
  {
  }

  /** One figure, or an exponent's letter and sign. */
  lemma {:induction false} NumberStep(src: Bytes, p: nat, n: nat, known: bool)
    requires p < |src| && p + n <= |src|
    requires if Digit(src[p]) || src[p] == '.' then n == 1
      else Exponent(src[p]) && n == if p + 1 < |src| && Sign(src[p + 1]) then 2 else 1
    ensures NumberEnd(src, p, known) == NumberEnd(src, p + n, known || !Digit(src[p]))
  {
  }

  lemma {:induction false} NumberStops(src: Bytes, p: nat, known: bool)
    requires p <= |src| && (p < |src| ==> !Digit(src[p]) && src[p] != '.' && !Exponent(src[p]))
    ensures NumberEnd(src, p, known) == (p, known)
  {
  }

  /** How many bytes a number's first figure takes. */
  function FigureSize(t: Bytes): nat
    requires t != []
  {
    if !Digit(t[0]) && t[0] != '.' && |t| >= 2 && Sign(t[1]) then 2 else 1
  }

  lemma {:induction false} FigureHere(src: Bytes, p: nat, t: Bytes, next: Bytes)
    requires Stands(src, p, t, next) && t != [] && Figures(t) && Ends(Number(t), next)
    ensures var n := FigureSize(t);
      && p < |src| && p + n <= |src| && src[p] == t[0] && n <= |t|
      && (if Digit(src[p]) || src[p] == '.' then n == 1
          else Exponent(src[p]) && n == if p + 1 < |src| && Sign(src[p + 1]) then 2 else 1)
  {
    hide Stands;
    StandsAt(src, p, t, next);
    assert src[p + 0] == t[0];
    if |t| >= 2 { assert src[p + 1] == t[1]; } else if next != [] { assert src[p + |t| + 0] == next[0]; }
  }

  lemma {:induction false} FigureRest(src: Bytes, p: nat, t: Bytes, next: Bytes)
    requires Stands(src, p, t, next) && t != [] && Figures(t) && Ends(Number(t), next)
    ensures var n := FigureSize(t); n <= |t| && Stands(src, p + n, t[n..], next) && Figures(t[n..]) && Ends(Number(t[n..]), next)
  {
    hide Stands;
    var n := FigureSize(t);
    assert t == t[..n] + t[n..];
    StandsLater(src, p, t[..n], t[n..], next);
    if t[n..] != [] { assert t[n..][|t[n..]| - 1] == t[|t| - 1]; }
  }

  lemma {:induction false} FiguresRead(src: Bytes, p: nat, t: Bytes, next: Bytes, known: bool)
    requires Stands(src, p, t, next) && Figures(t) && Ends(Number(t), next)
    ensures p + |t| <= |src| && NumberEnd(src, p, known) == (p + |t|, known || RealText(t))
    decreases |t|
  {
    hide Figures, RealText, Stands, NumberEnd, Digit;
    if t == [] {
      StandsAt(src, p, [], next);
      if next != [] { assert src[p + 0 + 0] == next[0]; }
      NumberStops(src, p, known);
      NoReal();
    } else {
      var n := FigureSize(t);
      FigureHere(src, p, t, next);
      FigureRest(src, p, t, next);
      NumberStep(src, p, n, known);
      FiguresRead(src, p + n, t[n..], next, known || !Digit(t[0]));
      RealFirst(t);
    }
  }

  lemma {:induction false} NoReal()
    ensures !RealText([])
  {
  }

  lemma {:induction false} RealFirst(t: Bytes)
    requires t != [] && (Digit(t[0]) || t[0] == '.' || Exponent(t[0]))
    ensures FigureSize(t) <= |t| && (RealText(t) <==> !Digit(t[0]) || RealText(t[FigureSize(t)..]))
  {
    RealMore(t, FigureSize(t));
  }

  lemma {:induction false} RealMore(t: Bytes, n: nat)
    requires 1 <= n <= |t| && n <= 2 && (n == 2 ==> Exponent(t[0]) && Sign(t[1]))
    ensures RealText(t) <==> t[0] == '.' || t[0] == 'e' || t[0] == 'E' || RealText(t[n..])
  {
    if RealText(t) {
      var i :| 0 <= i < |t| && (t[i] == '.' || t[i] == 'e' || t[i] == 'E');
      if i >= n { assert t[n..][i - n] == t[i]; }
    }
    if RealText(t[n..]) {
      var i :| 0 <= i < |t[n..]| && (t[n..][i] == '.' || t[n..][i] == 'e' || t[n..][i] == 'E');
      assert t[n + i] == t[n..][i];
    }
  }

  // ---------------------------------------------------------------- words

  /** The scanner reads the word that stands at `p`, and nothing of what follows it. */
  ghost predicate Reads(src: Bytes, p: nat, w: Word) { ReadsAs(src, p, TokenFor(w), p + |WordText(w)|) }

  ghost predicate ReadsAs(src: Bytes, p: nat, tok: Token, q: nat) {
    p < |src| && !White(src[p]) && !CommentAt(src, p) && LexAt(src, p) == (tok, q)
  }

  lemma {:induction false} MarkReads(src: Bytes, p: nat, c: Byte, next: Bytes)
    requires Stands(src, p, [c], next) && WordOk(Mark(c))
    ensures ReadsAs(src, p, Token(MarkKind(c), [c]), p + 1)
  {
    StandsAt(src, p, [c], next);
    assert src[p + 0] == c && src[p..p + 1] == [c];
  }

  // What the scanner does at each kind of first byte.

  lemma {:induction false} AtHash(src: Bytes, p: nat)
    requires p < |src| && src[p] == '#'
    ensures var q := Span(src, p + 1, IsDigit); LexAt(src, p) == (Token(TokRef, src[p + 1..q]), q)
  {
    hide Span, StringEnd;
  }

  lemma {:induction false} AtApostrophe(src: Bytes, p: nat)
    requires p < |src| && src[p] == '\''
    ensures var q := StringEnd(src, p + 1); LexAt(src, p) == (Token(TokString, src[p + 1..q]), if q < |src| then q + 1 else q)
  {
    hide Span, StringEnd;
  }

  lemma {:induction false} AtQuote(src: Bytes, p: nat)
    requires p < |src| && src[p] == '"'
    ensures var q := Span(src, p + 1, InBinary); LexAt(src, p) == (Token(TokBinary, src[p + 1..q]), if q < |src| then q + 1 else q)
  {
    hide Span, StringEnd;
  }

  lemma {:induction false} AtPoint(src: Bytes, p: nat)
    requires p < |src| && src[p] == '.'
    ensures LexAt(src, p) == if p + 1 < |src| && Digit(src[p + 1]) then LexNumber(src, p) else LexEnum(src, p)
  {
    hide Span, StringEnd, LexNumber, LexEnum;
  }

  lemma {:induction false} AtFigure(src: Bytes, p: nat)
    requires p < |src| && (Sign(src[p]) || Digit(src[p]))
    ensures LexAt(src, p) == LexNumber(src, p)
  {
    hide Span, StringEnd, LexNumber, LexEnum;
  }

  lemma {:induction false} AtLetter(src: Bytes, p: nat)
    requires p < |src| && !Breaks(src[p]) && !Opens(src[p])
    ensures var q := Span(src, p, InKeyword); LexAt(src, p) == (Token(TokKeyword, src[p..q]), q)
  {
    hide Span, StringEnd, LexNumber, LexEnum;
  }

  /** A word's first byte, and what stands after it. */
  lemma {:induction false} Opened(src: Bytes, p: nat, first: Byte, rest: Bytes, next: Bytes)
    requires Stands(src, p, [first] + rest, next)
    ensures p < |src| && src[p] == first && Stands(src, p + 1, rest, next)
  {
    StandsLater(src, p, [first], rest, next);
    FirstByte(src, p, [first], rest + next);
  }

  lemma {:induction false} NotTrivia(src: Bytes, p: nat)
    requires p < |src| && (IsMark(src[p]) || Opens(src[p]))
    ensures !White(src[p]) && !CommentAt(src, p)
  {
  }

  lemma {:induction false} RefReads(src: Bytes, p: nat, d: Bytes, next: Bytes)
    requires Stands(src, p, "#" + d, next) && WordOk(RefWord(d)) && Ends(RefWord(d), next)
    ensures ReadsAs(src, p, Token(TokRef, d), p + 1 + |d|)
  {
    hide Stands, Span, LexAt, CommentAt;
    Opened(src, p, '#', d, next);
    NotTrivia(src, p);
    SpanRead(src, p + 1, d, next, IsDigit);
    NextByte(src, p + 1, d, next);
    AtHash(src, p);
  }

  lemma {:induction false} QuotedReads(src: Bytes, p: nat, raw: Bytes, next: Bytes)
    requires Stands(src, p, "'" + raw + "'", next) && Paired(raw) && Ends(Quoted(raw), next)
    ensures ReadsAs(src, p, Token(TokString, raw), p + |raw| + 2)
  {
    hide StringEnd, Stands, Paired, LexAt, CommentAt;
    assert "'" + raw + "'" == ['\''] + (raw + "'");
    Opened(src, p, '\'', raw + "'", next);
    NotTrivia(src, p);
    StringRead(src, p + 1, raw, next);
    StandsLater(src, p + 1, raw, "'", next);
    NextByte(src, p + 1, raw, "'" + next);
    AtApostrophe(src, p);
  }

  lemma {:induction false} BitsReads(src: Bytes, p: nat, body: Bytes, next: Bytes)
    requires Stands(src, p, "\"" + body + "\"", next) && '"' !in body
    ensures ReadsAs(src, p, Token(TokBinary, body), p + |body| + 2)
  {
    hide Stands, Span, LexAt, CommentAt;
    assert "\"" + body + "\"" == ['"'] + (body + "\"");
    Opened(src, p, '"', body + "\"", next);
    NotTrivia(src, p);
    StandsLater(src, p + 1, body, "\"", next);
    SpanRead(src, p + 1, body, "\"" + next, InBinary);
    NextByte(src, p + 1, body, "\"" + next);
    AtQuote(src, p);
  }

  lemma {:induction false} DottedReads(src: Bytes, p: nat, name: Bytes, closed: bool, next: Bytes)
    requires var w := Dotted(name, closed); Stands(src, p, WordText(w), next) && WordOk(w) && Ends(w, next)
    ensures ReadsAs(src, p, TokenFor(Dotted(name, closed)), p + 1 + |name| + if closed then 1 else 0)
  {
    hide Stands, Span, LexAt, CommentAt, LexNumber, LexEnum;
    var close: Bytes := if closed then "." else "";
    assert WordText(Dotted(name, closed)) == ['.'] + (name + close);
    Opened(src, p, '.', name + close, next);
    NotTrivia(src, p);
    StandsLater(src, p + 1, name, close, next);
    var after := close + next;
    assert after != [] ==> after[0] == if closed then '.' else next[0];
    NameRead(src, p, name, after);
    AtPoint(src, p);
    DottedEnd(src, p, name, closed, after);
  }

  /** An enumeration's name, whatever ends it. */
  lemma {:induction false} NameRead(src: Bytes, p: nat, name: Bytes, after: Bytes)
    requires Stands(src, p + 1, name, after) && WordOk(Dotted(name, true)) && (after == [] || after[0] == '.' || Breaks(after[0]))
    ensures Span(src, p + 1, InEnum) == p + 1 + |name| <= |src| && src[p + 1..p + 1 + |name|] == name
    ensures |src| == p + 1 + |name| + |after| && (after != [] ==> src[p + 1 + |name|] == after[0])
    ensures !(p + 1 < |src| && Digit(src[p + 1]))
  {
    hide Stands, Span;
    SpanRead(src, p + 1, name, after, InEnum);
    NextByte(src, p + 1, name, after);
    if name != [] { FirstByte(src, p + 1, name, after); }
  }

  lemma {:induction false} DottedEnd(src: Bytes, p: nat, name: Bytes, closed: bool, after: Bytes)
    requires p + 1 <= |src| && Span(src, p + 1, InEnum) == p + 1 + |name| <= |src| && src[p + 1..p + 1 + |name|] == name
    requires |src| == p + 1 + |name| + |after| && (after != [] ==> src[p + 1 + |name|] == after[0])
    requires if closed then after != [] && after[0] == '.' else after != [] ==> Breaks(after[0])
    ensures p < |src| && LexEnum(src, p) == (TokenFor(Dotted(name, closed)), p + 1 + |name| + if closed then 1 else 0)
  {
    hide Span;
    var q := p + 1 + |name|;
    assert q < |src| ==> (src[q] == '.' <==> closed);
    assert q == |src| ==> !closed;
  }

  lemma {:induction false} NumberReads(src: Bytes, p: nat, text: Bytes, next: Bytes)
    requires Stands(src, p, text, next) && NumberOk(text) && Ends(Number(text), next)
    ensures ReadsAs(src, p, TokenFor(Number(text)), p + |text|)
  {
    hide Stands, Figures, NumberEnd, RealText, LexAt, CommentAt, LexNumber;
    FirstByte(src, p, text, next);
    NotTrivia(src, p);
    NumberLexed(src, p, text, next);
    if text[0] == '.' {
      assert text == ['.'] + text[1..];
      Opened(src, p, '.', text[1..], next);
      FirstByte(src, p + 1, text[1..], next);
      AtPoint(src, p);
    } else {
      AtFigure(src, p);
    }
  }

  lemma {:induction false} NumberLexed(src: Bytes, p: nat, text: Bytes, next: Bytes)
    requires Stands(src, p, text, next) && NumberOk(text) && Ends(Number(text), next)
    ensures p <= |src| && LexNumber(src, p) == (TokenFor(Number(text)), p + |text|)
  {
    hide Stands, Figures, NumberEnd, RealText;
    FirstByte(src, p, text, next);
    NextByte(src, p, text, next);
    if Sign(text[0]) {
      var body := text[1..];
      assert text == [text[0]] + body;
      Opened(src, p, text[0], body, next);
      EndsLater(text, next);
      FiguresRead(src, p + 1, body, next, false);
      RealSign(text);
    } else {
      FiguresRead(src, p, text, next, false);
    }
  }

  lemma {:induction false} EndsLater(text: Bytes, next: Bytes)
    requires text != [] && Ends(Number(text), next)
    ensures Ends(Number(text[1..]), next)
  {
    var body := text[1..];
    if body != [] { assert body[|body| - 1] == text[|text| - 1]; }
  }

  lemma {:induction false} RealSign(t: Bytes)
    requires t != [] && Sign(t[0])
    ensures RealText(t) <==> RealText(t[1..])
  {
    if RealText(t) {
      var i :| 0 <= i < |t| && (t[i] == '.' || t[i] == 'e' || t[i] == 'E');
      assert t[1..][i - 1] == t[i];
    }
    if RealText(t[1..]) {
      var i :| 0 <= i < |t[1..]| && (t[1..][i] == '.' || t[1..][i] == 'e' || t[1..][i] == 'E');
      assert t[i + 1] == t[1..][i];
    }
  }

  lemma {:induction false} KeywordReads(src: Bytes, p: nat, text: Bytes, next: Bytes)
    requires Stands(src, p, text, next) && WordOk(Keyword(text)) && Ends(Keyword(text), next)
    ensures ReadsAs(src, p, Token(TokKeyword, text), p + |text|)
  {
    hide Stands, Span, LexAt;
    FirstByte(src, p, text, next);
    NextByte(src, p, text, next);
    if |text| >= 2 {
      assert text == [text[0]] + text[1..];
      Opened(src, p, text[0], text[1..], next);
      FirstByte(src, p + 1, text[1..], next);
    }
    SpanRead(src, p, text, next, InKeyword);
    AtLetter(src, p);
  }

  lemma {:induction false} WordReads(src: Bytes, p: nat, w: Word, next: Bytes)
    requires Stands(src, p, WordText(w), next) && WordOk(w) && Ends(w, next)
    ensures Reads(src, p, w)
  {
    hide ReadsAs, Stands, Paired, NumberOk, RealText;
    match w
    case Mark(c) => MarkReads(src, p, c, next);
    case RefWord(d) => RefReads(src, p, d, next);
    case Quoted(raw) => QuotedReads(src, p, raw, next);
    case Bits(body) => BitsReads(src, p, body, next);
    case Dotted(name, closed) => DottedReads(src, p, name, closed, next);
    case Number(text) => NumberReads(src, p, text, next);
    case Keyword(text) => KeywordReads(src, p, text, next);
  }
}
