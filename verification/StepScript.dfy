// Pieces of a file, a word each with the blanks before it: the scanner reads the pieces a text
// is made of, and every text it reads is made of pieces.
module StepScript {
  import opened StepLexer
  import opened StepWords

  datatype Piece = Piece(gap: Gap, word: Word)

  function PieceText(x: Piece): Bytes { GapText(x.gap) + WordText(x.word) }

  function Text(ps: seq<Piece>): Bytes { if ps == [] then [] else PieceText(ps[0]) + Text(ps[1..]) }

  /** Every piece is well written, and no word runs on into what follows it. */
  predicate Spaced(ps: seq<Piece>, tail: Bytes) {
    ps == [] ||
    (&& GapOk(ps[0].gap) && WordOk(ps[0].word) && Ends(ps[0].word, Text(ps[1..]) + tail)
     && Spaced(ps[1..], tail))
  }

  /** The pieces stand at `p`, and the tail after them. */
  ghost predicate Lies(src: Bytes, p: nat, ps: seq<Piece>, tail: Bytes) {
    Stands(src, p, Text(ps), tail) && Spaced(ps, tail)
  }

  lemma {:induction false} WordStarts(w: Word, next: Bytes)
    requires WordOk(w) && Ends(w, next)
    ensures Starts(WordText(w) + next)
  {
    var s := WordText(w);
    assert s != [] && (s + next)[0] == s[0];
    match w
    case Keyword(text) =>
      if text[0] == '/' && |s + next| >= 2 {
        if |text| >= 2 { assert (s + next)[1] == text[1]; } else { assert (s + next)[1] == next[0]; }
      }
    case Number(text) =>
    case _ =>
  }

  // ---------------------------------------------------------------- written, so read

  /** The scanner reads a piece: it skips the gap and takes the word. */
  lemma {:induction false} PieceRead(src: Bytes, p: nat, x: Piece, next: Bytes)
    requires Stands(src, p, PieceText(x), next) && GapOk(x.gap) && WordOk(x.word) && Ends(x.word, next)
    ensures p <= |src| && Trivia(src, p) == p + |GapText(x.gap)|
    ensures Lex(src, p) == (TokenFor(x.word), p + |PieceText(x)|) && Stands(src, p + |PieceText(x)|, [], next)
  {
    hide Stands, GapOk, WordOk, Ends, WordText, GapText, LexAt, TokenFor, Starts;
    var g, s := GapText(x.gap), WordText(x.word);
    StandsLater(src, p, g, s, next);
    WordStarts(x.word, next);
    GapRead(src, p, x.gap, s + next);
    WordReads(src, p + |g|, x.word, next);
    assert s == s + [];
    StandsLater(src, p + |g|, s, [], next);
  }

  /** The first of the pieces is read, and the others stand after it. */
  lemma {:induction false} FirstRead(src: Bytes, p: nat, ps: seq<Piece>, tail: Bytes)
    requires Lies(src, p, ps, tail) && ps != []
    ensures p <= |src| && Trivia(src, p) == p + |GapText(ps[0].gap)|
    ensures var q := p + |PieceText(ps[0])|; Lex(src, p) == (TokenFor(ps[0].word), q) && Lies(src, q, ps[1..], tail)
  {
    hide GapOk, WordOk, Ends, PieceText, Lex, Trivia, TokenFor, Stands;
    var s, rest := PieceText(ps[0]), Text(ps[1..]);
    StandsLater(src, p, s, rest, tail);
    PieceRead(src, p, ps[0], rest + tail);
  }

  // ---------------------------------------------------------------- what is left at the end

  /** Nothing but blanks, and perhaps a comment that is never closed. */
  ghost predicate TailOk(t: Bytes) {
    exists g: Gap, body: Bytes :: GapOk(g) && NoClose(body) && (t == GapText(g) || t == GapText(g) + ("/*" + body))
  }

  lemma {:induction false} GapsJoin(g: Gap, h: Gap)
    ensures GapText(g + h) == GapText(g) + GapText(h)
  {
    if g == [] {
      assert g + h == h;
    } else {
      assert (g + h)[1..] == g[1..] + h;
      GapsJoin(g[1..], h);
    }
  }

  /** An unclosed comment runs to the end. */
  lemma {:induction false} OpenRead(src: Bytes, p: nat)
    requires p <= |src| && NoClose(src[p..])
    ensures CommentEnd(src, p) == |src|
    decreases |src| - p
  {
    var t := src[p..];
    if p + 1 < |src| {
      assert t[0] == src[p] && t[1] == src[p + 1] && t[1..] == src[p + 1..];
      NoCloseLater(t);
      OpenRead(src, p + 1);
    }
  }

  lemma {:induction false} OpenSkipped(src: Bytes, p: nat, body: Bytes)
    requires Stands(src, p, [], "/*" + body) && NoClose(body)
    ensures Trivia(src, p) == |src|
  {
    hide NoClose, Stands, CommentEnd, Trivia;
    assert "/*" + body == ['/'] + (['*'] + body);
    StandsIs(src, p, [], "/*" + body);
    assert src[p..] == ['/'] + (['*'] + body);
    assert src[p] == src[p..][0] && src[p + 1] == src[p..][1] && src[p + 2..] == src[p..][2..] == body;
    OpenRead(src, p + 2);
    CommentSkipped(src, p);
    EndTrivia(src);
  }

  lemma {:induction false} EndTrivia(src: Bytes)
    ensures Trivia(src, |src|) == |src|
  {
  }

  lemma {:induction false} TailRead(src: Bytes, p: nat)
    requires p <= |src| && TailOk(src[p..])
    ensures Trivia(src, p) == |src|
  {
    hide Trivia, GapOk, NoClose, GapText;
    var g: Gap, body: Bytes :| GapOk(g) && NoClose(body) && (src[p..] == GapText(g) || src[p..] == GapText(g) + ("/*" + body));
    var next: Bytes := if src[p..] == GapText(g) then [] else "/*" + body;
    assert Stands(src, p, GapText(g), next);
    hide Stands;
    GapsRead(src, p, g, next);
    NextByte(src, p, GapText(g), next);
    if next == [] {
      EndTrivia(src);
    } else {
      StandsRest(src, p, GapText(g), next);
      OpenSkipped(src, p + |GapText(g)|, body);
    }
  }

  lemma {:induction false} StandsRest(src: Bytes, p: nat, s: Bytes, next: Bytes)
    requires Stands(src, p, s, next)
    ensures Stands(src, p + |s|, [], next)
  {
    StandsAt(src, p, s, next);
    assert src[p + |s|..] == [] + next;
  }

  /** Blanks are skipped whatever follows. */
  lemma {:induction false} GapsRead(src: Bytes, p: nat, g: Gap, next: Bytes)
    requires Stands(src, p, GapText(g), next) && GapOk(g)
    ensures p + |GapText(g)| <= |src| && Trivia(src, p) == Trivia(src, p + |GapText(g)|)
    decreases |g|
  {
    hide BlankText, BlankOk, Trivia, Stands;
    if g == [] {
      StandsIs(src, p, [], next);
    } else {
      var b, rest := g[0], GapText(g[1..]);
      assert b in g;
      StandsLater(src, p, BlankText(b), rest, next);
      GapsRead(src, p + |BlankText(b)|, g[1..], next);
      BlankRead(src, p, b, rest + next);
    }
  }

  // ---------------------------------------------------------------- read, so written

  /** A comment's body, if it is closed. */
  lemma {:induction false} CommentOf(src: Bytes, p: nat) returns (closed: bool, body: Bytes)
    requires p <= |src|
    ensures NoClose(body)
    ensures closed ==> src[p..CommentEnd(src, p)] == body + "*/"
    ensures !closed ==> CommentEnd(src, p) == |src| && src[p..] == body
    decreases |src| - p
  {
    if p + 1 < |src| {
      if src[p] == '*' && src[p + 1] == '/' {
        closed, body := true, [];
        assert src[p..p + 2] == "*/";
      } else {
        var rest;
        closed, rest := CommentOf(src, p + 1);
        body := [src[p]] + rest;
        var e := CommentEnd(src, p + 1);
        assert src[p..e] == [src[p]] + src[p + 1..e];
        assert src[p..] == [src[p]] + src[p + 1..];
        CloseLater(src, p, closed, rest);
      }
    } else {
      closed, body := false, src[p..];
    }
  }

  lemma {:induction false} CloseLater(src: Bytes, p: nat, closed: bool, rest: Bytes)
    requires p + 1 < |src| && !(src[p] == '*' && src[p + 1] == '/') && NoClose(rest) && p + 1 <= CommentEnd(src, p + 1) <= |src|
    requires if closed then src[p + 1..CommentEnd(src, p + 1)] == rest + "*/" else src[p + 1..] == rest
    ensures NoClose([src[p]] + rest)
  {
    var body := [src[p]] + rest;
    if rest != [] {
      if closed { assert src[p + 1..CommentEnd(src, p + 1)][0] == (rest + "*/")[0]; } else { assert src[p + 1..][0] == rest[0]; }
      assert rest[0] == src[p + 1];
    }
    forall i | 0 <= i < |body| - 1 ensures !(body[i] == '*' && body[i + 1] == '/') {
      if i > 0 { assert body[i] == rest[i - 1] && body[i + 1] == rest[i]; }
    }
  }

  lemma {:induction false} TailMore(s: Bytes, b: Blank, t: Bytes)
    requires TailOk(t) && BlankOk(b) && s == BlankText(b) + t
    ensures TailOk(s)
  {
    hide BlankOk, NoClose, BlankText;
    var h: Gap, body: Bytes :| GapOk(h) && NoClose(body) && (t == GapText(h) || t == GapText(h) + ("/*" + body));
    var k := [b] + h;
    assert k[1..] == h && k[0] == b;
    if t == GapText(h) {
      assert s == GapText(k);
    } else {
      assert s == GapText(k) + ("/*" + body);
    }
  }

  lemma {:induction false} BlankThen(src: Bytes, p: nat, b: Blank, e: nat, rest: Gap)
    requires p <= e <= |src| && src[p..e] == BlankText(b) && BlankOk(b) && GapOk(rest) && Trivia(src, p) == Trivia(src, e)
    requires Trivia(src, e) < |src| ==> src[e..Trivia(src, e)] == GapText(rest)
    requires Trivia(src, e) == |src| ==> TailOk(src[e..])
    ensures GapOk([b] + rest)
    ensures Trivia(src, p) < |src| ==> src[p..Trivia(src, p)] == GapText([b] + rest)
    ensures Trivia(src, p) == |src| ==> TailOk(src[p..])
  {
    hide Trivia, BlankOk, BlankText, TailOk;
    var q, g := Trivia(src, e), [b] + rest;
    assert g[1..] == rest && g[0] == b;
    if q < |src| {
      assert src[p..q] == src[p..e] + src[e..q];
    } else {
      assert src[p..] == src[p..e] + src[e..];
      TailMore(src[p..], b, src[e..]);
    }
  }

  lemma {:induction false} EmptyTail(t: Bytes)
    requires t == []
    ensures TailOk(t)
  {
    assert t == GapText([]) && GapOk([]) && NoClose([]);
  }

  lemma {:induction false} OpenTail(src: Bytes, p: nat, body: Bytes)
    requires CommentAt(src, p) && NoClose(body) && src[p + 2..] == body && CommentEnd(src, p + 2) == |src|
    ensures Trivia(src, p) == |src| && TailOk(src[p..])
  {
    hide NoClose, CommentEnd;
    CommentSkipped(src, p);
    EndTrivia(src);
    var s := src[p..];
    assert s == "/*" + body;
    assert s == GapText([]) + ("/*" + body) && GapOk([]);
  }

  lemma {:induction false} ClosedText(src: Bytes, p: nat, body: Bytes)
    requires CommentAt(src, p) && src[p + 2..CommentEnd(src, p + 2)] == body + "*/"
    ensures src[p..CommentEnd(src, p + 2)] == BlankText(Comment(body))
  {
    var e := CommentEnd(src, p + 2);
    hide CommentEnd;
    assert src[p..e] == [src[p], src[p + 1]] + src[p + 2..e];
    assert [src[p], src[p + 1]] == "/*";
    assert BlankText(Comment(body)) == "/*" + (body + "*/");
  }

  /** What the scanner skips is blanks and comments, up to a word or to the end. */
  lemma {:induction false} GapOf(src: Bytes, p: nat) returns (g: Gap)
    requires p <= |src|
    ensures GapOk(g)
    ensures Trivia(src, p) < |src| ==> src[p..Trivia(src, p)] == GapText(g)
    ensures Trivia(src, p) == |src| ==> TailOk(src[p..])
    decreases |src| - p
  {
    hide TailOk, CommentEnd, NoClose, GapText;
    g := [];
    if p < |src| && White(src[p]) {
      var rest := GapOf(src, p + 1);
      g := [Space(src[p])] + rest;
      SpaceSkipped(src, p);
      hide Trivia;
      BlankThen(src, p, Space(src[p]), p + 1, rest);
    } else if CommentAt(src, p) {
      var closed, body := CommentOf(src, p + 2);
      CommentSkipped(src, p);
      hide Trivia;
      if closed {
        var e := CommentEnd(src, p + 2);
        var rest := GapOf(src, e);
        g := [Comment(body)] + rest;
        ClosedText(src, p, body);
        BlankThen(src, p, Comment(body), e, rest);
      } else {
        OpenTail(src, p, body);
      }
    } else {
      NoGap(src, p);
    }
  }

  lemma {:induction false} NoGap(src: Bytes, p: nat)
    requires p <= |src| && !(p < |src| && White(src[p])) && !CommentAt(src, p)
    ensures Trivia(src, p) == p && src[p..p] == GapText([]) && (p == |src| ==> TailOk(src[p..]))
  {
    if p == |src| { EmptyTail(src[p..]); }
    hide TailOk;
  }

  // ---------------------------------------------------------------- words read are words written

  /** `w` is what the scanner took between `p` and `q`. */
  ghost predicate IsWord(src: Bytes, p: nat, q: nat, w: Word, tok: Token) {
    p <= q <= |src| && WordOk(w) && TokenFor(w) == tok && WordText(w) == src[p..q] && Ends(w, src[q..])
  }

  lemma {:induction false} Later(src: Bytes, q: nat)
    requires q < |src|
    ensures src[q..] != [] && src[q..][0] == src[q]
  {
  }

  lemma {:induction false} Headed(src: Bytes, p: nat, e: nat)
    requires p < e <= |src|
    ensures src[p..e] == [src[p]] + src[p + 1..e]
  {
  }

  lemma {:induction false} Enclosed(src: Bytes, p: nat, e: nat)
    requires p < e < |src|
    ensures src[p..e + 1] == [src[p]] + src[p + 1..e] + [src[e]]
  {
  }

  lemma {:induction false} HashWord(src: Bytes, p: nat) returns (w: Word)
    requires p < |src| && src[p] == '#'
    ensures IsWord(src, p, LexAt(src, p).1, w, LexAt(src, p).0)
  {
    AtHash(src, p);
    var q := Span(src, p + 1, IsDigit);
    w := RefWord(src[p + 1..q]);
    Headed(src, p, q);
    hide LexAt, Span;
  }

  lemma {:induction false} StringOf(src: Bytes, p: nat)
    requires p <= |src| && StringEnd(src, p) < |src|
    ensures var e := StringEnd(src, p); Paired(src[p..e]) && src[e] == '\'' && (e + 1 < |src| ==> src[e + 1] != '\'')
    decreases |src| - p
  {
    var e := StringEnd(src, p);
    var raw := src[p..e];
    if src[p] != '\'' {
      StringOf(src, p + 1);
      assert raw[1..] == src[p + 1..e];
    } else if p + 1 < |src| && src[p + 1] == '\'' {
      StringOf(src, p + 2);
      assert raw[2..] == src[p + 2..e] && raw[1] == src[p + 1];
    }
  }

  lemma {:induction false} ApostropheWord(src: Bytes, p: nat) returns (w: Word)
    requires p < |src| && src[p] == '\'' && LexAt(src, p).1 < |src|
    ensures IsWord(src, p, LexAt(src, p).1, w, LexAt(src, p).0)
  {
    AtApostrophe(src, p);
    var e := StringEnd(src, p + 1);
    StringOf(src, p + 1);
    w := Quoted(src[p + 1..e]);
    Enclosed(src, p, e);
    hide LexAt, StringEnd, Paired;
  }

  lemma {:induction false} QuoteWord(src: Bytes, p: nat) returns (w: Word)
    requires p < |src| && src[p] == '"' && LexAt(src, p).1 < |src|
    ensures IsWord(src, p, LexAt(src, p).1, w, LexAt(src, p).0)
  {
    AtQuote(src, p);
    var e := Span(src, p + 1, InBinary);
    w := Bits(src[p + 1..e]);
    Enclosed(src, p, e);
    assert '"' !in src[p + 1..e];
    hide LexAt, Span;
  }

  lemma {:induction false} EnumWord(src: Bytes, p: nat) returns (w: Word)
    requires p < |src| && src[p] == '.' && !(p + 1 < |src| && Digit(src[p + 1]))
    ensures IsWord(src, p, LexAt(src, p).1, w, LexAt(src, p).0)
  {
    AtPoint(src, p);
    var e := Span(src, p + 1, InEnum);
    var name, closed := src[p + 1..e], e < |src| && src[e] == '.';
    w := Dotted(name, closed);
    var q := if closed then e + 1 else e;
    Headed(src, p, e);
    if closed { Enclosed(src, p, e); }
    if name != [] { assert name[0] == src[p + 1]; }
    if e < |src| { Later(src, e); }
    hide LexAt, Span;
  }

  /** What is read as a number's figures are figures, and nothing after them goes on. */
  lemma {:induction false} FiguresOf(src: Bytes, p: nat, known: bool)
    requires p <= |src|
    ensures var (e, f) := NumberEnd(src, p, known);
      Figures(src[p..e]) && (f <==> known || RealText(src[p..e])) && Ends(Number(src[p..e]), src[e..])
    decreases |src| - p
  {
    var e := NumberEnd(src, p, known).0;
    if p < |src| && (Digit(src[p]) || src[p] == '.' || Exponent(src[p])) {
      var n: nat := if Exponent(src[p]) && p + 1 < |src| && Sign(src[p + 1]) then 2 else 1;
      NumberStep(src, p, n, known);
      FiguresOf(src, p + n, known || !Digit(src[p]));
      var t := src[p..e];
      assert t[n..] == src[p + n..e] && t[0] == src[p];
      if n == 2 { assert t[1] == src[p + 1]; }
      FiguresMore(src, p, n, e, t);
    } else {
      NumberStops(src, p, known);
      assert src[p..e] == [];
      NoReal();
      if p < |src| { Later(src, p); }
    }
    hide NumberEnd, RealText;
  }

  lemma {:induction false} FiguresMore(src: Bytes, p: nat, n: nat, e: nat, t: Bytes)
    requires p < |src| && p + n <= e <= |src| && t == src[p..e] && t[n..] == src[p + n..e]
    requires Digit(src[p]) || src[p] == '.' || Exponent(src[p])
    requires n == if Exponent(src[p]) && p + 1 < |src| && Sign(src[p + 1]) then 2 else 1
    requires Figures(t[n..]) && Ends(Number(t[n..]), src[e..])
    ensures Figures(t) && Ends(Number(t), src[e..])
    ensures RealText(t) <==> !Digit(t[0]) || RealText(t[n..])
  {
    assert t[0] == src[p];
    if |t| >= 2 { assert t[1] == src[p + 1]; }
    if e < |src| { Later(src, e); }
    if t[n..] != [] { assert t[n..][|t[n..]| - 1] == t[|t| - 1]; }
    RealMore(t, n);
    hide RealText;
  }

  lemma {:induction false} NumberWord(src: Bytes, p: nat) returns (w: Word)
    requires p < |src| && (Sign(src[p]) || Digit(src[p]) || (src[p] == '.' && p + 1 < |src| && Digit(src[p + 1])))
    ensures IsWord(src, p, LexAt(src, p).1, w, LexAt(src, p).0)
  {
    if src[p] == '.' { AtPoint(src, p); } else { AtFigure(src, p); }
    hide LexAt, Figures, RealText;
    w := NumberTaken(src, p);
  }

  lemma {:induction false} NumberTaken(src: Bytes, p: nat) returns (w: Word)
    requires p < |src| && (Sign(src[p]) || Digit(src[p]) || (src[p] == '.' && p + 1 < |src| && Digit(src[p + 1])))
    ensures IsWord(src, p, LexNumber(src, p).1, w, LexNumber(src, p).0)
  {
    hide Figures, RealText, NumberEnd;
    var s := SkipSign(src, p);
    FiguresOf(src, s, false);
    var e := NumberEnd(src, s, false).0;
    var t := src[p..e];
    w := Number(t);
    SignKept(src, p, s, e);
    NumberNonempty(src, s, e);
    assert LexNumber(src, p).1 == e && t == LexNumber(src, p).0.text;
  }

  lemma {:induction false} NumberNonempty(src: Bytes, s: nat, e: nat)
    requires s <= |src| && e == NumberEnd(src, s, false).0
    ensures s < |src| && (Digit(src[s]) || src[s] == '.') ==> e > s
  {
  }

  /** A sign kept in front changes nothing. */
  lemma {:induction false} SignKept(src: Bytes, p: nat, s: nat, e: nat)
    requires p < |src| && p <= s <= e <= |src| && s == (if Sign(src[p]) then p + 1 else p)
    requires Figures(src[s..e]) && Ends(Number(src[s..e]), src[e..])
    requires s == p ==> e > p
    requires s == p ==> Digit(src[p]) || (src[p] == '.' && p + 1 < |src| && Digit(src[p + 1]))
    requires s == p && src[p] == '.' ==> e > p + 1
    ensures NumberOk(src[p..e]) && Ends(Number(src[p..e]), src[e..])
    ensures RealText(src[p..e]) <==> RealText(src[s..e])
  {
    var t := src[p..e];
    if s == p {
      assert t == src[s..e] && t[0] == src[p];
      if |t| >= 2 { assert t[1] == src[p + 1]; }
    } else {
      assert t[1..] == src[s..e] && t[0] == src[p];
      RealSign(t);
      if t[1..] != [] { assert t[1..][|t[1..]| - 1] == t[|t| - 1]; }
    }
    hide RealText, Figures;
  }

  lemma {:induction false} MarkWord(src: Bytes, p: nat) returns (w: Word)
    requires p < |src| && IsMark(src[p])
    ensures IsWord(src, p, LexAt(src, p).1, w, LexAt(src, p).0)
  {
    w := Mark(src[p]);
    assert src[p..p + 1] == [src[p]];
  }

  lemma {:induction false} LetterWord(src: Bytes, p: nat) returns (w: Word)
    requires p < |src| && !Breaks(src[p]) && !Opens(src[p]) && !CommentAt(src, p)
    ensures IsWord(src, p, LexAt(src, p).1, w, LexAt(src, p).0)
  {
    AtLetter(src, p);
    var q := Span(src, p, InKeyword);
    var text := src[p..q];
    w := Keyword(text);
    LetterSpan(src, p);
    assert text[0] == src[p];
    if |text| >= 2 { assert text[1] == src[p + 1]; }
    if q < |src| { Later(src, q); }
    hide LexAt, Span;
  }

  lemma {:induction false} LetterSpan(src: Bytes, p: nat)
    requires p < |src| && !Breaks(src[p])
    ensures Span(src, p, InKeyword) > p
  {
  }

  /** The word at `p`, unless it is a string or a binary that is never closed. */
  lemma {:induction false} WordOf(src: Bytes, p: nat) returns (w: Word)
    requires p < |src| && !White(src[p]) && !CommentAt(src, p)
    requires (src[p] == '\'' || src[p] == '"') ==> LexAt(src, p).1 < |src|
    ensures IsWord(src, p, LexAt(src, p).1, w, LexAt(src, p).0)
  {
    hide LexAt, IsWord, CommentAt;
    if IsMark(src[p]) {
      w := MarkWord(src, p);
    } else if src[p] == '#' {
      w := HashWord(src, p);
    } else if src[p] == '\'' {
      w := ApostropheWord(src, p);
    } else if src[p] == '"' {
      w := QuoteWord(src, p);
    } else if src[p] == '.' && !(p + 1 < |src| && Digit(src[p + 1])) {
      w := EnumWord(src, p);
    } else if src[p] == '.' || Sign(src[p]) || Digit(src[p]) {
      w := NumberWord(src, p);
    } else {
      w := LetterWord(src, p);
    }
  }

  lemma {:induction false} QuoteKinds(src: Bytes, p: nat)
    requires p < |src| && !White(src[p]) && (src[p] == '\'' || src[p] == '"')
    ensures LexAt(src, p).0.kind == TokString || LexAt(src, p).0.kind == TokBinary
  {
    if src[p] == '"' { AtQuote(src, p); } else { AtApostrophe(src, p); }
  }

  /** Whatever the scanner reads, short of a string or a binary cut off by the end, is a piece. */
  lemma {:induction false} PieceOf(src: Bytes, p: nat) returns (x: Piece)
    requires p <= |src| && Lex(src, p).0.kind != TokEOF
    requires Lex(src, p).0.kind == TokString || Lex(src, p).0.kind == TokBinary ==> Lex(src, p).1 < |src|
    ensures var (tok, q) := Lex(src, p);
      && GapOk(x.gap) && WordOk(x.word) && TokenFor(x.word) == tok && src[p..q] == PieceText(x) && Ends(x.word, src[q..])
      && Trivia(src, p) == p + |GapText(x.gap)|
  {
    hide LexAt, TailOk, Trivia, IsWord, GapText, WordText;
    var s, q := Trivia(src, p), Lex(src, p).1;
    LexIs(src, p);
    var g := GapOf(src, p);
    if src[s] == '\'' || src[s] == '"' { QuoteKinds(src, s); }
    var w := WordOf(src, s);
    x := Piece(g, w);
    IsWordMeans(src, s, q, w, Lex(src, p).0);
    assert src[p..q] == src[p..s] + src[s..q];
  }

  lemma {:induction false} LexIs(src: Bytes, p: nat)
    requires p <= |src| && Lex(src, p).0.kind != TokEOF
    ensures var s := Trivia(src, p); p <= s < |src| && !White(src[s]) && !CommentAt(src, s) && Lex(src, p) == LexAt(src, s)
  {
    hide LexAt;
  }

  lemma {:induction false} IsWordMeans(src: Bytes, p: nat, q: nat, w: Word, tok: Token)
    requires IsWord(src, p, q, w, tok)
    ensures p <= q <= |src| && WordOk(w) && TokenFor(w) == tok && WordText(w) == src[p..q] && Ends(w, src[q..])
  {
    hide WordOk, TokenFor, WordText, Ends;
  }
}
