// The STEP (ISO 10303-21) scanner: a position-advancing lexer over a byte buffer.
// `Lex` is the reading of one token at a position; `Scanner` is the loop form that
// moves a position in place and is proved to compute exactly that reading.
module StepLexer {

  type Byte = c: char | c as int < 256
  type Bytes = seq<Byte>

  datatype TokenKind =
    | TokEOF | TokLParen | TokRParen | TokComma | TokEquals | TokSemi | TokDollar | TokStar
    | TokRef | TokString | TokEnum | TokBool | TokBinary | TokInt | TokFloat | TokKeyword

  datatype Token = Token(kind: TokenKind, text: Bytes)

  predicate IsSpace(c: Byte) { c == ' ' || c == '\t' || c == '\r' || c == '\n' }

  predicate IsDigit(c: Byte) { '0' <= c <= '9' }

  /** Structural operators and whitespace end an unquoted token. */
  predicate IsDelim(c: Byte) {
    c == '(' || c == ')' || c == '=' || c == ',' || c == ';' || IsSpace(c)
  }

  // Character classes of the runs the scanner advances over.
  predicate InKeyword(c: Byte) { !IsDelim(c) }
  predicate InEnum(c: Byte) { c != '.' && !IsDelim(c) }
  predicate InBinary(c: Byte) { c != '"' }

  /** The end of the maximal run of bytes of class `f` starting at `p`. */
  function Span(src: Bytes, p: nat, f: Byte -> bool): (q: nat)
    requires p <= |src|
    ensures p <= q <= |src|
    ensures forall i :: p <= i < q ==> f(src[i])
    ensures q < |src| ==> !f(src[q])
    decreases |src| - p
  {
    if p < |src| && f(src[p]) then Span(src, p + 1, f) else p
  }

  /** Where a comment whose body starts at `p` ends: past its closing mark, or at end of input. */
  function CommentEnd(src: Bytes, p: nat): (q: nat)
    requires p <= |src|
    ensures p <= q <= |src|
    decreases |src| - p
  {
    if p + 1 < |src| then
      if src[p] == '*' && src[p + 1] == '/' then p + 2 else CommentEnd(src, p + 1)
    else |src|
  }

  predicate CommentAt(src: Bytes, p: nat) {
    p + 1 < |src| && src[p] == '/' && src[p + 1] == '*'
  }

  /** The first position at or after `p` that is neither whitespace nor inside a comment. */
  function Trivia(src: Bytes, p: nat): (q: nat)
    requires p <= |src|
    ensures p <= q <= |src|
    ensures q < |src| ==> !IsSpace(src[q]) && !CommentAt(src, q)
    decreases |src| - p
  {
    if p == |src| then p
    else if IsSpace(src[p]) then Trivia(src, p + 1)
    else if CommentAt(src, p) then Trivia(src, CommentEnd(src, p + 2))
    else p
  }

  /** Where the text of a string literal whose body starts at `p` ends: at its closing
      apostrophe, doubled ones being escapes, or at end of input. */
  function StringEnd(src: Bytes, p: nat): (q: nat)
    requires p <= |src|
    ensures p <= q <= |src|
    ensures q < |src| ==> src[q] == '\''
    decreases |src| - p
  {
    if p == |src| then p
    else if src[p] != '\'' then StringEnd(src, p + 1)
    else if p + 1 < |src| && src[p + 1] == '\'' then StringEnd(src, p + 2)
    else p
  }

  /** The end of a number's digits, points and exponents, and whether it reads as a real. */
  function NumberEnd(src: Bytes, p: nat, isFloat: bool): (r: (nat, bool))
    requires p <= |src|
    ensures p <= r.0 <= |src|
    ensures isFloat ==> r.1
    decreases |src| - p
  {
    if p == |src| then (p, isFloat)
    else if IsDigit(src[p]) then NumberEnd(src, p + 1, isFloat)
    else if src[p] == '.' then NumberEnd(src, p + 1, true)
    else if src[p] == 'e' || src[p] == 'E' then NumberEnd(src, SkipSign(src, p + 1), true)
    else (p, isFloat)
  }

  function SkipSign(src: Bytes, p: nat): (q: nat)
    requires p <= |src|
    ensures p <= q <= |src|
  {
    if p < |src| && (src[p] == '+' || src[p] == '-') then p + 1 else p
  }

  function LexNumber(src: Bytes, p: nat): (r: (Token, nat))
    requires p <= |src|
    ensures p <= r.1 <= |src|
  {
    var (q, isFloat) := NumberEnd(src, SkipSign(src, p), false);
    (Token(if isFloat then TokFloat else TokInt, src[p..q]), q)
  }

  function LexEnum(src: Bytes, p: nat): (r: (Token, nat))
    requires p < |src|
    ensures p < r.1 <= |src|
  {
    var q := Span(src, p + 1, InEnum);
    var name := src[p + 1..q];
    var kind := if name == "T" || name == "F" || name == "U" then TokBool else TokEnum;
    (Token(kind, name), if q < |src| && src[q] == '.' then q + 1 else q)
  }

  /** The kind of a one-byte operator token, or end-of-input for any other byte. */
  function OpKind(c: Byte): TokenKind {
    match c
    case '(' => TokLParen
    case ')' => TokRParen
    case ',' => TokComma
    case '=' => TokEquals
    case ';' => TokSemi
    case '$' => TokDollar
    case '*' => TokStar
    case _ => TokEOF
  }

  /** The token at `p`, which is not trivia, and the position after it. */
  function LexAt(src: Bytes, p: nat): (r: (Token, nat))
    requires p < |src| && !IsSpace(src[p])
    ensures p < r.1 <= |src|
    ensures |r.0.text| <= r.1 - p
    ensures r.0.kind != TokEOF
    ensures src[p] == '#' <==> r.0.kind == TokRef
    ensures r.0.kind == TokRef ==> forall i :: 0 <= i < |r.0.text| ==> IsDigit(r.0.text[i])
  {
    var c := src[p];
    if OpKind(c) != TokEOF then (Token(OpKind(c), src[p..p + 1]), p + 1)
    else if c == '#' then
      var q := Span(src, p + 1, IsDigit); (Token(TokRef, src[p + 1..q]), q)
    else if c == '\'' then
      var q := StringEnd(src, p + 1); (Token(TokString, src[p + 1..q]), if q < |src| then q + 1 else q)
    else if c == '"' then
      var q := Span(src, p + 1, InBinary); (Token(TokBinary, src[p + 1..q]), if q < |src| then q + 1 else q)
    else if c == '.' then
      if p + 1 < |src| && IsDigit(src[p + 1]) then LexNumber(src, p) else LexEnum(src, p)
    else if c == '+' || c == '-' || IsDigit(c) then LexNumber(src, p)
    else
      var q := Span(src, p, InKeyword); (Token(TokKeyword, src[p..q]), q)
  }

  /** The next token at or after `p`, and the position after it. */
  function Lex(src: Bytes, p: nat): (r: (Token, nat))
    requires p <= |src|
    ensures p <= r.1 <= |src|
    ensures r.0.kind == TokEOF <==> Trivia(src, p) == |src|
    ensures r.0.kind != TokEOF ==> p < r.1 && |r.0.text| <= r.1 - p
  {
    var q := Trivia(src, p);
    if q == |src| then (Token(TokEOF, []), q) else LexAt(src, q)
  }

  // ---------------------------------------------------------------- properties

  lemma {:induction false} TriviaIdempotent(src: Bytes, p: nat)
    requires p <= |src|
    ensures Trivia(src, Trivia(src, p)) == Trivia(src, p)
  {
  }

  /** A scanner that has already skipped trivia reads the same token: cutting the
      input where trivia ends is invisible to the token stream. */
  lemma {:induction false} LexAfterTrivia(src: Bytes, p: nat)
    requires p <= |src|
    ensures Lex(src, Trivia(src, p)) == Lex(src, p)
  {
    TriviaIdempotent(src, p);
  }

  /** A byte that is neither whitespace nor a comment opener is its own trivia end. */
  lemma {:induction false} TriviaFixed(src: Bytes, p: nat)
    requires p < |src| && !IsSpace(src[p]) && !CommentAt(src, p)
    ensures Trivia(src, p) == p
  {
  }

  // ---------------------------------------------------------------- the scanner

  class Scanner {
    const src: Bytes
    var pos: nat

    ghost predicate Valid()
      reads this
    {
      pos <= |src|
    }

    constructor (src: Bytes)
      ensures Valid() && this.src == src && pos == 0
    {
      this.src := src;
      pos := 0;
    }

    method SkipTrivia()
      requires Valid()
      modifies this
      ensures Valid() && pos == Trivia(src, old(pos))
    {
      while pos < |src|
        invariant pos <= |src|
        invariant Trivia(src, pos) == Trivia(src, old(pos))
        decreases |src| - pos
      {
        if IsSpace(src[pos]) {
          pos := pos + 1;
        } else if src[pos] == '/' && pos + 1 < |src| && src[pos + 1] == '*' {
          ghost var open := pos;
          pos := pos + 2;
          while pos + 1 < |src| && (src[pos] != '*' || src[pos + 1] != '/')
            invariant open + 2 <= pos <= |src|
            invariant CommentEnd(src, pos) == CommentEnd(src, open + 2)
            decreases |src| - pos
          {
            pos := pos + 1;
          }
          if pos + 1 < |src| {
            pos := pos + 2;
          } else {
            pos := |src|;
          }
        } else {
          return;
        }
      }
    }

    method Advance(f: Byte -> bool)
      requires Valid()
      modifies this
      ensures Valid() && pos == Span(src, old(pos), f)
    {
      while pos < |src| && f(src[pos])
        invariant pos <= |src|
        invariant Span(src, pos, f) == Span(src, old(pos), f)
      {
        pos := pos + 1;
      }
    }

    method ScanString() returns (tok: Token)
      requires Valid() && pos < |src|
      modifies this
      ensures Valid()
      ensures var q := StringEnd(src, old(pos) + 1);
        tok == Token(TokString, src[old(pos) + 1..q]) && pos == if q < |src| then q + 1 else q
    {
      pos := pos + 1;
      var start := pos;
      while pos < |src|
        invariant start <= pos <= |src|
        invariant StringEnd(src, pos) == StringEnd(src, start)
        decreases |src| - pos
      {
        if src[pos] == '\'' {
          if pos + 1 < |src| && src[pos + 1] == '\'' {
            pos := pos + 2;
          } else {
            tok := Token(TokString, src[start..pos]);
            pos := pos + 1;
            return;
          }
        } else {
          pos := pos + 1;
        }
      }
      tok := Token(TokString, src[start..pos]);
    }

    method ScanBinary() returns (tok: Token)
      requires Valid() && pos < |src|
      modifies this
      ensures Valid()
      ensures var q := Span(src, old(pos) + 1, InBinary);
        tok == Token(TokBinary, src[old(pos) + 1..q]) && pos == if q < |src| then q + 1 else q
    {
      pos := pos + 1;
      var start := pos;
      Advance(InBinary);
      tok := Token(TokBinary, src[start..pos]);
      if pos < |src| {
        pos := pos + 1;
      }
    }

    method ScanEnum() returns (tok: Token)
      requires Valid() && pos < |src|
      modifies this
      ensures Valid() && (tok, pos) == LexEnum(src, old(pos))
    {
      pos := pos + 1;
      var start := pos;
      Advance(InEnum);
      var name := src[start..pos];
      if pos < |src| && src[pos] == '.' {
        pos := pos + 1;
      }
      if |name| == 1 && (name[0] == 'T' || name[0] == 'F' || name[0] == 'U') {
        tok := Token(TokBool, name);
      } else {
        tok := Token(TokEnum, name);
      }
    }

    method ScanNumber() returns (tok: Token)
      requires Valid() && pos < |src|
      modifies this
      ensures Valid() && (tok, pos) == LexNumber(src, old(pos))
    {
      var start := pos;
      if src[pos] == '+' || src[pos] == '-' {
        pos := pos + 1;
      }
      var isFloat, more := false, true;
      while more && pos < |src|
        invariant start <= pos <= |src|
        invariant more ==> NumberEnd(src, pos, isFloat) == NumberEnd(src, SkipSign(src, start), false)
        invariant !more ==> (pos, isFloat) == NumberEnd(src, SkipSign(src, start), false)
        decreases more, |src| - pos
      {
        var c := src[pos];
        if IsDigit(c) {
          pos := pos + 1;
        } else if c == '.' {
          isFloat := true;
          pos := pos + 1;
        } else if c == 'e' || c == 'E' {
          isFloat := true;
          pos := pos + 1;
          if pos < |src| && (src[pos] == '+' || src[pos] == '-') {
            pos := pos + 1;
          }
        } else {
          more := false;
        }
      }
      tok := Token(if isFloat then TokFloat else TokInt, src[start..pos]);
    }

    /** The next token, or end of input for ever after. */
    method Next() returns (tok: Token)
      requires Valid()
      modifies this
      ensures Valid() && (tok, pos) == Lex(src, old(pos))
    {
      SkipTrivia();
      if pos >= |src| {
        return Token(TokEOF, []);
      }
      var c, start := src[pos], pos;
      if OpKind(c) != TokEOF {
        tok := Token(OpKind(c), src[pos..pos + 1]);
        pos := pos + 1;
      } else if c == '#' {
        pos := pos + 1;
        Advance(IsDigit);
        tok := Token(TokRef, src[start + 1..pos]);
      } else if c == '\'' {
        tok := ScanString();
      } else if c == '"' {
        tok := ScanBinary();
      } else if c == '.' {
        if pos + 1 < |src| && IsDigit(src[pos + 1]) {
          tok := ScanNumber();
        } else {
          tok := ScanEnum();
        }
      } else if c == '+' || c == '-' || IsDigit(c) {
        tok := ScanNumber();
      } else {
        Advance(InKeyword);
        tok := Token(TokKeyword, src[start..pos]);
      }
    }
  }
}
