// A STEP file as bytes: the reading accepts exactly the texts that are written as sections of
// well-formed entries, finds what they mean, and says where each instance begins.
module StepWritten {
  import opened Common
  import opened StepLexer
  import opened StepGrammar
  import opened StepWords
  import opened StepScript
  import opened StepForms
  import opened StepDocuments

  // ---------------------------------------------------------------- pieces and their words

  function WordsOf(ps: seq<Piece>): (ws: seq<Word>)
    ensures |ws| == |ps| && forall i :: 0 <= i < |ps| ==> ws[i] == ps[i].word
  {
    seq(|ps|, i requires 0 <= i < |ps| => ps[i].word)
  }

  /** The offset of the `k`th word: the pieces before it, and the blanks in front of it. */
  function PlaceOf(ps: seq<Piece>): nat -> nat {
    (k: nat) => if k < |ps| then |Text(ps[..k])| + |GapText(ps[k].gap)| else 0
  }

  /** A piece that stands at `p` spells its word there. */
  lemma {:induction false} PieceSpelled(src: Bytes, p: nat, x: Piece, next: Bytes)
    requires Stands(src, p, PieceText(x), next) && GapOk(x.gap) && WordOk(x.word) && Ends(x.word, next)
    ensures Spelled(src, p, x.word) && Lex(src, p).1 == p + |PieceText(x)| && Trivia(src, p) == p + |GapText(x.gap)|
  {
    hide Stands, GapText, WordText, GapOk, WordOk, Ends, Lex, Trivia, TokenFor;
    PieceRead(src, p, x, next);
    NextByte(src, p, PieceText(x), next);
    StandsAt(src, p, PieceText(x), next);
    assert src[p..p + |PieceText(x)|] == GapText(x.gap) + WordText(x.word);
  }

  lemma {:induction false} AfterStep(src: Bytes, p: nat, k: nat)
    requires p <= |src| && k > 0
    ensures After(src, p, k) == After(src, Lex(src, p).1, k - 1)
  {
  }

  lemma {:induction false} ScansStep(src: Bytes, p: nat, w: Word, ws: seq<Word>, q: nat)
    requires Spelled(src, p, w) && Lex(src, p).1 == q && Scans(src, q, ws)
    ensures Scans(src, p, [w] + ws)
  {
    hide Lex;
    assert ([w] + ws)[1..] == ws;
  }

  lemma {:induction false} TextStep(ps: seq<Piece>, k: nat)
    requires 0 < k <= |ps|
    ensures ps[1..][k - 1..] == ps[k..] && |Text(ps[..k])| == |PieceText(ps[0])| + |Text(ps[1..][..k - 1])|
  {
    assert ps[..k][1..] == ps[1..][..k - 1];
    hide PieceText;
  }

  /** Pieces that stand at `p` are words in a row, each at its place. */
  lemma {:induction false} PiecesScan(src: Bytes, p: nat, ps: seq<Piece>, tail: Bytes)
    requires Lies(src, p, ps, tail)
    ensures p <= |src| && Scans(src, p, WordsOf(ps)) && After(src, p, |ps|) == p + |Text(ps)| && p + |Text(ps)| <= |src| && src[p + |Text(ps)|..] == tail
    decreases ps
  {
    hide Spelled, Lex, PieceText, GapOk, WordOk, Ends, Trivia, Stands, Scans, After;
    if ps == [] {
      StandsIs(src, p, [], tail);
      assert src[p..] == tail;
      AfterNone(src, p);
      NoWords(src, p);
    } else {
      var x, rest := ps[0], ps[1..];
      var q := p + |PieceText(x)|;
      StandsLater(src, p, PieceText(x), Text(rest), tail);
      PieceSpelled(src, p, x, Text(rest) + tail);
      FirstRead(src, p, ps, tail);
      PiecesScan(src, q, rest, tail);
      assert WordsOf(ps) == [x.word] + WordsOf(rest);
      ScansStep(src, p, x.word, WordsOf(rest), q);
      AfterStep(src, p, |ps|);
    }
  }

  lemma {:induction false} NoWords(src: Bytes, p: nat)
    requires p <= |src|
    ensures Scans(src, p, WordsOf([]))
  {
  }

  lemma {:induction false} LiesLater(src: Bytes, p: nat, ps: seq<Piece>, k: nat, tail: Bytes)
    requires Lies(src, p, ps, tail) && k <= |ps|
    ensures p <= |src| && After(src, p, k) == p + |Text(ps[..k])| && Lies(src, p + |Text(ps[..k])|, ps[k..], tail)
    decreases k
  {
    hide Lex, PieceText, Trivia, Lies, After, Text;
    LiesIn(src, p, ps, tail);
    if k == 0 {
      AfterNone(src, p);
      NoText();
      assert ps[..0] == [] && ps[0..] == ps;
    } else {
      FirstRead(src, p, ps, tail);
      AfterStep(src, p, k);
      LiesLater(src, p + |PieceText(ps[0])|, ps[1..], k - 1, tail);
      TextStep(ps, k);
    }
  }

  lemma {:induction false} NoText()
    ensures Text([]) == []
  {
  }

  lemma {:induction false} LiesIn(src: Bytes, p: nat, ps: seq<Piece>, tail: Bytes)
    requires Lies(src, p, ps, tail)
    ensures p <= |src|
  {
  }

  lemma {:induction false} PlacesAgree(src: Bytes, ps: seq<Piece>, tail: Bytes, k: nat)
    requires Lies(src, 0, ps, tail) && k < |ps|
    ensures PlaceIn(src)(k) == PlaceOf(ps)(k)
  {
    hide Lex, PieceText, GapOk, WordOk, Ends, Stands, Spaced, Lies, Trivia;
    LiesLater(src, 0, ps, k, tail);
    var p := |Text(ps[..k])|;
    FirstRead(src, p, ps[k..], tail);
  }

  // ---------------------------------------------------------------- only places of words count

  predicate SamePlaces(f: nat -> nat, g: nat -> nat, k: nat, n: nat) { forall i: nat :: k <= i < k + n ==> f(i) == g(i) }

  lemma {:induction false} SamePart(f: nat -> nat, g: nat -> nat, k: nat, n: nat, m: nat, l: nat)
    requires SamePlaces(f, g, k, n) && k <= m && m + l <= k + n
    ensures SamePlaces(f, g, m, l)
  {
  }

  lemma {:induction false} EntrySome(e: Entry)
    ensures |EntryWords(e)| > 0
  {
  }

  lemma {:induction false} SameEntries(c: Codec, es: seq<Entry>, f: nat -> nat, g: nat -> nat, k: nat)
    requires SamePlaces(f, g, k, |EntriesWords(es)|)
    ensures EntriesMean(c, es, f, k) == EntriesMean(c, es, g, k)
    decreases es
  {
    hide EntryMean, EntryWords, PlusMaybe, SamePlaces;
    if es != [] {
      var n, m := |EntryWords(es[0])|, |EntriesWords(es[1..])|;
      EntrySome(es[0]);
      SamePart(f, g, k, n + m, k, 1);
      SameFirst(f, g, k, 1);
      SamePart(f, g, k, n + m, k + n, m);
      SameEntries(c, es[1..], f, g, k + n);
    }
  }

  lemma {:induction false} SameFirst(f: nat -> nat, g: nat -> nat, k: nat, n: nat)
    requires SamePlaces(f, g, k, n) && n > 0
    ensures f(k) == g(k)
  {
  }

  lemma {:induction false} SameSection(c: Codec, s: Section, f: nat -> nat, g: nat -> nat, k: nat)
    requires SamePlaces(f, g, k, |SectionWords(s)|)
    ensures SectionMean(c, s, f, k) == SectionMean(c, s, g, k)
  {
    hide EntryMean, EntryWords, SamePlaces, EntriesMean, EntriesWords, Capitals;
    match s
    case Loose(e) =>
      EntrySome(e);
      SameFirst(f, g, k, |EntryWords(e)|);
    case Data(w, es, closing) =>
      SamePart(f, g, k, |SectionWords(s)|, k + 2, |EntriesWords(es)|);
      SameEntries(c, es, f, g, k + 2);
    case _ =>
  }

  lemma {:induction false} SameSections(c: Codec, ss: seq<Section>, f: nat -> nat, g: nat -> nat, k: nat)
    requires SamePlaces(f, g, k, |SectionsWords(ss)|)
    ensures SectionsMean(c, ss, f, k) == SectionsMean(c, ss, g, k)
    decreases ss
  {
    hide SectionMean, SectionWords, PlusMaybe, SamePlaces;
    if ss != [] {
      var n, m := |SectionWords(ss[0])|, |SectionsWords(ss[1..])|;
      SamePart(f, g, k, n + m, k, n);
      SamePart(f, g, k, n + m, k + n, m);
      SameSection(c, ss[0], f, g, k);
      SameSections(c, ss[1..], f, g, k + n);
    }
  }

  // ---------------------------------------------------------------- files

  /** A file's text: pieces whose words are its sections' and perhaps the ending word, and what
      is left after them. Without that word nothing but blanks is left. */
  ghost predicate Written(src: Bytes, ss: seq<Section>, last: Option<Bytes>, ps: seq<Piece>, tail: Bytes) {
    && src == Text(ps) + tail && WordsOf(ps) == SectionsWords(ss) + LastWords(last) && Spaced(ps, tail)
    && match last case None => TailOk(tail) case Some(k) => Capitals(k) == "END-ISO-10303-21"
  }

  /** What it says, when every value of it can be decoded. */
  function Meaning(c: Codec, ss: seq<Section>, ps: seq<Piece>): Option<Content> { SectionsMean(c, ss, PlaceOf(ps), 0) }

  lemma {:induction false} WrittenLies(src: Bytes, ss: seq<Section>, last: Option<Bytes>, ps: seq<Piece>, tail: Bytes)
    requires Written(src, ss, last, ps, tail)
    ensures Lies(src, 0, ps, tail)
  {
    assert src[0..] == Text(ps) + tail;
    hide Spaced, Text;
  }

  lemma {:induction false} WrittenEnds(src: Bytes, ss: seq<Section>, last: Option<Bytes>, ps: seq<Piece>, tail: Bytes)
    requires Written(src, ss, last, ps, tail)
    ensures Scans(src, 0, SectionsWords(ss)) && EndsAt(src, After(src, 0, |SectionsWords(ss)|), last)
    ensures last.Some? ==> Lex(src, After(src, 0, |SectionsWords(ss)|)).1 == |Text(ps)|
  {
    hide Lex, Spelled, Scans, After, Spaced, Text, Capitals, Trivia, Lies;
    WrittenLies(src, ss, last, ps, tail);
    PiecesScan(src, 0, ps, tail);
    ScansJoin(src, 0, SectionsWords(ss), LastWords(last));
    AfterSum(src, 0, |SectionsWords(ss)|, |LastWords(last)|);
    var e := After(src, 0, |SectionsWords(ss)|);
    if last.Some? {
      ScansOne(src, e, Keyword(last.value));
    } else {
      AfterNone(src, e);
      TailRead(src, e);
    }
  }

  /** A written file is read, and what is read is what it means. */
  lemma {:induction false} WrittenIsRead(c: Codec, src: Bytes, ss: seq<Section>, last: Option<Bytes>, ps: seq<Piece>, tail: Bytes)
    requires Written(src, ss, last, ps, tail) && Meaning(c, ss, ps).Some?
    ensures File(c, src) == Ok(Meaning(c, ss, ps).value, if last.Some? then |Text(ps)| else |src|)
  {
    hide Lex, Spelled, Scans, After, Spaced, Text, Capitals, Trivia, Document, EndsAt, SectionsMean, PlaceIn, PlaceOf;
    WrittenLies(src, ss, last, ps, tail);
    WrittenEnds(src, ss, last, ps, tail);
    forall k: nat | k < |ps| ensures PlaceIn(src)(k) == PlaceOf(ps)(k) { PlacesAgree(src, ps, tail, k); }
    assert SamePlaces(PlaceIn(src), PlaceOf(ps), 0, |SectionsWords(ss)|);
    SameSections(c, ss, PlaceIn(src), PlaceOf(ps), 0);
    AfterNone(src, 0);
    ReadDocument(c, src, 0, 0, ss, last);
  }

  /** Words in a row are pieces. */
  lemma {:induction false} ScansPieces(src: Bytes, p: nat, ws: seq<Word>) returns (ps: seq<Piece>)
    requires p <= |src| && Scans(src, p, ws)
    ensures WordsOf(ps) == ws && p <= After(src, p, |ws|) && src[p..After(src, p, |ws|)] == Text(ps) && Spaced(ps, src[After(src, p, |ws|)..])
    decreases ws
  {
    hide Lex, GapOk, WordOk, Ends, PieceText, Spelled;
    if ws == [] {
      ps := [];
    } else {
      var q := Lex(src, p).1;
      var rest := ScansPieces(src, q, ws[1..]);
      var x := SpelledPiece(src, p, ws[0]);
      ps := [x] + rest;
      AfterStep(src, p, |ws|);
      PiecesMore(src, p, q, After(src, q, |ws| - 1), x, rest);
      assert WordsOf(ps) == ws;
    }
  }

  lemma {:induction false} SpelledPiece(src: Bytes, p: nat, w: Word) returns (x: Piece)
    requires Spelled(src, p, w)
    ensures x.word == w && GapOk(x.gap) && WordOk(w) && p <= Lex(src, p).1 && src[p..Lex(src, p).1] == PieceText(x) && Ends(w, src[Lex(src, p).1..])
  {
    LexForward(src, p);
    hide Lex, GapText, WordText, GapOk, WordOk, Ends, Trivia;
    var g: Gap :| GapOk(g) && Trivia(src, p) == p + |GapText(g)| && src[p..Lex(src, p).1] == GapText(g) + WordText(w);
    x := Piece(g, w);
  }

  lemma {:induction false} LexForward(src: Bytes, p: nat)
    requires p <= |src|
    ensures p <= Lex(src, p).1
  {
  }

  lemma {:induction false} PiecesMore(src: Bytes, p: nat, q: nat, e: nat, x: Piece, rest: seq<Piece>)
    requires p <= q <= e <= |src| && src[p..q] == PieceText(x) && src[q..e] == Text(rest) && Spaced(rest, src[e..])
    requires GapOk(x.gap) && WordOk(x.word) && Ends(x.word, src[q..])
    ensures src[p..e] == Text([x] + rest) && Spaced([x] + rest, src[e..])
  {
    hide PieceText, GapOk, WordOk, Ends;
    var ps := [x] + rest;
    assert ps[1..] == rest && ps[0] == x;
    assert src[p..e] == src[p..q] + src[q..e];
    assert src[q..] == src[q..e] + src[e..];
  }

  /** A file that is read is written, and says what was read. */
  lemma {:induction false} ReadIsWritten(c: Codec, src: Bytes) returns (ss: seq<Section>, last: Option<Bytes>, ps: seq<Piece>, tail: Bytes)
    requires File(c, src).Ok?
    ensures Written(src, ss, last, ps, tail) && Meaning(c, ss, ps) == Some(File(c, src).value)
  {
    hide Lex, Spelled, Scans, After, Spaced, Text, Capitals, Trivia, Document, SectionsMean, PlaceIn, PlaceOf, TailOk;
    AfterNone(src, 0);
    ss, last := DocumentOf(c, src, 0, 0);
    ReadDocument(c, src, 0, 0, ss, last);
    ps, tail := EndPieces(src, ss, last);
    WrittenLies(src, ss, last, ps, tail);
    forall k: nat | k < |ps| ensures PlaceIn(src)(k) == PlaceOf(ps)(k) { PlacesAgree(src, ps, tail, k); }
    assert SamePlaces(PlaceIn(src), PlaceOf(ps), 0, |SectionsWords(ss)|);
    SameSections(c, ss, PlaceIn(src), PlaceOf(ps), 0);
  }

  lemma {:induction false} EndPieces(src: Bytes, ss: seq<Section>, last: Option<Bytes>) returns (ps: seq<Piece>, tail: Bytes)
    requires Scans(src, 0, SectionsWords(ss)) && EndsAt(src, After(src, 0, |SectionsWords(ss)|), last)
    ensures Written(src, ss, last, ps, tail)
  {
    hide Lex, Spelled, Scans, After, Spaced, Text, Capitals, Trivia, TailOk, EndsAt, SectionsWords;
    var ws := SectionsWords(ss) + LastWords(last);
    LastScanned(src, ss, last);
    ps := ScansPieces(src, 0, ws);
    var q := After(src, 0, |ws|);
    tail := src[q..];
    assert src == src[0..q] + src[q..];
    EndTail(src, After(src, 0, |SectionsWords(ss)|), last);
  }

  lemma {:induction false} LastScanned(src: Bytes, ss: seq<Section>, last: Option<Bytes>)
    requires Scans(src, 0, SectionsWords(ss)) && EndsAt(src, After(src, 0, |SectionsWords(ss)|), last)
    ensures Scans(src, 0, SectionsWords(ss) + LastWords(last))
    ensures last.None? ==> SectionsWords(ss) + LastWords(last) == SectionsWords(ss)
  {
    hide Lex, Spelled, Scans, After, Capitals, Trivia, SectionsWords;
    if last.Some? {
      ScansOne(src, After(src, 0, |SectionsWords(ss)|), Keyword(last.value));
      ScansJoin(src, 0, SectionsWords(ss), LastWords(last));
    } else {
      assert SectionsWords(ss) + [] == SectionsWords(ss);
    }
  }

  lemma {:induction false} EndTail(src: Bytes, e: nat, last: Option<Bytes>)
    requires EndsAt(src, e, last)
    ensures e <= |src|
    ensures match last case None => TailOk(src[e..]) case Some(k) => Capitals(k) == "END-ISO-10303-21"
  {
    hide Spelled, Capitals, Trivia, TailOk;
    if last.None? { var g := GapOf(src, e); }
  }
}
