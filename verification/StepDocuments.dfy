// A whole STEP file as it is written: instances, header lines, sections. The reading accepts
// exactly what is so written, and finds what it means.
module StepDocuments {
  import opened Common
  import opened StepLexer
  import opened StepGrammar
  import opened StepWords
  import opened StepScript
  import opened StepForms

  // ---------------------------------------------------------------- what is written

  /** One part of a complex instance. */
  datatype Part = Part(keyword: Bytes, items: seq<Form>)

  /** A stray semicolon, an instance, or a complex instance. */
  datatype Entry = Stray | Simple(id: Bytes, keyword: Bytes, items: seq<Form>) | Complex(id: Bytes, parts: seq<Part>)

  /** An entry outside the DATA section, a section's mark, a header line, or the DATA section. */
  datatype Section =
    | Loose(entry: Entry) | Banner(keyword: Bytes) | HeaderLine(keyword: Bytes, items: seq<Form>)
    | Data(keyword: Bytes, entries: seq<Entry>, closing: Bytes)

  const EQUALS := Mark('=')

  function PartWords(x: Part): seq<Word> { [Keyword(x.keyword), OPEN] + (AllWords(x.items) + [CLOSE]) }

  function PartsWords(xs: seq<Part>): seq<Word> { if xs == [] then [] else PartWords(xs[0]) + PartsWords(xs[1..]) }

  function EntryWords(e: Entry): seq<Word> {
    match e
    case Stray => [SEMI]
    case Simple(id, k, items) => [RefWord(id), EQUALS, Keyword(k), OPEN] + (AllWords(items) + [CLOSE]) + [SEMI]
    case Complex(id, parts) => [RefWord(id), EQUALS, OPEN] + (PartsWords(parts) + [CLOSE]) + [SEMI]
  }

  function EntriesWords(es: seq<Entry>): seq<Word> { if es == [] then [] else EntryWords(es[0]) + EntriesWords(es[1..]) }

  function SectionWords(s: Section): seq<Word> {
    match s
    case Loose(e) => EntryWords(e)
    case Banner(k) => [Keyword(k)]
    case HeaderLine(k, items) => [Keyword(k), OPEN] + (AllWords(items) + [CLOSE]) + [SEMI]
    case Data(k, entries, closing) => [Keyword(k), SEMI] + (EntriesWords(entries) + [Keyword(closing)])
  }

  function SectionsWords(ss: seq<Section>): seq<Word> { if ss == [] then [] else SectionWords(ss[0]) + SectionsWords(ss[1..]) }

  /** The word that ends a file early, if there is one. */
  function LastWords(last: Option<Bytes>): seq<Word> { match last case None => [] case Some(k) => [Keyword(k)] }

  // ---------------------------------------------------------------- what it means

  function Capital(b: Byte): Byte {
    if 'a' <= b <= 'z' then 'A' + (b - 'a') else b
  }

  function Capitals(s: Bytes): (r: Bytes)
    ensures |r| == |s|
  {
    seq(|s|, i requires 0 <= i < |s| => Capital(s[i]))
  }

  const EMPTY := Content([], [], map[], [])

  /** One stretch's content and the next's; of two complex instances of one id the later counts. */
  function Sum(a: Content, b: Content): Content {
    Content(a.header + b.header, a.insts + b.insts, a.complex + b.complex, a.starts + b.starts)
  }

  function PlusMaybe(a: Option<Content>, b: Option<Content>): Option<Content> {
    if a.Some? && b.Some? then Some(Sum(a.value, b.value)) else None
  }

  /** The parts' types, and their attributes one after the other. */
  function PartsMean(c: Codec, xs: seq<Part>): Option<(seq<Bytes>, seq<Tree>)> {
    if xs == [] then Some(([], []))
    else
      match Values(c, xs[0].items)
      case None => None
      case Some(ts) =>
        match PartsMean(c, xs[1..])
        case None => None
        case Some((names, us)) => Some(([Capitals(xs[0].keyword)] + names, ts + us))
  }

  /** An entry whose first word stands at the offset `at`. */
  function EntryMean(c: Codec, e: Entry, at: nat): Option<Content> {
    match e
    case Stray => Some(EMPTY)
    case Simple(d, k, items) =>
      (match IdOf(d)
       case None => None
       case Some(id) =>
         match Values(c, items)
         case None => None
         case Some(ts) => Some(Content([], [Record(id, Capitals(k), ts)], map[], [at])))
    case Complex(d, parts) =>
      match IdOf(d)
      case None => None
      case Some(id) =>
        match PartsMean(c, parts)
        case None => None
        case Some((names, ts)) =>
          if names == [] then None
          else Some(Content([], [Record(id, names[0], ts)], if |names| >= 2 then map[id := names] else map[], [at]))
  }

  /** Entries from the `k`th word of the file on, `place` giving the words' offsets. */
  function EntriesMean(c: Codec, es: seq<Entry>, place: nat -> nat, k: nat): Option<Content> {
    if es == [] then Some(EMPTY)
    else PlusMaybe(EntryMean(c, es[0], place(k)), EntriesMean(c, es[1..], place, k + |EntryWords(es[0])|))
  }

  predicate BannerName(k: Bytes) { k == "ISO-10303-21" || k == "HEADER" || k == "ENDSEC" }

  function SectionMean(c: Codec, s: Section, place: nat -> nat, k: nat): Option<Content> {
    match s
    case Loose(e) => EntryMean(c, e, place(k))
    case Banner(w) => if BannerName(Capitals(w)) then Some(EMPTY) else None
    case HeaderLine(w, items) =>
      var name := Capitals(w);
      if BannerName(name) || name == "DATA" || name == "END-ISO-10303-21" then None
      else (match Values(c, items) case None => None case Some(ts) => Some(Content([HeaderRecord(name, ts)], [], map[], [])))
    case Data(w, entries, closing) =>
      if Capitals(w) == "DATA" && Capitals(closing) == "ENDSEC" then EntriesMean(c, entries, place, k + 2) else None
  }

  function SectionsMean(c: Codec, ss: seq<Section>, place: nat -> nat, k: nat): Option<Content> {
    if ss == [] then Some(EMPTY)
    else PlusMaybe(SectionMean(c, ss[0], place, k), SectionsMean(c, ss[1..], place, k + |SectionWords(ss[0])|))
  }

  // ---------------------------------------------------------------- small agreements

  lemma {:induction false} CapitalsUpper(s: Bytes)
    ensures Capitals(s) == Upper(s)
  {
  }

  lemma {:induction false} SumIsJoin(a: Content, b: Content)
    ensures Sum(a, b) == Join(a, b)
  {
  }

  /** Three or four words at the head of something. */
  lemma {:induction false} HeadWord(src: Bytes, p: nat, w: Word, rest: seq<Word>)
    requires p <= |src|
    ensures Scans(src, p, [w] + rest) <==> Spelled(src, p, w) && Scans(src, Lex(src, p).1, rest)
    ensures After(src, p, |[w] + rest|) == After(src, Lex(src, p).1, |rest|)
  {
    ScansJoin(src, p, [w], rest);
    ScansOne(src, p, w);
    AfterSum(src, p, 1, |rest|);
    hide Lex, Spelled, Scans;
  }

  // ---------------------------------------------------------------- argument lists and semicolons

  /** A keyword and its arguments stand at `p`, read to `e`. */
  ghost predicate Headed(c: Codec, src: Bytes, p: nat, k: Bytes, items: seq<Form>, e: nat) {
    && p <= |src| && Scans(src, p, [Keyword(k), OPEN] + (AllWords(items) + [CLOSE])) && Values(c, items).Some?
    && e == After(src, p, |AllWords(items)| + 3)
  }

  /** ... as the recursive descent reads it. */
  ghost predicate HeadedRead(c: Codec, src: Bytes, p: nat, k: Bytes, ts: seq<Tree>, e: nat) {
    && p <= |src| && e <= |src|
    && Lex(src, p).0 == Token(TokKeyword, k) && Lex(src, Lex(src, p).1).0.kind.TokLParen?
    && Args(c, src, Lex(src, Lex(src, p).1).1) == Ok(ts, e)
  }

  lemma {:induction false} ReadHeaded(c: Codec, src: Bytes, p: nat, k: Bytes, items: seq<Form>, e: nat)
    requires Headed(c, src, p, k, items, e)
    ensures HeadedRead(c, src, p, k, Values(c, items).value, e)
  {
    hide Lex, Args, Spelled, Scans, After;
    var q := Lex(src, p).1;
    var ws := AllWords(items) + [CLOSE];
    assert [Keyword(k), OPEN] + ws == [Keyword(k)] + ([OPEN] + ws);
    HeadWord(src, p, Keyword(k), [OPEN] + ws);
    HeadWord(src, q, OPEN, ws);
    SpelledToken(src, p, Keyword(k));
    SpelledToken(src, q, OPEN);
    ReadArgs(c, src, Lex(src, q).1, items);
  }

  lemma {:induction false} HeadedOf(c: Codec, src: Bytes, p: nat, k: Bytes, ts: seq<Tree>, e: nat) returns (items: seq<Form>)
    requires HeadedRead(c, src, p, k, ts, e)
    ensures Headed(c, src, p, k, items, e) && Values(c, items) == Some(ts)
  {
    hide Lex, Args, Spelled, Scans, After;
    var q := Lex(src, p).1;
    var w := SpelledWord(src, p);
    MarkOf(src, p, w);
    var u := SpelledWord(src, q);
    MarkOf(src, q, u);
    items := FormsOf(c, src, Lex(src, q).1);
    var ws := AllWords(items) + [CLOSE];
    assert [Keyword(k), OPEN] + ws == [Keyword(k)] + ([OPEN] + ws);
    HeadWord(src, q, OPEN, ws);
    HeadWord(src, p, Keyword(k), [OPEN] + ws);
  }

  lemma {:induction false} ReadSemi(src: Bytes, p: nat)
    requires p <= |src|
    ensures Scans(src, p, [SEMI]) ==> Semi(src, p) == Ok((), After(src, p, 1))
    ensures Semi(src, p).Ok? ==> Scans(src, p, [SEMI]) && Semi(src, p).pos == After(src, p, 1)
  {
    hide Lex, Spelled, Scans;
    ScansOne(src, p, SEMI);
    if Spelled(src, p, SEMI) { SpelledToken(src, p, SEMI); }
    if Semi(src, p).Ok? {
      var w := SpelledWord(src, p);
      MarkOf(src, p, w);
    }
  }

  // ---------------------------------------------------------------- parts

  lemma {:induction false} PartStep(c: Codec, src: Bytes, p: nat, k: Bytes, ts: seq<Tree>, e: nat)
    requires HeadedRead(c, src, p, k, ts, e)
    ensures Parts(c, src, p) ==
      match Parts(c, src, e)
      case Err(e2) => Err(e2)
      case Ok(rest, e2) => Ok(([Upper(k)] + rest.0, ts + rest.1), e2)
  {
    hide Lex, Args;
  }

  lemma {:induction false} NoPart(c: Codec, src: Bytes, p: nat)
    requires p <= |src| && Lex(src, p).0.kind.TokRParen?
    ensures Parts(c, src, p) == Ok(([], []), Lex(src, p).1)
  {
    hide Lex, Args;
  }

  lemma {:induction false} ReadParts(c: Codec, src: Bytes, p: nat, xs: seq<Part>)
    requires p <= |src| && Scans(src, p, PartsWords(xs) + [CLOSE]) && PartsMean(c, xs).Some?
    ensures Parts(c, src, p) == Ok(PartsMean(c, xs).value, After(src, p, |PartsWords(xs)| + 1))
    decreases xs
  {
    hide Lex, Args, Spelled, Scans, After, Parts, HeadedRead, AllWords, Values;
    if xs == [] {
      assert PartsWords(xs) + [CLOSE] == [CLOSE];
      ScansOne(src, p, CLOSE);
      SpelledToken(src, p, CLOSE);
      NoPart(c, src, p);
    } else {
      var x, rest := xs[0], xs[1..];
      assert PartsWords(xs) + [CLOSE] == PartWords(x) + (PartsWords(rest) + [CLOSE]);
      ScansJoin(src, p, PartWords(x), PartsWords(rest) + [CLOSE]);
      var e := After(src, p, |PartWords(x)|);
      ReadHeaded(c, src, p, x.keyword, x.items, e);
      ReadParts(c, src, e, rest);
      AfterSum(src, p, |PartWords(x)|, |PartsWords(rest)| + 1);
      PartStep(c, src, p, x.keyword, Values(c, x.items).value, e);
      CapitalsUpper(x.keyword);
    }
  }

  lemma {:induction false} PartsUnfold(c: Codec, src: Bytes, p: nat) returns (k: Bytes, ts: seq<Tree>, e: nat)
    requires p <= |src| && Parts(c, src, p).Ok? && !Lex(src, p).0.kind.TokRParen?
    ensures HeadedRead(c, src, p, k, ts, e) && p < e && Parts(c, src, e).Ok?
  {
    var (tok, q) := Lex(src, p);
    k := tok.text;
    LexProgress(src, p);
    var r := Args(c, src, Lex(src, q).1);
    ts, e := r.value, r.pos;
    hide Lex, Args;
  }

  lemma {:induction false} LexProgress(src: Bytes, p: nat)
    requires p <= |src| && Lex(src, p).0.kind != TokEOF
    ensures p < Lex(src, p).1 <= |src|
  {
  }

  lemma {:induction false} PartsOf(c: Codec, src: Bytes, p: nat) returns (xs: seq<Part>)
    requires p <= |src| && Parts(c, src, p).Ok?
    ensures Scans(src, p, PartsWords(xs) + [CLOSE]) && PartsMean(c, xs) == Some(Parts(c, src, p).value)
    ensures Parts(c, src, p).pos == After(src, p, |PartsWords(xs)| + 1)
    decreases |src| - p
  {
    hide Lex, Args, Spelled, Scans, After, Parts, HeadedRead, AllWords, Values;
    if Lex(src, p).0.kind.TokRParen? {
      xs := [];
      var w := SpelledWord(src, p);
      MarkOf(src, p, w);
      assert PartsWords(xs) + [CLOSE] == [CLOSE];
      ScansOne(src, p, CLOSE);
      NoPart(c, src, p);
    } else {
      var k, ts, e := PartsUnfold(c, src, p);
      var items := HeadedOf(c, src, p, k, ts, e);
      HeadedEnd(c, src, p, k, ts, e);
      var rest := PartsOf(c, src, e);
      var x := Part(k, items);
      xs := [x] + rest;
      assert xs[1..] == rest && PartsWords(xs) + [CLOSE] == PartWords(x) + (PartsWords(rest) + [CLOSE]);
      ScansJoin(src, p, PartWords(x), PartsWords(rest) + [CLOSE]);
      AfterSum(src, p, |PartWords(x)|, |PartsWords(rest)| + 1);
      PartStep(c, src, p, k, ts, e);
      CapitalsUpper(k);
    }
  }

  lemma {:induction false} HeadedEnd(c: Codec, src: Bytes, p: nat, k: Bytes, ts: seq<Tree>, e: nat)
    requires HeadedRead(c, src, p, k, ts, e)
    ensures e <= |src|
  {
  }

  // ---------------------------------------------------------------- instances

  /** An instance is read from its reference on. */
  ghost predicate InstanceRead(c: Codec, src: Bytes, p: nat, x: Content, e: nat) {
    && p <= |src| && e <= |src| && Lex(src, p).0.kind.TokRef?
    && Instance(c, src, Trivia(src, p), Lex(src, p).0, Lex(src, p).1) == Ok(x, e)
  }

  lemma {:induction false} SimpleStep(c: Codec, src: Bytes, p: nat, at: nat, ref: Token, q: nat, k: Bytes, ts: seq<Tree>, e: nat)
    requires p <= |src| && q <= |src| && Uint32(ref.text).Some? && Lex(src, p).0.kind.TokEquals? && q == Lex(src, p).1
    requires HeadedRead(c, src, q, k, ts, e)
    ensures Instance(c, src, at, ref, p) ==
      match Semi(src, e)
      case Err(e2) => Err(e2)
      case Ok(_, e2) => Ok(OneRecord(at, Uint32(ref.text).value, Upper(k), ts, []), e2)
  {
    hide Lex, Args, Semi, OneRecord, Uint32;
  }

  lemma {:induction false} ComplexStep(c: Codec, src: Bytes, p: nat, at: nat, ref: Token, q: nat, q2: nat, names: seq<Bytes>, ts: seq<Tree>, e: nat)
    requires p <= |src| && q <= |src| && q2 <= |src| && e <= |src| && Uint32(ref.text).Some? && Lex(src, p).0.kind.TokEquals? && q == Lex(src, p).1
    requires Lex(src, q).0.kind.TokLParen? && q2 == Lex(src, q).1 && Parts(c, src, q2) == Ok((names, ts), e) && names != []
    ensures Instance(c, src, at, ref, p) ==
      match Semi(src, e)
      case Err(e2) => Err(e2)
      case Ok(_, e2) => Ok(OneRecord(at, Uint32(ref.text).value, names[0], ts, names), e2)
  {
    hide Lex, Parts, Semi, OneRecord, Uint32;
  }

  lemma {:induction false} ReadSimple(c: Codec, src: Bytes, p: nat, d: Bytes, k: Bytes, items: seq<Form>)
    requires var e := Simple(d, k, items); p <= |src| && Scans(src, p, EntryWords(e)) && EntryMean(c, e, Trivia(src, p)).Some?
    ensures var e := Simple(d, k, items); InstanceRead(c, src, p, EntryMean(c, e, Trivia(src, p)).value, After(src, p, |EntryWords(e)|))
  {
    hide Lex, Args, Spelled, Scans, After, HeadedRead, Semi, Instance, Trivia;
    var e := Simple(d, k, items);
    var head := [Keyword(k), OPEN] + (AllWords(items) + [CLOSE]);
    assert EntryWords(e) == [RefWord(d)] + ([EQUALS] + (head + [SEMI]));
    var q := Lex(src, p).1;
    HeadWord(src, p, RefWord(d), [EQUALS] + (head + [SEMI]));
    HeadWord(src, q, EQUALS, head + [SEMI]);
    SpelledToken(src, p, RefWord(d));
    SpelledToken(src, q, EQUALS);
    var q2 := Lex(src, q).1;
    ScansJoin(src, q2, head, [SEMI]);
    var r := After(src, q2, |head|);
    ReadHeaded(c, src, q2, k, items, r);
    ReadSemi(src, r);
    AfterSum(src, q2, |head|, 1);
    IdIsUint32(d);
    SimpleStep(c, src, q, Trivia(src, p), Lex(src, p).0, q2, k, Values(c, items).value, r);
    CapitalsUpper(k);
    OneSimple(Trivia(src, p), IdOf(d).value, Upper(k), Values(c, items).value);
  }

  lemma {:induction false} OneSimple(at: nat, id: nat, typ: Bytes, ts: seq<Tree>)
    ensures OneRecord(at, id, typ, ts, []) == Content([], [Record(id, typ, ts)], map[], [at])
  {
  }

  lemma {:induction false} ReadComplex(c: Codec, src: Bytes, p: nat, d: Bytes, parts: seq<Part>)
    requires var e := Complex(d, parts); p <= |src| && Scans(src, p, EntryWords(e)) && EntryMean(c, e, Trivia(src, p)).Some?
    ensures var e := Complex(d, parts); InstanceRead(c, src, p, EntryMean(c, e, Trivia(src, p)).value, After(src, p, |EntryWords(e)|))
  {
    hide Lex, Parts, Spelled, Scans, After, Semi, Instance, Trivia, PartsMean;
    var e := Complex(d, parts);
    var body := PartsWords(parts) + [CLOSE];
    assert EntryWords(e) == [RefWord(d)] + ([EQUALS] + ([OPEN] + (body + [SEMI])));
    var q := Lex(src, p).1;
    var q2 := Lex(src, q).1;
    var q3 := Lex(src, q2).1;
    HeadWord(src, p, RefWord(d), [EQUALS] + ([OPEN] + (body + [SEMI])));
    HeadWord(src, q, EQUALS, [OPEN] + (body + [SEMI]));
    HeadWord(src, q2, OPEN, body + [SEMI]);
    SpelledToken(src, p, RefWord(d));
    SpelledToken(src, q, EQUALS);
    SpelledToken(src, q2, OPEN);
    ScansJoin(src, q3, body, [SEMI]);
    var r := After(src, q3, |body|);
    ReadParts(c, src, q3, parts);
    ReadSemi(src, r);
    AfterSum(src, q3, |body|, 1);
    IdIsUint32(d);
    var (names, ts) := PartsMean(c, parts).value;
    ComplexStep(c, src, q, Trivia(src, p), Lex(src, p).0, q2, q3, names, ts, r);
  }

  lemma {:induction false} ReadInstance(c: Codec, src: Bytes, p: nat, e: Entry)
    requires p <= |src| && !e.Stray? && Scans(src, p, EntryWords(e)) && EntryMean(c, e, Trivia(src, p)).Some?
    ensures InstanceRead(c, src, p, EntryMean(c, e, Trivia(src, p)).value, After(src, p, |EntryWords(e)|))
  {
    hide Lex, Scans, EntryWords, EntryMean, InstanceRead, Trivia;
    match e
    case Simple(d, k, items) => ReadSimple(c, src, p, d, k, items);
    case Complex(d, parts) => ReadComplex(c, src, p, d, parts);
    case Stray =>
  }

  /** What follows the reference of an instance that is read. */
  lemma {:induction false} InstanceUnfold(c: Codec, src: Bytes, at: nat, ref: Token, p: nat)
    requires p <= |src| && Instance(c, src, at, ref, p).Ok?
    ensures Uint32(ref.text).Some? && Lex(src, p).0.kind.TokEquals?
    ensures var q := Lex(src, p).1;
      && (Lex(src, q).0.kind.TokKeyword? || Lex(src, q).0.kind.TokLParen?)
      && (Lex(src, q).0.kind.TokKeyword? ==>
        var r := Args(c, src, Lex(src, Lex(src, q).1).1);
        r.Ok? && HeadedRead(c, src, q, Lex(src, q).0.text, r.value, r.pos) && Semi(src, r.pos).Ok?)
      && (Lex(src, q).0.kind.TokLParen? ==>
        var r := Parts(c, src, Lex(src, q).1); r.Ok? && r.pos <= |src| && r.value.0 != [] && Semi(src, r.pos).Ok?)
  {
    hide Lex, Args, Parts, Semi, Uint32, OneRecord;
  }

  lemma {:induction false} SimpleOf(c: Codec, src: Bytes, p: nat, x: Content, e: nat) returns (en: Entry)
    requires InstanceRead(c, src, p, x, e) && Lex(src, Lex(src, Lex(src, p).1).1).0.kind.TokKeyword?
    ensures en.Simple? && Scans(src, p, EntryWords(en)) && EntryMean(c, en, Trivia(src, p)).Some?
  {
    hide Lex, Args, Parts, Spelled, Scans, After, HeadedRead, Semi, Instance, Trivia;
    var ref, q := Lex(src, p).0, Lex(src, p).1;
    InstanceUnfold(c, src, Trivia(src, p), ref, q);
    var q2 := Lex(src, q).1;
    var k, r := Lex(src, q2).0.text, Args(c, src, Lex(src, Lex(src, q2).1).1);
    var items := HeadedOf(c, src, q2, k, r.value, r.pos);
    en := Simple(ref.text, k, items);
    var head := [Keyword(k), OPEN] + (AllWords(items) + [CLOSE]);
    ReadSemi(src, r.pos);
    ScansJoin(src, q2, head, [SEMI]);
    var w := SpelledWord(src, p);
    MarkOf(src, p, w);
    var u := SpelledWord(src, q);
    MarkOf(src, q, u);
    HeadWord(src, q, EQUALS, head + [SEMI]);
    HeadWord(src, p, RefWord(ref.text), [EQUALS] + (head + [SEMI]));
    assert EntryWords(en) == [RefWord(ref.text)] + ([EQUALS] + (head + [SEMI]));
    IdIsUint32(ref.text);
  }

  lemma {:induction false} ComplexOf(c: Codec, src: Bytes, p: nat, x: Content, e: nat) returns (en: Entry)
    requires InstanceRead(c, src, p, x, e) && Lex(src, Lex(src, Lex(src, p).1).1).0.kind.TokLParen?
    ensures en.Complex? && Scans(src, p, EntryWords(en)) && EntryMean(c, en, Trivia(src, p)).Some?
  {
    hide Lex, Args, Parts, Spelled, Scans, After, HeadedRead, Semi, Instance, Trivia, PartsMean;
    var ref, q := Lex(src, p).0, Lex(src, p).1;
    InstanceUnfold(c, src, Trivia(src, p), ref, q);
    var q2 := Lex(src, q).1;
    var q3 := Lex(src, q2).1;
    var r := Parts(c, src, q3);
    var parts := PartsOf(c, src, q3);
    en := Complex(ref.text, parts);
    var body := PartsWords(parts) + [CLOSE];
    ReadSemi(src, r.pos);
    ScansJoin(src, q3, body, [SEMI]);
    var w := SpelledWord(src, p);
    MarkOf(src, p, w);
    var u := SpelledWord(src, q);
    MarkOf(src, q, u);
    var v := SpelledWord(src, q2);
    MarkOf(src, q2, v);
    HeadWord(src, q2, OPEN, body + [SEMI]);
    HeadWord(src, q, EQUALS, [OPEN] + (body + [SEMI]));
    HeadWord(src, p, RefWord(ref.text), [EQUALS] + ([OPEN] + (body + [SEMI])));
    assert EntryWords(en) == [RefWord(ref.text)] + ([EQUALS] + ([OPEN] + (body + [SEMI])));
    IdIsUint32(ref.text);
  }

  /** Every instance that is read is written as one. */
  lemma {:induction false} InstanceOf(c: Codec, src: Bytes, p: nat, x: Content, e: nat) returns (en: Entry)
    requires InstanceRead(c, src, p, x, e)
    ensures !en.Stray? && Scans(src, p, EntryWords(en)) && EntryMean(c, en, Trivia(src, p)) == Some(x) && e == After(src, p, |EntryWords(en)|)
  {
    hide Lex, Scans, EntryWords, EntryMean, Trivia, Instance, Args, Parts, Semi, After;
    InstanceUnfold(c, src, Trivia(src, p), Lex(src, p).0, Lex(src, p).1);
    if Lex(src, Lex(src, Lex(src, p).1).1).0.kind.TokKeyword? {
      en := SimpleOf(c, src, p, x, e);
    } else {
      en := ComplexOf(c, src, p, x, e);
    }
    ReadInstance(c, src, p, en);
  }

  // ---------------------------------------------------------------- the DATA section

  /** Where the words of a file stand: blanks before them skipped. */
  function PlaceIn(src: Bytes): nat -> nat { (k: nat) => Trivia(src, After(src, 0, k)) }

  lemma {:induction false} SumEmpty(a: Content)
    ensures Sum(EMPTY, a) == a == Sum(a, EMPTY)
  {
  }

  lemma {:induction false} RecordsStray(c: Codec, src: Bytes, p: nat)
    requires p <= |src| && Lex(src, p).0.kind.TokSemi?
    ensures Records(c, src, p) == Records(c, src, Lex(src, p).1)
  {
    hide Lex, Instance;
  }

  lemma {:induction false} RecordsInstance(c: Codec, src: Bytes, p: nat, x: Content, e: nat)
    requires InstanceRead(c, src, p, x, e)
    ensures p < e && Records(c, src, p) == Then(x, Records(c, src, e))
  {
    LexProgress(src, p);
    hide Lex, Instance, Then;
  }

  lemma {:induction false} RecordsEnd(c: Codec, src: Bytes, p: nat)
    requires p <= |src| && Lex(src, p).0.kind.TokKeyword? && Capitals(Lex(src, p).0.text) == "ENDSEC"
    ensures Records(c, src, p) == Ok(EMPTY, Lex(src, p).1)
  {
    CapitalsUpper(Lex(src, p).0.text);
    hide Lex, Instance, Upper, Capitals;
  }

  lemma {:induction false} ReadRecords(c: Codec, src: Bytes, p: nat, k: nat, es: seq<Entry>, closing: Bytes)
    requires p <= |src| && p == After(src, 0, k) && Capitals(closing) == "ENDSEC"
    requires Scans(src, p, EntriesWords(es) + [Keyword(closing)]) && EntriesMean(c, es, PlaceIn(src), k).Some?
    ensures Records(c, src, p) == Ok(EntriesMean(c, es, PlaceIn(src), k).value, After(src, p, |EntriesWords(es)| + 1))
    decreases es
  {
    hide Lex, Spelled, Scans, After, Records, InstanceRead, Capitals, EntryMean, EntryWords, Sum, Join;
    if es == [] {
      assert EntriesWords(es) + [Keyword(closing)] == [Keyword(closing)];
      ScansOne(src, p, Keyword(closing));
      SpelledToken(src, p, Keyword(closing));
      RecordsEnd(c, src, p);
    } else {
      var e, rest := es[0], es[1..];
      var n := |EntryWords(e)|;
      assert EntriesWords(es) + [Keyword(closing)] == EntryWords(e) + (EntriesWords(rest) + [Keyword(closing)]);
      ScansJoin(src, p, EntryWords(e), EntriesWords(rest) + [Keyword(closing)]);
      AfterSum(src, 0, k, n);
      AfterSum(src, p, n, |EntriesWords(rest)| + 1);
      var q := After(src, p, n);
      ReadRecords(c, src, q, k + n, rest, closing);
      var x, y := EntryMean(c, e, PlaceIn(src)(k)).value, EntriesMean(c, rest, PlaceIn(src), k + n).value;
      if e.Stray? {
        ReadStray(c, src, p, PlaceIn(src)(k));
        RecordsStray(c, src, p);
        SumEmpty(y);
      } else {
        ReadInstance(c, src, p, e);
        RecordsInstance(c, src, p, x, q);
        SumIsJoin(x, y);
      }
    }
  }

  lemma {:induction false} ReadStray(c: Codec, src: Bytes, p: nat, at: nat)
    requires p <= |src| && Scans(src, p, EntryWords(Stray))
    ensures |EntryWords(Stray)| == 1 && Lex(src, p).0.kind.TokSemi? && After(src, p, 1) == Lex(src, p).1 && EntryMean(c, Stray, at) == Some(EMPTY)
  {
    ScansOne(src, p, SEMI);
    SpelledToken(src, p, SEMI);
    hide Lex, Spelled, Scans;
  }

  lemma {:induction false} StrayOf(src: Bytes, p: nat)
    requires p <= |src| && Lex(src, p).0.kind.TokSemi?
    ensures Scans(src, p, EntryWords(Stray))
  {
    var w := SpelledWord(src, p);
    MarkOf(src, p, w);
    ScansOne(src, p, SEMI);
    hide Lex, Spelled, Scans;
  }

  lemma {:induction false} KeywordOf(src: Bytes, p: nat)
    requires p <= |src| && Lex(src, p).0.kind.TokKeyword?
    ensures Spelled(src, p, Keyword(Lex(src, p).0.text))
  {
    var w := SpelledWord(src, p);
    MarkOf(src, p, w);
  }

  lemma {:induction false} RecordsUnfold(c: Codec, src: Bytes, p: nat)
    requires p <= |src| && Records(c, src, p).Ok?
    ensures var (tok, q) := Lex(src, p);
      && (tok.kind.TokSemi? || tok.kind.TokRef? || (tok.kind.TokKeyword? && Capitals(tok.text) == "ENDSEC"))
      && (tok.kind.TokRef? ==> var r := Instance(c, src, Trivia(src, p), tok, q); r.Ok? && r.pos <= |src| && Records(c, src, r.pos).Ok?)
      && (tok.kind.TokSemi? ==> Records(c, src, q).Ok?)
  {
    CapitalsUpper(Lex(src, p).0.text);
    hide Lex, Instance, Upper, Capitals;
  }

  /** One more entry before those read. */
  lemma {:induction false} EntryMore(c: Codec, src: Bytes, p: nat, k: nat, e: Entry, rest: seq<Entry>, closing: Bytes)
    requires p <= |src| && p == After(src, 0, k) && Scans(src, p, EntryWords(e)) && EntryMean(c, e, PlaceIn(src)(k)).Some?
    requires Scans(src, After(src, p, |EntryWords(e)|), EntriesWords(rest) + [Keyword(closing)])
    requires EntriesMean(c, rest, PlaceIn(src), k + |EntryWords(e)|).Some?
    ensures Scans(src, p, EntriesWords([e] + rest) + [Keyword(closing)]) && EntriesMean(c, [e] + rest, PlaceIn(src), k).Some?
  {
    hide Lex, Spelled, Scans, After, EntryMean, EntryWords, Sum;
    var es := [e] + rest;
    assert es[1..] == rest && es[0] == e;
    assert EntriesWords(es) + [Keyword(closing)] == EntryWords(e) + (EntriesWords(rest) + [Keyword(closing)]);
    ScansJoin(src, p, EntryWords(e), EntriesWords(rest) + [Keyword(closing)]);
  }

  /** Every DATA section that is read is written as entries and a closing keyword. */
  lemma {:induction false} RecordsOf(c: Codec, src: Bytes, p: nat, k: nat) returns (es: seq<Entry>, closing: Bytes)
    requires p <= |src| && p == After(src, 0, k) && Records(c, src, p).Ok?
    ensures Scans(src, p, EntriesWords(es) + [Keyword(closing)]) && Capitals(closing) == "ENDSEC" && EntriesMean(c, es, PlaceIn(src), k).Some?
    decreases |src| - p
  {
    hide Lex, Spelled, Scans, After, Records, Capitals, EntryMean, EntryWords, Instance;
    RecordsUnfold(c, src, p);
    var tok, q := Lex(src, p).0, Lex(src, p).1;
    LexProgress(src, p);
    if tok.kind.TokKeyword? {
      es, closing := [], tok.text;
      KeywordOf(src, p);
      assert EntriesWords(es) + [Keyword(closing)] == [Keyword(closing)];
      ScansOne(src, p, Keyword(closing));
    } else if tok.kind.TokSemi? {
      StrayOf(src, p);
      ReadStray(c, src, p, PlaceIn(src)(k));
      AfterSum(src, 0, k, 1);
      var rest;
      rest, closing := RecordsOf(c, src, q, k + 1);
      es := [Stray] + rest;
      EntryMore(c, src, p, k, Stray, rest, closing);
    } else {
      var r := Instance(c, src, Trivia(src, p), tok, q);
      var e := InstanceOf(c, src, p, r.value, r.pos);
      RecordsInstance(c, src, p, r.value, r.pos);
      AfterSum(src, 0, k, |EntryWords(e)|);
      var rest;
      rest, closing := RecordsOf(c, src, r.pos, k + |EntryWords(e)|);
      es := [e] + rest;
      EntryMore(c, src, p, k, e, rest, closing);
    }
  }

  // ---------------------------------------------------------------- sections

  /** A section, read from `p` on, leaves the rest of the document to read. */
  ghost predicate SectionRead(c: Codec, src: Bytes, p: nat, x: Content, e: nat) {
    p < e <= |src| && Document(c, src, p, false) == ThenReading(x, Document(c, src, e, false))
  }

  lemma {:induction false} DocumentEntry(c: Codec, src: Bytes, p: nat, x: Content, e: nat)
    requires InstanceRead(c, src, p, x, e)
    ensures SectionRead(c, src, p, x, e)
  {
    LexProgress(src, p);
    hide Lex, Instance, Trivia, ThenReading, Upper;
  }

  lemma {:induction false} ThenEmpty(r: Parse<Reading>)
    ensures ThenReading(EMPTY, r) == r
  {
    if r.Ok? { JoinUnits(r.value.content); }
  }

  lemma {:induction false} DocumentSemi(c: Codec, src: Bytes, p: nat)
    requires p <= |src| && Lex(src, p).0.kind.TokSemi?
    ensures SectionRead(c, src, p, EMPTY, Lex(src, p).1)
  {
    LexProgress(src, p);
    ThenEmpty(Document(c, src, Lex(src, p).1, false));
    hide Lex, Instance, Trivia, ThenReading, Upper;
  }

  lemma {:induction false} DocumentBanner(c: Codec, src: Bytes, p: nat)
    requires p <= |src| && Lex(src, p).0.kind.TokKeyword? && BannerName(Capitals(Lex(src, p).0.text))
    ensures SectionRead(c, src, p, EMPTY, Lex(src, p).1)
  {
    LexProgress(src, p);
    CapitalsUpper(Lex(src, p).0.text);
    ThenEmpty(Document(c, src, Lex(src, p).1, false));
    hide Lex, Instance, Trivia, ThenReading, Upper, Capitals;
  }

  lemma {:induction false} DocumentLine(c: Codec, src: Bytes, p: nat, k: Bytes, ts: seq<Tree>, e: nat)
    requires HeadedRead(c, src, p, k, ts, e) && Semi(src, e).Ok?
    requires !BannerName(Capitals(k)) && Capitals(k) != "DATA" && Capitals(k) != "END-ISO-10303-21"
    ensures SectionRead(c, src, p, Content([HeaderRecord(Capitals(k), ts)], [], map[], []), Semi(src, e).pos)
  {
    CapitalsUpper(k);
    LexProgress(src, p);
    LineRead(c, src, Upper(k), p, k, ts, e);
    hide Lex, Header, ThenReading, Upper, Capitals, Args, Semi;
  }

  lemma {:induction false} LineRead(c: Codec, src: Bytes, kw: Bytes, p: nat, k: Bytes, ts: seq<Tree>, e: nat)
    requires HeadedRead(c, src, p, k, ts, e) && Semi(src, e).Ok?
    ensures Header(c, src, kw, Lex(src, p).1) == Ok(Content([HeaderRecord(kw, ts)], [], map[], []), Semi(src, e).pos)
    ensures Lex(src, p).1 <= Semi(src, e).pos
  {
    hide Lex, Args, Semi;
  }

  lemma {:induction false} DataIsNoMark(kw: Bytes)
    requires kw == "DATA"
    ensures !SectionMark(kw) && kw != "END-ISO-10303-21"
  {
    assert |kw| == 4;
  }

  lemma {:induction false} DocumentData(c: Codec, src: Bytes, p: nat)
    requires p <= |src| && Lex(src, p).0.kind.TokKeyword? && Capitals(Lex(src, p).0.text) == "DATA"
    requires Semi(src, Lex(src, p).1).Ok? && Records(c, src, Semi(src, Lex(src, p).1).pos).Ok?
    ensures var r := Records(c, src, Semi(src, Lex(src, p).1).pos); SectionRead(c, src, p, r.value, r.pos)
  {
    hide Lex, Records, ThenReading, Upper, Capitals, Semi, SectionMark, Document;
    LexProgress(src, p);
    CapitalsUpper(Lex(src, p).0.text);
    DataIsNoMark(Upper(Lex(src, p).0.text));
    DocumentAtData(c, src, p, Upper(Lex(src, p).0.text));
  }

  lemma {:induction false} DocumentAtData(c: Codec, src: Bytes, p: nat, kw: Bytes)
    requires p <= |src| && Lex(src, p).0.kind.TokKeyword? && Upper(Lex(src, p).0.text) == kw
    requires !SectionMark(kw) && kw != "END-ISO-10303-21" && kw == "DATA"
    requires Semi(src, Lex(src, p).1).Ok? && Records(c, src, Semi(src, Lex(src, p).1).pos).Ok?
    ensures var r := Records(c, src, Semi(src, Lex(src, p).1).pos); Document(c, src, p, false) == ThenReading(r.value, Document(c, src, r.pos, false))
  {
    hide Lex, Records, ThenReading, Upper, Semi, SectionMark, Instance, Header, Trivia;
  }

  lemma {:induction false} DataMeans(c: Codec, k: Bytes, es: seq<Entry>, closing: Bytes, place: nat -> nat, n: nat)
    requires SectionMean(c, Data(k, es, closing), place, n).Some?
    ensures Capitals(k) == "DATA" && Capitals(closing) == "ENDSEC"
    ensures SectionMean(c, Data(k, es, closing), place, n) == EntriesMean(c, es, place, n + 2)
    ensures SectionWords(Data(k, es, closing)) == [Keyword(k)] + ([SEMI] + (EntriesWords(es) + [Keyword(closing)]))
  {
    hide Capitals, EntriesMean, EntriesWords;
  }

  lemma {:induction false} ReadData(c: Codec, src: Bytes, p: nat, n: nat, k: Bytes, es: seq<Entry>, closing: Bytes)
    requires var s := Data(k, es, closing); p <= |src| && p == After(src, 0, n) && Scans(src, p, SectionWords(s)) && SectionMean(c, s, PlaceIn(src), n).Some?
    ensures var s := Data(k, es, closing); SectionRead(c, src, p, SectionMean(c, s, PlaceIn(src), n).value, After(src, p, |SectionWords(s)|))
  {
    hide Lex, Spelled, Scans, After, Records, SectionRead, Semi, Capitals, SectionMean, SectionWords, EntriesMean, EntriesWords;
    var ws := EntriesWords(es) + [Keyword(closing)];
    var q := Lex(src, p).1;
    DataMeans(c, k, es, closing, PlaceIn(src), n);
    HeadWord(src, p, Keyword(k), [SEMI] + ws);
    SpelledToken(src, p, Keyword(k));
    ScansJoin(src, q, [SEMI], ws);
    ReadSemi(src, q);
    var r := After(src, q, 1);
    AfterSum(src, q, 1, |ws|);
    AfterSum(src, 0, n, 2);
    AfterSum(src, p, 1, 1);
    ScansOne(src, p, Keyword(k));
    ReadRecords(c, src, r, n + 2, es, closing);
    DocumentData(c, src, p);
  }

  lemma {:induction false} ReadLine(c: Codec, src: Bytes, p: nat, n: nat, k: Bytes, items: seq<Form>)
    requires var s := HeaderLine(k, items); p <= |src| && Scans(src, p, SectionWords(s)) && SectionMean(c, s, PlaceIn(src), n).Some?
    ensures var s := HeaderLine(k, items); SectionRead(c, src, p, SectionMean(c, s, PlaceIn(src), n).value, After(src, p, |SectionWords(s)|))
  {
    hide Lex, Spelled, Scans, After, SectionRead, Semi, Capitals, HeadedRead;
    var head := [Keyword(k), OPEN] + (AllWords(items) + [CLOSE]);
    ScansJoin(src, p, head, [SEMI]);
    var e := After(src, p, |head|);
    ReadHeaded(c, src, p, k, items, e);
    ReadSemi(src, e);
    AfterSum(src, p, |head|, 1);
    DocumentLine(c, src, p, k, Values(c, items).value, e);
  }

  lemma {:induction false} ReadLoose(c: Codec, src: Bytes, p: nat, n: nat, e: Entry)
    requires p <= |src| && p == After(src, 0, n) && Scans(src, p, EntryWords(e)) && EntryMean(c, e, PlaceIn(src)(n)).Some?
    ensures SectionRead(c, src, p, EntryMean(c, e, PlaceIn(src)(n)).value, After(src, p, |EntryWords(e)|))
  {
    hide Lex, Scans, After, SectionRead, EntryMean, EntryWords, InstanceRead;
    if e.Stray? {
      ReadStray(c, src, p, PlaceIn(src)(n));
      DocumentSemi(c, src, p);
    } else {
      ReadInstance(c, src, p, e);
      DocumentEntry(c, src, p, EntryMean(c, e, PlaceIn(src)(n)).value, After(src, p, |EntryWords(e)|));
    }
  }

  lemma {:induction false} ReadBanner(c: Codec, src: Bytes, p: nat, n: nat, k: Bytes)
    requires p <= |src| && Scans(src, p, [Keyword(k)]) && BannerName(Capitals(k))
    ensures SectionRead(c, src, p, EMPTY, After(src, p, 1))
  {
    hide Lex, Spelled, Scans, SectionRead, Capitals;
    ScansOne(src, p, Keyword(k));
    SpelledToken(src, p, Keyword(k));
    DocumentBanner(c, src, p);
  }

  lemma {:induction false} ReadSection(c: Codec, src: Bytes, p: nat, n: nat, s: Section)
    requires p <= |src| && p == After(src, 0, n) && Scans(src, p, SectionWords(s)) && SectionMean(c, s, PlaceIn(src), n).Some?
    ensures SectionRead(c, src, p, SectionMean(c, s, PlaceIn(src), n).value, After(src, p, |SectionWords(s)|))
  {
    hide Scans, SectionRead, After, PlaceIn;
    match s
    case Loose(e) => ReadLoose(c, src, p, n, e);
    case Banner(k) => ReadBanner(c, src, p, n, k);
    case HeaderLine(k, items) => ReadLine(c, src, p, n, k, items);
    case Data(k, es, closing) => ReadData(c, src, p, n, k, es, closing);
  }

  // ---------------------------------------------------------------- documents

  /** How a file ends: with blanks alone, or with the word that ends it whatever comes after. */
  ghost predicate EndsAt(src: Bytes, p: nat, last: Option<Bytes>) {
    p <= |src| &&
    match last
    case None => Trivia(src, p) == |src|
    case Some(k) => Spelled(src, p, Keyword(k)) && Capitals(k) == "END-ISO-10303-21"
  }

  lemma {:induction false} DocumentEnd(c: Codec, src: Bytes, p: nat, last: Option<Bytes>)
    requires EndsAt(src, p, last)
    ensures Document(c, src, p, false) == Ok(Reading(EMPTY, false), if last.Some? then Lex(src, p).1 else |src|)
  {
    if last.Some? {
      SpelledToken(src, p, Keyword(last.value));
      CapitalsUpper(last.value);
      hide Lex, Upper, Capitals, Spelled;
    } else {
      hide LexAt;
    }
  }

  lemma {:induction false} ReadDocument(c: Codec, src: Bytes, p: nat, n: nat, ss: seq<Section>, last: Option<Bytes>)
    requires p <= |src| && p == After(src, 0, n) && Scans(src, p, SectionsWords(ss)) && SectionsMean(c, ss, PlaceIn(src), n).Some?
    requires EndsAt(src, After(src, p, |SectionsWords(ss)|), last)
    ensures var e := After(src, p, |SectionsWords(ss)|);
      Document(c, src, p, false) == Ok(Reading(SectionsMean(c, ss, PlaceIn(src), n).value, false), if last.Some? then Lex(src, e).1 else |src|)
    decreases ss
  {
    hide Lex, Spelled, Scans, After, Document, SectionMean, SectionWords, Sum, Join, EndsAt;
    if ss == [] {
      assert After(src, p, 0) == p by { AfterNone(src, p); }
      DocumentEnd(c, src, p, last);
    } else {
      var s, rest := ss[0], ss[1..];
      var m := |SectionWords(s)|;
      ScansJoin(src, p, SectionWords(s), SectionsWords(rest));
      AfterSum(src, 0, n, m);
      AfterSum(src, p, m, |SectionsWords(rest)|);
      var q := After(src, p, m);
      ReadSection(c, src, p, n, s);
      ReadDocument(c, src, q, n + m, rest, last);
      SumIsJoin(SectionMean(c, s, PlaceIn(src), n).value, SectionsMean(c, rest, PlaceIn(src), n + m).value);
    }
  }

  lemma {:induction false} AfterNone(src: Bytes, p: nat)
    requires p <= |src|
    ensures After(src, p, 0) == p
  {
  }

  // ---------------------------------------------------------------- documents: read, so written

  ghost predicate Meant(c: Codec, src: Bytes, p: nat, n: nat, s: Section) {
    p <= |src| && p == After(src, 0, n) && Scans(src, p, SectionWords(s)) && SectionMean(c, s, PlaceIn(src), n).Some?
  }

  lemma {:induction false} BannerOf(c: Codec, src: Bytes, p: nat, n: nat) returns (s: Section)
    requires p <= |src| && p == After(src, 0, n) && Lex(src, p).0.kind.TokKeyword? && BannerName(Capitals(Lex(src, p).0.text))
    ensures Meant(c, src, p, n, s)
  {
    s := Banner(Lex(src, p).0.text);
    KeywordOf(src, p);
    ScansOne(src, p, Keyword(Lex(src, p).0.text));
    hide Lex, Scans, Spelled, Capitals, BannerName;
  }

  lemma {:induction false} DataUnfold(c: Codec, src: Bytes, p: nat)
    requires p <= |src| && Document(c, src, p, false).Ok? && Lex(src, p).0.kind.TokKeyword? && Capitals(Lex(src, p).0.text) == "DATA"
    ensures var r := Semi(src, Lex(src, p).1); r.Ok? && r.pos <= |src| && Records(c, src, r.pos).Ok?
  {
    CapitalsUpper(Lex(src, p).0.text);
    DataIsNoMark(Upper(Lex(src, p).0.text));
    hide Lex, Records, ThenReading, Upper, Capitals, Semi, SectionMark, Instance, Header;
  }

  lemma {:induction false} DataOf(c: Codec, src: Bytes, p: nat, n: nat) returns (s: Section)
    requires p <= |src| && p == After(src, 0, n) && Document(c, src, p, false).Ok?
    requires Lex(src, p).0.kind.TokKeyword? && Capitals(Lex(src, p).0.text) == "DATA"
    ensures Meant(c, src, p, n, s)
  {
    hide Lex, Spelled, Scans, After, Records, Document, Semi, Capitals, EntriesMean;
    DataUnfold(c, src, p);
    var k, q := Lex(src, p).0.text, Lex(src, p).1;
    KeywordOf(src, p);
    ReadSemi(src, q);
    var r := After(src, q, 1);
    ScansOne(src, p, Keyword(k));
    AfterSum(src, 0, n, 2);
    AfterSum(src, p, 1, 1);
    var es, closing := RecordsOf(c, src, r, n + 2);
    s := Data(k, es, closing);
    var ws := EntriesWords(es) + [Keyword(closing)];
    ScansJoin(src, q, [SEMI], ws);
    HeadWord(src, p, Keyword(k), [SEMI] + ws);
    assert SectionWords(s) == [Keyword(k)] + ([SEMI] + ws);
  }

  lemma {:induction false} LineUnfold(c: Codec, src: Bytes, p: nat)
    requires p <= |src| && Document(c, src, p, false).Ok? && Lex(src, p).0.kind.TokKeyword?
    requires var k := Capitals(Lex(src, p).0.text); !BannerName(k) && k != "DATA" && k != "END-ISO-10303-21"
    ensures var r := Args(c, src, Lex(src, Lex(src, p).1).1);
      r.Ok? && HeadedRead(c, src, p, Lex(src, p).0.text, r.value, r.pos) && Semi(src, r.pos).Ok?
  {
    CapitalsUpper(Lex(src, p).0.text);
    HeaderUnfold(c, src, Upper(Lex(src, p).0.text), Lex(src, p).1);
    hide Lex, ThenReading, Upper, Capitals, Semi, Instance, Header, Args;
  }

  lemma {:induction false} HeaderUnfold(c: Codec, src: Bytes, kw: Bytes, p: nat)
    requires p <= |src|
    ensures Header(c, src, kw, p).Ok? ==>
      Lex(src, p).0.kind.TokLParen? && Args(c, src, Lex(src, p).1).Ok? && Semi(src, Args(c, src, Lex(src, p).1).pos).Ok?
  {
    hide Lex, Args, Semi;
  }

  lemma {:induction false} LineOf(c: Codec, src: Bytes, p: nat, n: nat) returns (s: Section)
    requires p <= |src| && p == After(src, 0, n) && Document(c, src, p, false).Ok? && Lex(src, p).0.kind.TokKeyword?
    requires var k := Capitals(Lex(src, p).0.text); !BannerName(k) && k != "DATA" && k != "END-ISO-10303-21"
    ensures Meant(c, src, p, n, s)
  {
    hide Lex, Spelled, Scans, After, Document, Semi, Capitals, HeadedRead, Args, BannerName;
    LineUnfold(c, src, p);
    var k, r := Lex(src, p).0.text, Args(c, src, Lex(src, Lex(src, p).1).1);
    var items := HeadedOf(c, src, p, k, r.value, r.pos);
    s := HeaderLine(k, items);
    HeadedEnd(c, src, p, k, r.value, r.pos);
    ReadSemi(src, r.pos);
    ScansJoin(src, p, [Keyword(k), OPEN] + (AllWords(items) + [CLOSE]), [SEMI]);
  }

  lemma {:induction false} LooseOf(c: Codec, src: Bytes, p: nat, n: nat, e: Entry)
    requires p <= |src| && p == After(src, 0, n) && Scans(src, p, EntryWords(e)) && EntryMean(c, e, Trivia(src, p)).Some?
    ensures Meant(c, src, p, n, Loose(e))
  {
    hide Scans, EntryWords, EntryMean;
  }

  lemma {:induction false} DocumentUnfold(c: Codec, src: Bytes, p: nat)
    requires p <= |src| && Document(c, src, p, false).Ok?
    ensures var (tok, q) := Lex(src, p);
      && (tok.kind.TokEOF? || tok.kind.TokSemi? || tok.kind.TokKeyword? || tok.kind.TokRef?)
      && (tok.kind.TokEOF? ==> Trivia(src, p) == |src|)
      && (tok.kind.TokRef? ==> var r := Instance(c, src, Trivia(src, p), tok, q); r.Ok? && r.pos <= |src|)
  {
    hide LexAt, Instance, Header, Records, ThenReading, Upper, Semi;
  }

  /** The section at `p`, unless the document ends there. */
  lemma {:induction false} SectionOf(c: Codec, src: Bytes, p: nat, n: nat) returns (s: Section)
    requires p <= |src| && p == After(src, 0, n) && Document(c, src, p, false).Ok?
    requires Lex(src, p).0.kind != TokEOF && !(Lex(src, p).0.kind.TokKeyword? && Capitals(Lex(src, p).0.text) == "END-ISO-10303-21")
    ensures Meant(c, src, p, n, s)
  {
    hide Lex, Scans, Document, Capitals, BannerName, EntryWords, EntryMean, Meant, Instance, After;
    DocumentUnfold(c, src, p);
    var tok := Lex(src, p).0;
    if tok.kind.TokSemi? {
      StrayOf(src, p);
      ReadStray(c, src, p, Trivia(src, p));
      s := Loose(Stray);
      LooseOf(c, src, p, n, Stray);
    } else if tok.kind.TokRef? {
      var r := Instance(c, src, Trivia(src, p), tok, Lex(src, p).1);
      var e := InstanceOf(c, src, p, r.value, r.pos);
      s := Loose(e);
      LooseOf(c, src, p, n, e);
    } else if BannerName(Capitals(tok.text)) {
      s := BannerOf(c, src, p, n);
    } else if Capitals(tok.text) == "DATA" {
      s := DataOf(c, src, p, n);
    } else {
      s := LineOf(c, src, p, n);
    }
  }

  /** Every document that is read is written as sections and an end. */
  lemma {:induction false} DocumentOf(c: Codec, src: Bytes, p: nat, n: nat) returns (ss: seq<Section>, last: Option<Bytes>)
    requires p <= |src| && p == After(src, 0, n) && Document(c, src, p, false).Ok?
    ensures Scans(src, p, SectionsWords(ss)) && SectionsMean(c, ss, PlaceIn(src), n).Some? && EndsAt(src, After(src, p, |SectionsWords(ss)|), last)
    decreases |src| - p
  {
    hide Lex, Spelled, Scans, After, Document, Capitals, SectionMean, SectionWords, Trivia, Sum;
    var tok := Lex(src, p).0;
    if tok.kind.TokEOF? || (tok.kind.TokKeyword? && Capitals(tok.text) == "END-ISO-10303-21") {
      DocumentUnfold(c, src, p);
      ss, last := [], if tok.kind.TokEOF? then None else Some(tok.text);
      if !tok.kind.TokEOF? { KeywordOf(src, p); }
      AfterNone(src, p);
      NoSections(src, p);
    } else {
      var s := SectionOf(c, src, p, n);
      ReadSection(c, src, p, n, s);
      var m := |SectionWords(s)|;
      var q := After(src, p, m);
      AfterSum(src, 0, n, m);
      var rest;
      rest, last := DocumentOf(c, src, q, n + m);
      ss := [s] + rest;
      assert ss[1..] == rest && ss[0] == s;
      ScansJoin(src, p, SectionWords(s), SectionsWords(rest));
      AfterSum(src, p, m, |SectionsWords(rest)|);
    }
  }

  lemma {:induction false} NoSections(src: Bytes, p: nat)
    requires p <= |src|
    ensures Scans(src, p, SectionsWords([]))
  {
  }
}
