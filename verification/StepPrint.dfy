// A plain printer: every printable content has a text, and reading that text gives it back.
module StepPrint {
  import opened Common
  import opened StepLexer
  import opened StepGrammar
  import opened StepWords
  import opened StepScript
  import opened StepForms
  import opened StepDocuments
  import opened StepWritten

  // ---------------------------------------------------------------- what can be printed

  /** How to write what the codec decodes: strings with an apostrophe or a backslash, integers
      and reals. */
  datatype Keys = Keys(quote: Bytes -> Bytes, whole: Int64 -> Bytes, float: Uint64 -> Bytes)

  ghost predicate Inverts(c: Codec, k: Keys) {
    && (forall s: Bytes :: !Plain(s) ==> Paired(k.quote(s)) && !Plain(k.quote(s)) && c.decode(k.quote(s)) == Some(s))
    && (forall i: Int64 :: NumberOk(k.whole(i)) && !RealText(k.whole(i)) && c.int64(k.whole(i)) == Some(i))
    && (forall b: Uint64 :: NumberOk(k.float(b)) && RealText(k.float(b)) && c.float64(k.float(b)) == Some(b))
  }

  predicate KeywordOk(k: Bytes) { WordOk(Keyword(k)) }

  predicate TreeOk(t: Tree) {
    match t
    case TInt(i) => -0x8000_0000_0000_0000 <= i < 0x8000_0000_0000_0000
    case TReal(b) => b < 0x1_0000_0000_0000_0000
    case TEnum(name) => WordOk(Dotted(name, true)) && !Truth(name)
    case TBinary(body) => '"' !in body
    case TRef(id) => id <= 0xFFFF_FFFF
    case TList(ts) => TreesOk(ts)
    case TTyped(k, ts) => KeywordOk(k) && TreesOk(ts)
    case _ => true
  }

  predicate TreesOk(ts: seq<Tree>) { forall i :: 0 <= i < |ts| ==> TreeOk(ts[i]) }

  predicate NameOk(k: Bytes) { KeywordOk(k) && Capitals(k) == k }

  predicate HeaderOk(h: HeaderRecord) {
    NameOk(h.keyword) && !BannerName(h.keyword) && h.keyword != "DATA" && h.keyword != "END-ISO-10303-21" && TreesOk(h.args)
  }

  predicate RecordOk(r: Record) { r.id <= 0xFFFF_FFFF && NameOk(r.typ) && TreesOk(r.args) }

  predicate NamesOk(names: seq<Bytes>) { |names| >= 2 && forall i :: 0 <= i < |names| ==> NameOk(names[i]) }

  /** A complex instance has at least two parts, and its type is the first. */
  predicate IsComplex(r: Record, complex: map<nat, seq<Bytes>>) {
    r.id in complex && |complex[r.id]| >= 2 && complex[r.id][0] == r.typ
  }

  ghost predicate Printable(x: Content) {
    && (forall i :: 0 <= i < |x.header| ==> HeaderOk(x.header[i])) && (forall i :: 0 <= i < |x.insts| ==> RecordOk(x.insts[i]))
    && (forall id <- x.complex :: NamesOk(x.complex[id]) && exists r <- x.insts :: r.id == id && r.typ == x.complex[id][0])
  }

  // ---------------------------------------------------------------- printing

  function DigitFor(n: nat): Byte
    requires n < 10
  {
    '0' + (n as char)
  }

  function Digits(n: nat): Bytes { if n < 10 then [DigitFor(n)] else Digits(n / 10) + [DigitFor(n % 10)] }

  function FormFor(k: Keys, t: Tree): Form
    requires TreeOk(t)
  {
    match t
    case TNull => Leaf(Mark('$'))
    case TDerived => Leaf(Mark('*'))
    case TInt(i) => Leaf(Number(k.whole(i)))
    case TReal(b) => Leaf(Number(k.float(b)))
    case TStr(s) => Leaf(Quoted(if Plain(s) then s else k.quote(s)))
    case TEnum(name) => Leaf(Dotted(name, true))
    case TBool(b) => Leaf(Dotted(if b then "T" else "F", true))
    case TLogical => Leaf(Dotted("U", true))
    case TBinary(body) => Leaf(Bits(body))
    case TRef(id) => Leaf(RefWord(Digits(id)))
    case TList(ts) => Group(FormsFor(k, ts))
    case TTyped(w, ts) => Typed(w, FormsFor(k, ts))
  }

  /** Values with a comma between each two. */
  function FormsFor(k: Keys, ts: seq<Tree>): seq<Form>
    requires TreesOk(ts)
  {
    if ts == [] then []
    else if |ts| == 1 then [FormFor(k, ts[0])]
    else [FormFor(k, ts[0]), Comma] + FormsFor(k, ts[1..])
  }

  /** All attributes go to the first part. */
  function PartsFor(k: Keys, names: seq<Bytes>, ts: seq<Tree>): seq<Part>
    requires TreesOk(ts)
  {
    if names == [] then [] else [Part(names[0], FormsFor(k, ts))] + PartsFor(k, names[1..], [])
  }

  function EntryFor(k: Keys, r: Record, complex: map<nat, seq<Bytes>>): Entry
    requires RecordOk(r)
  {
    if IsComplex(r, complex) then Complex(Digits(r.id), PartsFor(k, complex[r.id], r.args))
    else Simple(Digits(r.id), r.typ, FormsFor(k, r.args))
  }

  function EntriesFor(k: Keys, rs: seq<Record>, complex: map<nat, seq<Bytes>>): seq<Entry>
    requires forall i :: 0 <= i < |rs| ==> RecordOk(rs[i])
  {
    if rs == [] then [] else [EntryFor(k, rs[0], complex)] + EntriesFor(k, rs[1..], complex)
  }

  function LinesFor(k: Keys, hs: seq<HeaderRecord>): seq<Section>
    requires forall i :: 0 <= i < |hs| ==> HeaderOk(hs[i])
  {
    if hs == [] then [] else assert HeaderOk(hs[0]); [HeaderLine(hs[0].keyword, FormsFor(k, hs[0].args))] + LinesFor(k, hs[1..])
  }

  const SEMICOLON := Loose(Stray)

  ghost function SectionsFor(k: Keys, x: Content): seq<Section>
    requires Printable(x)
  {
    [Banner("ISO-10303-21"), SEMICOLON, Banner("HEADER"), SEMICOLON] + (LinesFor(k, x.header)
      + [Banner("ENDSEC"), SEMICOLON, Data("DATA", EntriesFor(k, x.insts, x.complex), "ENDSEC"), SEMICOLON])
  }

  function PiecesFor(ws: seq<Word>): (ps: seq<Piece>)
    ensures |ps| == |ws|
  {
    seq(|ws|, i requires 0 <= i < |ws| => Piece([], ws[i]))
  }

  const LAST: Bytes := "END-ISO-10303-21"

  ghost function PrintedPieces(k: Keys, x: Content): seq<Piece>
    requires Printable(x)
  {
    PiecesFor(SectionsWords(SectionsFor(k, x)) + [Keyword(LAST)])
  }

  /** The text: the words one after the other with nothing between, and a last semicolon. */
  ghost function Print(k: Keys, x: Content): Bytes
    requires Printable(x)
  {
    Text(PrintedPieces(k, x)) + ";"
  }

  // ---------------------------------------------------------------- what it means

  lemma {:induction false} DigitsBack(n: nat)
    ensures Digits(n) != [] && AllDigits(Digits(n)) && NumberOf(Digits(n)) == n
  {
    if n < 10 {
      OneDigit(n);
    } else {
      DigitsBack(n / 10);
      NumberMore(Digits(n / 10), DigitFor(n % 10));
    }
  }

  lemma {:induction false} OneDigit(n: nat)
    requires n < 10
    ensures AllDigits([DigitFor(n)]) && NumberOf([DigitFor(n)]) == n
  {
    NumberMore([], DigitFor(n));
    assert [] + [DigitFor(n)] == [DigitFor(n)];
  }

  lemma {:induction false} FormBack(c: Codec, k: Keys, t: Tree)
    requires Inverts(c, k) && TreeOk(t)
    ensures !FormFor(k, t).Comma? && Value(c, FormFor(k, t)) == Some(t)
    decreases t, 0
  {
    match t
    case TList(ts) => FormsBack(c, k, ts);
    case TTyped(w, ts) => FormsBack(c, k, ts);
    case _ => LeafBack(c, k, t);
  }

  lemma {:induction false} LeafBack(c: Codec, k: Keys, t: Tree)
    requires Inverts(c, k) && TreeOk(t) && !t.TList? && !t.TTyped?
    ensures FormFor(k, t).Leaf? && LeafTree(c, FormFor(k, t).word) == Some(t)
  {
    hide Digits, NumberOf, Paired, NumberOk, RealText, AllDigits;
    match t
    case TInt(i) => assert c.int64(k.whole(i)) == Some(i);
    case TReal(b) => assert c.float64(k.float(b)) == Some(b);
    case TRef(id) => DigitsBack(id);
    case _ =>
  }

  lemma {:induction false} FormsBack(c: Codec, k: Keys, ts: seq<Tree>)
    requires Inverts(c, k) && TreesOk(ts)
    ensures Values(c, FormsFor(k, ts)) == Some(ts)
    decreases ts
  {
    hide FormFor, Inverts, TreeOk, Value;
    if ts != [] {
      var f, rest := FormFor(k, ts[0]), FormsFor(k, ts[1..]);
      FormBack(c, k, ts[0]);
      FormsBack(c, k, ts[1..]);
      OneValue(c, f, ts[0]);
      assert ts == [ts[0]] + ts[1..];
      if |ts| > 1 { CommaValue(c, f, ts[0], rest, ts[1..]); } else { assert ts == [ts[0]]; }
    }
  }

  lemma {:induction false} OneValue(c: Codec, f: Form, t: Tree)
    requires !f.Comma? && Value(c, f) == Some(t)
    ensures Values(c, [f]) == Some([t])
  {
    assert [f][1..] == [] && [t] + [] == [t];
    assert Values(c, []) == Some([]);
    hide Value;
  }

  lemma {:induction false} CommaValue(c: Codec, f: Form, t: Tree, rest: seq<Form>, ts: seq<Tree>)
    requires !f.Comma? && Value(c, f) == Some(t) && Values(c, rest) == Some(ts)
    ensures Values(c, [f, Comma] + rest) == Some([t] + ts)
  {
    var fs := [f, Comma] + rest;
    assert fs[1..] == [Comma] + rest && ([Comma] + rest)[1..] == rest;
    assert Values(c, [Comma] + rest) == Some(ts);
    hide Value;
  }

  lemma {:induction false} PartsBack(c: Codec, k: Keys, names: seq<Bytes>, ts: seq<Tree>)
    requires Inverts(c, k) && TreesOk(ts) && (names == [] ==> ts == []) && forall i :: 0 <= i < |names| ==> NameOk(names[i])
    ensures PartsMean(c, PartsFor(k, names, ts)) == Some((names, ts))
    decreases names
  {
    hide FormsFor, Inverts, TreeOk, Values, KeywordOk, Capitals;
    if names != [] {
      var xs := PartsFor(k, names, ts);
      FormsBack(c, k, ts);
      PartsBack(c, k, names[1..], []);
      assert NameOk(names[0]) && xs[1..] == PartsFor(k, names[1..], []);
      assert [names[0]] + names[1..] == names && ts + [] == ts;
    }
  }

  /** What one printed record adds. */
  function OneOf(r: Record, complex: map<nat, seq<Bytes>>, at: nat): Content {
    Content([], [r], if IsComplex(r, complex) then map[r.id := complex[r.id]] else map[], [at])
  }

  ghost predicate ComplexOk(complex: map<nat, seq<Bytes>>) { forall id <- complex :: NamesOk(complex[id]) }

  lemma {:induction false} EntryBack(c: Codec, k: Keys, r: Record, complex: map<nat, seq<Bytes>>, at: nat)
    requires Inverts(c, k) && RecordOk(r) && ComplexOk(complex)
    ensures EntryMean(c, EntryFor(k, r, complex), at) == Some(OneOf(r, complex, at))
  {
    hide FormsFor, Inverts, TreeOk, Values, KeywordOk, Capitals, Digits, NumberOf, PartsFor, PartsMean;
    DigitsBack(r.id);
    if IsComplex(r, complex) {
      assert NamesOk(complex[r.id]);
      PartsBack(c, k, complex[r.id], r.args);
    } else {
      FormsBack(c, k, r.args);
    }
  }

  /** The complex instances among some records. */
  function ComplexOf(rs: seq<Record>, complex: map<nat, seq<Bytes>>): map<nat, seq<Bytes>> {
    if rs == [] then map[]
    else (if IsComplex(rs[0], complex) then map[rs[0].id := complex[rs[0].id]] else map[]) + ComplexOf(rs[1..], complex)
  }

  lemma {:induction false} ComplexOfExact(rs: seq<Record>, complex: map<nat, seq<Bytes>>, id: nat)
    ensures id in ComplexOf(rs, complex) <==> exists r <- rs :: r.id == id && IsComplex(r, complex)
    ensures id in ComplexOf(rs, complex) ==> id in complex && ComplexOf(rs, complex)[id] == complex[id]
  {
    if rs != [] {
      ComplexOfExact(rs[1..], complex, id);
      assert forall r :: r in rs <==> r == rs[0] || r in rs[1..];
    }
  }

  lemma {:induction false} EntriesBack(c: Codec, k: Keys, rs: seq<Record>, complex: map<nat, seq<Bytes>>, place: nat -> nat, n: nat)
    requires Inverts(c, k) && ComplexOk(complex) && forall i :: 0 <= i < |rs| ==> RecordOk(rs[i])
    ensures var m := EntriesMean(c, EntriesFor(k, rs, complex), place, n);
      m.Some? && m.value.header == [] && m.value.insts == rs && m.value.complex == ComplexOf(rs, complex)
    decreases rs
  {
    hide EntryMean, EntryFor, EntryWords, Inverts, RecordOk, ComplexOk, IsComplex, PlusMaybe, OneOf;
    if rs != [] {
      var es := EntriesFor(k, rs, complex);
      assert es[0] == EntryFor(k, rs[0], complex) && es[1..] == EntriesFor(k, rs[1..], complex);
      EntryBack(c, k, rs[0], complex, place(n));
      EntriesBack(c, k, rs[1..], complex, place, n + |EntryWords(es[0])|);
      EntryPlus(rs, complex, place(n), EntriesMean(c, es[1..], place, n + |EntryWords(es[0])|).value);
    }
  }

  lemma {:induction false} EntryPlus(rs: seq<Record>, complex: map<nat, seq<Bytes>>, at: nat, rest: Content)
    requires rs != [] && rest.header == [] && rest.insts == rs[1..] && rest.complex == ComplexOf(rs[1..], complex)
    ensures var m := PlusMaybe(Some(OneOf(rs[0], complex, at)), Some(rest));
      m.Some? && m.value.header == [] && m.value.insts == rs && m.value.complex == ComplexOf(rs, complex)
  {
    hide IsComplex;
    assert [rs[0]] + rs[1..] == rs;
  }

  lemma {:induction false} AllComplex(x: Content)
    requires Printable(x)
    ensures ComplexOf(x.insts, x.complex) == x.complex && ComplexOk(x.complex)
  {
    hide NameOk, RecordOk, HeaderOk;
    forall id: nat ensures (id in ComplexOf(x.insts, x.complex) <==> id in x.complex)
      && (id in x.complex ==> id in ComplexOf(x.insts, x.complex) && ComplexOf(x.insts, x.complex)[id] == x.complex[id])
    {
      ComplexOfExact(x.insts, x.complex, id);
      if id in x.complex {
        assert NamesOk(x.complex[id]);
        var r :| r in x.insts && r.id == id && r.typ == x.complex[id][0];
        assert IsComplex(r, x.complex);
      }
    }
  }

  // ---------------------------------------------------------------- sections

  lemma {:induction false} SectionsWordsJoin(a: seq<Section>, b: seq<Section>)
    ensures SectionsWords(a + b) == SectionsWords(a) + SectionsWords(b)
    decreases a
  {
    hide SectionWords;
    if a == [] {
      assert a + b == b;
    } else {
      assert (a + b)[0] == a[0] && (a + b)[1..] == a[1..] + b;
      SectionsWordsJoin(a[1..], b);
    }
  }

  lemma {:induction false} SectionsAppend(c: Codec, a: seq<Section>, b: seq<Section>, place: nat -> nat, n: nat)
    ensures SectionsMean(c, a + b, place, n) == PlusMaybe(SectionsMean(c, a, place, n), SectionsMean(c, b, place, n + |SectionsWords(a)|))
    decreases a
  {
    hide SectionMean, SectionWords, PlusMaybe;
    if a == [] {
      assert a + b == b;
      EmptyPlus(SectionsMean(c, b, place, n));
    } else {
      assert (a + b)[0] == a[0] && (a + b)[1..] == a[1..] + b;
      var m := n + |SectionWords(a[0])|;
      SectionsAppend(c, a[1..], b, place, m);
      PlusThree(SectionMean(c, a[0], place, n), SectionsMean(c, a[1..], place, m), SectionsMean(c, b, place, m + |SectionsWords(a[1..])|));
    }
  }

  lemma {:induction false} EmptyPlus(a: Option<Content>)
    ensures PlusMaybe(Some(EMPTY), a) == a && PlusMaybe(a, Some(EMPTY)) == a
  {
    if a.Some? { SumEmpty(a.value); }
  }

  lemma {:induction false} PlusThree(a: Option<Content>, b: Option<Content>, d: Option<Content>)
    ensures PlusMaybe(PlusMaybe(a, b), d) == PlusMaybe(a, PlusMaybe(b, d))
  {
    if a.Some? && b.Some? && d.Some? { JoinAssociative(a.value, b.value, d.value); }
  }

  lemma {:induction false} OneSection(c: Codec, s: Section, place: nat -> nat, n: nat)
    ensures SectionsMean(c, [s], place, n) == SectionMean(c, s, place, n) && SectionsWords([s]) == SectionWords(s)
  {
    assert [s][1..] == [];
    EmptyPlus(SectionMean(c, s, place, n));
    assert SectionsWords([]) == [] && SectionWords(s) + [] == SectionWords(s);
    hide SectionMean, SectionWords;
  }

  lemma {:induction false} LinesBack(c: Codec, k: Keys, hs: seq<HeaderRecord>, place: nat -> nat, n: nat)
    requires Inverts(c, k) && forall i :: 0 <= i < |hs| ==> HeaderOk(hs[i])
    ensures SectionsMean(c, LinesFor(k, hs), place, n) == Some(Content(hs, [], map[], []))
    decreases hs
  {
    hide Inverts, SectionWords, KeywordOk, TreeOk, FormsFor, Values, Capitals;
    if hs != [] {
      var ss := LinesFor(k, hs);
      assert HeaderOk(hs[0]) && ss[1..] == LinesFor(k, hs[1..]);
      FormsBack(c, k, hs[0].args);
      LinesBack(c, k, hs[1..], place, n + |SectionWords(ss[0])|);
      assert SectionMean(c, ss[0], place, n) == Some(Content([hs[0]], [], map[], []));
      LinePlus(hs);
    }
  }

  lemma {:induction false} LinePlus(hs: seq<HeaderRecord>)
    requires hs != []
    ensures PlusMaybe(Some(Content([hs[0]], [], map[], [])), Some(Content(hs[1..], [], map[], []))) == Some(Content(hs, [], map[], []))
  {
    var s := Sum(Content([hs[0]], [], map[], []), Content(hs[1..], [], map[], []));
    assert s.header == hs && s.insts == [] && s.complex == map[] && s.starts == [];
  }

  /** A section that says nothing. */
  ghost predicate Silent(c: Codec, ss: seq<Section>) {
    forall place: nat -> nat, n: nat {:trigger SectionsMean(c, ss, place, n)} :: SectionsMean(c, ss, place, n) == Some(EMPTY)
  }

  lemma {:induction false} SilentMore(c: Codec, s: Section, ss: seq<Section>)
    requires Silent(c, ss) && (s == SEMICOLON || (s.Banner? && BannerName(Capitals(s.keyword))))
    ensures Silent(c, [s] + ss)
  {
    hide Capitals, BannerName, SectionWords;
    var all := [s] + ss;
    assert all[1..] == ss && all[0] == s;
    SumEmpty(EMPTY);
    forall place: nat -> nat, n: nat ensures SectionsMean(c, all, place, n) == Some(EMPTY) {
      assert SectionMean(c, s, place, n) == Some(EMPTY);
      assert SectionsMean(c, ss, place, n + |SectionWords(s)|) == Some(EMPTY);
    }
  }

  lemma {:induction false} CapitalBanners()
    ensures BannerName(Capitals("ISO-10303-21")) && BannerName(Capitals("HEADER")) && BannerName(Capitals("ENDSEC"))
    ensures Capitals("DATA") == "DATA" && Capitals("ENDSEC") == "ENDSEC" && Capitals(LAST) == LAST
  {
    assert Capitals("ISO-10303-21") == "ISO-10303-21";
    assert Capitals("HEADER") == "HEADER";
    assert Capitals("ENDSEC") == "ENDSEC";
    assert Capitals("DATA") == "DATA";
    assert Capitals(LAST) == LAST;
  }

  lemma {:induction false} SilentNone(c: Codec)
    ensures Silent(c, [])
  {
  }

  /** What the printed sections mean, wherever their words stand. */
  lemma {:induction false} SectionsBack(c: Codec, k: Keys, x: Content, place: nat -> nat)
    requires Inverts(c, k) && Printable(x)
    ensures var m := SectionsMean(c, SectionsFor(k, x), place, 0);
      m.Some? && m.value.header == x.header && m.value.insts == x.insts && m.value.complex == x.complex
  {
    hide Inverts, SectionWords, Silent, Capitals, SectionsMean, HeaderOk, RecordOk, PlusMaybe, SectionMean, EntriesMean, SectionsWords;
    var front := [Banner("ISO-10303-21"), SEMICOLON, Banner("HEADER"), SEMICOLON];
    var lines, data := LinesFor(k, x.header), Data("DATA", EntriesFor(k, x.insts, x.complex), "ENDSEC");
    var middle := [Banner("ENDSEC"), SEMICOLON];
    var n1 := |SectionsWords(front)|;
    var n2 := n1 + |SectionsWords(lines)|;
    var n3 := n2 + |SectionsWords(middle)|;
    SilentParts(c, front, middle);
    FiveSections(c, front, lines, middle, data, place);
    LinesBack(c, k, x.header, place, n1);
    DataBack(c, k, x, place, n3);
    PlusThem(Content(x.header, [], map[], []), SectionMean(c, data, place, n3).value);
    assert SectionsFor(k, x) == front + (lines + (middle + ([data] + [SEMICOLON])));
  }

  lemma {:induction false} FiveSections(c: Codec, front: seq<Section>, lines: seq<Section>, middle: seq<Section>, data: Section, place: nat -> nat)
    requires Silent(c, front) && Silent(c, middle) && Silent(c, [SEMICOLON])
    ensures var n1 := |SectionsWords(front)|; var n2 := n1 + |SectionsWords(lines)|; var n3 := n2 + |SectionsWords(middle)|;
      SectionsMean(c, front + (lines + (middle + ([data] + [SEMICOLON]))), place, 0)
        == PlusMaybe(SectionsMean(c, lines, place, n1), SectionMean(c, data, place, n3))
  {
    hide SectionWords, Silent, SectionsMean, PlusMaybe, SectionMean, SectionsWords;
    var n1 := |SectionsWords(front)|;
    var n2 := n1 + |SectionsWords(lines)|;
    var n3 := n2 + |SectionsWords(middle)|;
    SectionsAppend(c, front, lines + (middle + ([data] + [SEMICOLON])), place, 0);
    SectionsAppend(c, lines, middle + ([data] + [SEMICOLON]), place, n1);
    SectionsAppend(c, middle, [data] + [SEMICOLON], place, n2);
    SectionsAppend(c, [data], [SEMICOLON], place, n3);
    SilentMeans(c, front, place, 0);
    SilentMeans(c, middle, place, n2);
    SilentMeans(c, [SEMICOLON], place, n3 + |SectionsWords([data])|);
    OneSection(c, data, place, n3);
    EmptyPlus(SectionMean(c, data, place, n3));
    EmptyPlus(SectionsMean(c, lines + (middle + ([data] + [SEMICOLON])), place, n1));
  }

  lemma {:induction false} DataBack(c: Codec, k: Keys, x: Content, place: nat -> nat, n: nat)
    requires Inverts(c, k) && Printable(x)
    ensures var m := SectionMean(c, Data("DATA", EntriesFor(k, x.insts, x.complex), "ENDSEC"), place, n);
      m.Some? && m.value.header == [] && m.value.insts == x.insts && m.value.complex == x.complex
  {
    hide Inverts, Capitals, HeaderOk, RecordOk, EntriesMean, EntriesFor, ComplexOk;
    AllComplex(x);
    CapitalBanners();
    EntriesBack(c, k, x.insts, x.complex, place, n + 2);
  }

  lemma {:induction false} PlusThem(a: Content, b: Content)
    requires a.insts == [] && a.complex == map[] && a.starts == [] && b.header == []
    ensures var m := PlusMaybe(Some(a), Some(b)); m.Some? && m.value.header == a.header && m.value.insts == b.insts && m.value.complex == b.complex
  {
    assert a.header + [] == a.header && [] + b.insts == b.insts && map[] + b.complex == b.complex;
  }

  lemma {:induction false} SilentMeans(c: Codec, ss: seq<Section>, place: nat -> nat, n: nat)
    requires Silent(c, ss)
    ensures SectionsMean(c, ss, place, n) == Some(EMPTY)
  {
  }

  lemma {:induction false} SilentParts(c: Codec, front: seq<Section>, middle: seq<Section>)
    requires front == [Banner("ISO-10303-21"), SEMICOLON, Banner("HEADER"), SEMICOLON] && middle == [Banner("ENDSEC"), SEMICOLON]
    ensures Silent(c, front) && Silent(c, middle) && Silent(c, [SEMICOLON])
  {
    hide Silent, Capitals, BannerName;
    CapitalBanners();
    SilentNone(c);
    var one := [SEMICOLON] + [];
    SilentMore(c, SEMICOLON, []);
    SilentMore(c, Banner("ENDSEC"), one);
    SilentMore(c, Banner("HEADER"), one);
    SilentMore(c, SEMICOLON, [Banner("HEADER")] + one);
    SilentMore(c, Banner("ISO-10303-21"), [SEMICOLON] + ([Banner("HEADER")] + one));
    assert one == [SEMICOLON] && [Banner("ENDSEC")] + one == middle;
    assert [Banner("ISO-10303-21")] + ([SEMICOLON] + ([Banner("HEADER")] + one)) == front;
  }

  // ---------------------------------------------------------------- nothing runs on

  /** The next word ends this one, whatever it goes on with. */
  predicate Follows(w: Word, v: Word) {
    w.Mark? || w.Bits? || (w.Dotted? && w.closed) || (v.Mark? && Breaks(v.c))
  }

  predicate AllOk(ws: seq<Word>) { forall i :: 0 <= i < |ws| ==> WordOk(ws[i]) }

  /** Well-formed words, each ended by the next, and the last by itself. */
  predicate Neat(ws: seq<Word>) {
    && AllOk(ws) && (forall i :: 0 <= i < |ws| - 1 ==> Follows(ws[i], ws[i + 1]))
    && (ws != [] ==> ws[|ws| - 1].Mark?)
  }

  lemma {:induction false} NeatJoin(a: seq<Word>, b: seq<Word>)
    requires Neat(a) && Neat(b)
    ensures Neat(a + b)
  {
    hide WordOk, Follows;
    var all := a + b;
    forall i | 0 <= i < |all| ensures WordOk(all[i]) { assert all[i] == if i < |a| then a[i] else b[i - |a|]; }
    forall i | 0 <= i < |all| - 1 ensures Follows(all[i], all[i + 1]) {
      if i < |a| - 1 {
        assert all[i] == a[i] && all[i + 1] == a[i + 1];
      } else if i == |a| - 1 {
        assert all[i] == a[i];
        MarkFollows(a[i], all[i + 1]);
      } else {
        assert all[i] == b[i - |a|] && all[i + 1] == b[i + 1 - |a|];
      }
    }
  }

  lemma {:induction false} MarkFollows(w: Word, v: Word)
    requires w.Mark?
    ensures Follows(w, v)
  {
  }

  /** One word and a breaking mark. */
  lemma {:induction false} NeatPair(w: Word, m: Word)
    requires WordOk(w) && m.Mark? && IsMark(m.c) && Breaks(m.c)
    ensures Neat([w, m])
  {
  }

  lemma {:induction false} NeatMark(m: Word)
    requires m.Mark? && IsMark(m.c)
    ensures Neat([m])
  {
  }

  lemma {:induction false} DigitsWord(n: nat)
    ensures WordOk(RefWord(Digits(n)))
  {
    DigitsBack(n);
  }

  /** A value's words are neat once a comma or a closing mark follows. */
  lemma {:induction false} FormNeat(c: Codec, k: Keys, t: Tree, m: Word)
    requires Inverts(c, k) && TreeOk(t) && m.Mark? && IsMark(m.c) && Breaks(m.c)
    ensures Neat(Words(FormFor(k, t)) + [m])
    decreases t, 0
  {
    hide Neat, Breaks, IsMark;
    match t {
      case TList(ts) =>
        FormsNeat(c, k, ts);
        var ws := AllWords(FormsFor(k, ts)) + [CLOSE];
        MarksNeat();
        NeatMark(m);
        NeatJoin([OPEN], ws);
        NeatJoin([OPEN] + ws, [m]);
        assert Words(FormFor(k, t)) + [m] == [OPEN] + ws + [m];
      case TTyped(w, ts) =>
        FormsNeat(c, k, ts);
        var ws := AllWords(FormsFor(k, ts)) + [CLOSE];
        MarksNeat();
        NeatMark(m);
        NeatPair(Keyword(w), OPEN);
        NeatJoin([Keyword(w), OPEN], ws);
        NeatJoin([Keyword(w), OPEN] + ws, [m]);
        assert Words(FormFor(k, t)) + [m] == [Keyword(w), OPEN] + ws + [m];
      case _ =>
        LeafWordOk(c, k, t);
        var w := FormFor(k, t).word;
        assert Words(FormFor(k, t)) + [m] == [w, m];
        NeatPair(w, m);
    }
  }

  lemma {:induction false} MarksNeat()
    ensures Neat([OPEN]) && Neat([CLOSE]) && Neat([SEMI]) && Neat([Mark(',')]) && Neat([EQUALS])
    ensures IsMark('(') && Breaks('(') && IsMark(')') && Breaks(')') && IsMark(',') && Breaks(',') && IsMark(';') && Breaks(';') && IsMark('=') && Breaks('=')
  {
  }

  lemma {:induction false} LeafWordOk(c: Codec, k: Keys, t: Tree)
    requires Inverts(c, k) && TreeOk(t) && !t.TList? && !t.TTyped?
    ensures FormFor(k, t).Leaf? && WordOk(FormFor(k, t).word)
  {
    match t
    case TInt(i) => assert NumberOk(k.whole(i));
    case TReal(b) => assert NumberOk(k.float(b));
    case TStr(s) => if Plain(s) { PlainPaired(s); }
    case TRef(id) => DigitsWord(id);
    case _ =>
  }

  lemma {:induction false} PlainPaired(s: Bytes)
    requires Plain(s)
    ensures Paired(s)
  {
    if s != [] { PlainPaired(s[1..]); }
  }

  lemma {:induction false} FormsNeat(c: Codec, k: Keys, ts: seq<Tree>)
    requires Inverts(c, k) && TreesOk(ts)
    ensures Neat(AllWords(FormsFor(k, ts)) + [CLOSE])
    decreases ts
  {
    hide Neat, Words, FormFor, Inverts, TreeOk, Breaks, IsMark;
    MarksNeat();
    if ts == [] {
      assert AllWords(FormsFor(k, ts)) + [CLOSE] == [CLOSE];
    } else if |ts| == 1 {
      FormNeat(c, k, ts[0], CLOSE);
      OneForm(FormFor(k, ts[0]));
    } else {
      var f, rest := FormFor(k, ts[0]), FormsFor(k, ts[1..]);
      FormNeat(c, k, ts[0], Mark(','));
      FormsNeat(c, k, ts[1..]);
      NeatJoin(Words(f) + [Mark(',')], AllWords(rest) + [CLOSE]);
      CommaForm(f, rest);
    }
  }

  lemma {:induction false} OneForm(f: Form)
    ensures AllWords([f]) + [CLOSE] == Words(f) + [CLOSE]
  {
    assert [f][1..] == [] && AllWords([]) == [];
    hide Words;
  }

  lemma {:induction false} CommaForm(f: Form, rest: seq<Form>)
    ensures AllWords([f, Comma] + rest) + [CLOSE] == (Words(f) + [Mark(',')]) + (AllWords(rest) + [CLOSE])
  {
    var fs := [f, Comma] + rest;
    assert fs[1..] == [Comma] + rest && ([Comma] + rest)[1..] == rest;
    assert Words(Comma) == [Mark(',')];
    assert AllWords([Comma] + rest) == [Mark(',')] + AllWords(rest);
    hide Words;
  }

  lemma {:induction false} PartsNeat(c: Codec, k: Keys, names: seq<Bytes>, ts: seq<Tree>)
    requires Inverts(c, k) && TreesOk(ts) && forall i :: 0 <= i < |names| ==> NameOk(names[i])
    ensures Neat(PartsWords(PartsFor(k, names, ts)))
    decreases names
  {
    hide Neat, FormsFor, Inverts, TreeOk, AllWords, Capitals, Breaks, IsMark;
    if names == [] {
      assert PartsWords([]) == [];
      NoneNeat();
    } else {
      var xs := PartsFor(k, names, ts);
      assert NameOk(names[0]) && xs[1..] == PartsFor(k, names[1..], []) && xs[0] == Part(names[0], FormsFor(k, ts));
      MarksNeat();
      FormsNeat(c, k, ts);
      PartsNeat(c, k, names[1..], []);
      NeatPair(Keyword(names[0]), OPEN);
      NeatJoin([Keyword(names[0]), OPEN], AllWords(FormsFor(k, ts)) + [CLOSE]);
      NeatJoin(PartWords(xs[0]), PartsWords(xs[1..]));
    }
  }

  lemma {:induction false} NoneNeat()
    ensures Neat([])
  {
  }

  lemma {:induction false} EntryNeat(c: Codec, k: Keys, r: Record, complex: map<nat, seq<Bytes>>)
    requires Inverts(c, k) && RecordOk(r) && ComplexOk(complex)
    ensures Neat(EntryWords(EntryFor(k, r, complex)))
  {
    hide Neat, FormsFor, Inverts, TreeOk, AllWords, Capitals, PartsFor, PartsWords, Digits, WordOk, Breaks, IsMark;
    var id := RefWord(Digits(r.id));
    DigitsWord(r.id);
    MarksNeat();
    NeatPair(id, EQUALS);
    if IsComplex(r, complex) {
      assert NamesOk(complex[r.id]);
      var ps := PartsWords(PartsFor(k, complex[r.id], r.args));
      PartsNeat(c, k, complex[r.id], r.args);
      NeatJoin([id, EQUALS], [OPEN]);
      NeatJoin(ps, [CLOSE]);
      NeatJoin([id, EQUALS] + [OPEN], ps + [CLOSE]);
      NeatJoin([id, EQUALS] + [OPEN] + (ps + [CLOSE]), [SEMI]);
      assert [id, EQUALS] + [OPEN] == [id, EQUALS, OPEN];
    } else {
      var ws := AllWords(FormsFor(k, r.args)) + [CLOSE];
      FormsNeat(c, k, r.args);
      NeatPair(Keyword(r.typ), OPEN);
      NeatJoin([id, EQUALS], [Keyword(r.typ), OPEN]);
      NeatJoin([id, EQUALS] + [Keyword(r.typ), OPEN], ws);
      NeatJoin([id, EQUALS] + [Keyword(r.typ), OPEN] + ws, [SEMI]);
      assert [id, EQUALS] + [Keyword(r.typ), OPEN] == [id, EQUALS, Keyword(r.typ), OPEN];
    }
  }

  lemma {:induction false} EntriesNeat(c: Codec, k: Keys, rs: seq<Record>, complex: map<nat, seq<Bytes>>)
    requires Inverts(c, k) && ComplexOk(complex) && forall i :: 0 <= i < |rs| ==> RecordOk(rs[i])
    ensures Neat(EntriesWords(EntriesFor(k, rs, complex)))
    decreases rs
  {
    hide Neat, EntryWords, EntryFor, Inverts, RecordOk, ComplexOk;
    if rs == [] {
      NoneNeat();
    } else {
      var es := EntriesFor(k, rs, complex);
      assert RecordOk(rs[0]) && es[0] == EntryFor(k, rs[0], complex) && es[1..] == EntriesFor(k, rs[1..], complex);
      EntryNeat(c, k, rs[0], complex);
      EntriesNeat(c, k, rs[1..], complex);
      NeatJoin(EntryWords(es[0]), EntriesWords(es[1..]));
    }
  }

  lemma {:induction false} LinesNeat(c: Codec, k: Keys, hs: seq<HeaderRecord>)
    requires Inverts(c, k) && forall i :: 0 <= i < |hs| ==> HeaderOk(hs[i])
    ensures Neat(SectionsWords(LinesFor(k, hs)))
    decreases hs
  {
    hide Neat, FormsFor, Inverts, TreeOk, AllWords, Capitals, BannerName, Breaks, IsMark;
    if hs == [] {
      NoneNeat();
    } else {
      var ss, w := LinesFor(k, hs), hs[0].keyword;
      assert HeaderOk(hs[0]) && ss[1..] == LinesFor(k, hs[1..]) && ss[0] == HeaderLine(w, FormsFor(k, hs[0].args));
      var ws := AllWords(FormsFor(k, hs[0].args)) + [CLOSE];
      MarksNeat();
      FormsNeat(c, k, hs[0].args);
      NeatPair(Keyword(w), OPEN);
      NeatJoin([Keyword(w), OPEN], ws);
      NeatJoin([Keyword(w), OPEN] + ws, [SEMI]);
      LinesNeat(c, k, hs[1..]);
      NeatJoin(SectionWords(ss[0]), SectionsWords(ss[1..]));
    }
  }

  /** Capital letters, digits and hyphens, a letter first. */
  predicate Lettered(k: Bytes) {
    k != [] && 'A' <= k[0] <= 'Z' && forall i :: 0 <= i < |k| ==> 'A' <= k[i] <= 'Z' || '0' <= k[i] <= '9' || k[i] == '-'
  }

  lemma {:induction false} LetteredOk(k: Bytes)
    requires Lettered(k)
    ensures KeywordOk(k)
  {
    forall i | 0 <= i < |k| ensures !Breaks(k[i]) { assert 'A' <= k[i] <= 'Z' || '0' <= k[i] <= '9' || k[i] == '-'; }
  }

  lemma {:induction false} NamesOkAll()
    ensures KeywordOk("ISO-10303-21") && KeywordOk("HEADER") && KeywordOk("ENDSEC") && KeywordOk("DATA") && KeywordOk(LAST)
  {
    hide KeywordOk;
    LetteredOk("ISO-10303-21");
    LetteredOk("HEADER");
    LetteredOk("ENDSEC");
    LetteredOk("DATA");
    LetteredOk(LAST);
  }

  /** A keyword and a semicolon. */
  lemma {:induction false} NeatLine(w: Bytes)
    requires KeywordOk(w)
    ensures Neat([Keyword(w), SEMI])
  {
    MarksNeat();
    NeatPair(Keyword(w), SEMI);
  }

  lemma {:induction false} PrintNeat(c: Codec, k: Keys, x: Content)
    requires Inverts(c, k) && Printable(x)
    ensures Neat(SectionsWords(SectionsFor(k, x)) + [Keyword(LAST), SEMI])
  {
    hide Neat, Inverts, KeywordOk, EntriesFor, EntriesWords, HeaderOk, RecordOk, LinesFor, ComplexOk;
    NamesOkAll();
    NeatLine("ISO-10303-21");
    NeatLine("HEADER");
    NeatLine("ENDSEC");
    NeatLine("DATA");
    NeatLine(LAST);
    AllComplex(x);
    LinesNeat(c, k, x.header);
    EntriesNeat(c, k, x.insts, x.complex);
    var lines, es := SectionsWords(LinesFor(k, x.header)), EntriesWords(EntriesFor(k, x.insts, x.complex));
    var head := [Keyword("ISO-10303-21"), SEMI] + [Keyword("HEADER"), SEMI];
    var open := [Keyword("ENDSEC"), SEMI] + [Keyword("DATA"), SEMI];
    var foot := [Keyword("ENDSEC"), SEMI];
    NeatJoin([Keyword("ISO-10303-21"), SEMI], [Keyword("HEADER"), SEMI]);
    NeatJoin([Keyword("ENDSEC"), SEMI], [Keyword("DATA"), SEMI]);
    NeatJoin(head, lines);
    NeatJoin(open, es);
    NeatJoin(head + lines, open + es);
    NeatJoin(head + lines + (open + es), foot);
    NeatJoin(head + lines + (open + es) + foot, [Keyword(LAST), SEMI]);
    PrintWords(k, x);
  }

  /** The words of a printed file. */
  lemma {:induction false} PrintWords(k: Keys, x: Content)
    requires Printable(x)
    ensures SectionsWords(SectionsFor(k, x)) ==
      ([Keyword("ISO-10303-21"), SEMI] + [Keyword("HEADER"), SEMI]) + SectionsWords(LinesFor(k, x.header))
      + (([Keyword("ENDSEC"), SEMI] + [Keyword("DATA"), SEMI]) + EntriesWords(EntriesFor(k, x.insts, x.complex))) + [Keyword("ENDSEC"), SEMI]
  {
    hide EntriesFor, EntriesWords, HeaderOk, RecordOk, LinesFor, NamesOk, SectionsWords;
    var front := [Banner("ISO-10303-21"), SEMICOLON, Banner("HEADER"), SEMICOLON];
    var lines, data := LinesFor(k, x.header), Data("DATA", EntriesFor(k, x.insts, x.complex), "ENDSEC");
    var back := [Banner("ENDSEC"), SEMICOLON, data, SEMICOLON];
    SectionsWordsJoin(front, lines + back);
    SectionsWordsJoin(lines, back);
    FourWords(Banner("ISO-10303-21"), SEMICOLON, Banner("HEADER"), SEMICOLON);
    FourWords(Banner("ENDSEC"), SEMICOLON, data, SEMICOLON);
    FrontAndBack(SectionsWords(lines), EntriesWords(EntriesFor(k, x.insts, x.complex)));
  }

  lemma {:induction false} FrontAndBack(lines: seq<Word>, es: seq<Word>)
    ensures ([Keyword("ISO-10303-21")] + [SEMI] + [Keyword("HEADER")] + [SEMI])
        + (lines + ([Keyword("ENDSEC")] + [SEMI] + ([Keyword("DATA"), SEMI] + (es + [Keyword("ENDSEC")])) + [SEMI]))
      == ([Keyword("ISO-10303-21"), SEMI] + [Keyword("HEADER"), SEMI]) + lines
        + (([Keyword("ENDSEC"), SEMI] + [Keyword("DATA"), SEMI]) + es) + [Keyword("ENDSEC"), SEMI]
  {
  }

  lemma {:induction false} FourWords(a: Section, b: Section, d: Section, e: Section)
    ensures SectionsWords([a, b, d, e]) == SectionWords(a) + SectionWords(b) + SectionWords(d) + SectionWords(e)
  {
    hide SectionWords, SectionsWords;
    SectionsWordsJoin([a], [b]);
    SectionsWordsJoin([a] + [b], [d]);
    SectionsWordsJoin([a] + [b] + [d], [e]);
    assert [a] + [b] + [d] + [e] == [a, b, d, e];
    JustOne(a);
    JustOne(b);
    JustOne(d);
    JustOne(e);
  }

  lemma {:induction false} JustOne(s: Section)
    ensures SectionsWords([s]) == SectionWords(s)
  {
    assert [s][1..] == [];
    assert SectionsWords([]) == [] && SectionWords(s) + [] == SectionWords(s);
    hide SectionWords;
  }

  // ---------------------------------------------------------------- printed, so read

  lemma {:induction false} FirstEnds(w: Word, v: Word, next: Bytes)
    requires Follows(w, v)
    ensures Ends(w, WordText(v) + next)
  {
    if v.Mark? { assert (WordText(v) + next)[0] == v.c; }
    BreaksEnd(w, WordText(v) + next);
  }

  lemma {:induction false} BreaksEnd(w: Word, next: Bytes)
    requires w.Mark? || w.Bits? || (w.Dotted? && w.closed) || (next != [] && Breaks(next[0]))
    ensures Ends(w, next)
  {
  }

  /** Neat words stand in a row with nothing between them. */
  lemma {:induction false} NeatSpaced(ws: seq<Word>, m: Word)
    requires m.Mark? && AllOk(ws) && forall i :: 0 <= i < |ws| ==> Follows(ws[i], (ws + [m])[i + 1])
    ensures Spaced(PiecesFor(ws), WordText(m))
    decreases ws
  {
    hide WordOk, Follows, WordText, Ends;
    if ws != [] {
      var rest := ws[1..];
      var ps := PiecesFor(ws);
      assert ps[1..] == PiecesFor(rest);
      forall i | 0 <= i < |rest| ensures Follows(rest[i], (rest + [m])[i + 1]) && WordOk(rest[i]) {
        assert rest[i] == ws[i + 1] && (rest + [m])[i + 1] == (ws + [m])[i + 2];
      }
      NeatSpaced(rest, m);
      assert Follows(ws[0], (ws + [m])[1]);
      if rest == [] {
        assert Text(ps[1..]) + WordText(m) == WordText(m) + [];
        FirstEnds(ws[0], m, []);
      } else {
        TextFirst(rest);
        assert Text(ps[1..]) + WordText(m) == WordText(rest[0]) + (Text(PiecesFor(rest[1..])) + WordText(m));
        FirstEnds(ws[0], rest[0], Text(PiecesFor(rest[1..])) + WordText(m));
      }
    }
  }

  lemma {:induction false} TextFirst(ws: seq<Word>)
    requires ws != []
    ensures Text(PiecesFor(ws)) == WordText(ws[0]) + Text(PiecesFor(ws[1..]))
  {
    assert PiecesFor(ws)[1..] == PiecesFor(ws[1..]);
    assert GapText([]) + WordText(ws[0]) == WordText(ws[0]);
    hide WordText;
  }

  lemma {:induction false} NeatFollows(ws: seq<Word>, m: Word)
    requires Neat(ws + [m])
    ensures AllOk(ws) && forall i :: 0 <= i < |ws| ==> Follows(ws[i], (ws + [m])[i + 1])
  {
    hide WordOk, Follows;
    var all := ws + [m];
    forall i | 0 <= i < |ws| ensures WordOk(ws[i]) && Follows(ws[i], all[i + 1]) { assert all[i] == ws[i]; }
  }

  /** Reading what is printed gives the content back: its header, its instances with their
      trees, and its part types; and it ends at the last semicolon. */
  lemma {:induction false} PrintedIsRead(c: Codec, k: Keys, x: Content) returns (starts: seq<nat>)
    requires Inverts(c, k) && Printable(x)
    ensures File(c, Print(k, x)) == Ok(Content(x.header, x.insts, x.complex, starts), |Print(k, x)| - 1)
  {
    hide Inverts, Printable, SectionsFor, Neat, AllOk, Follows, Capitals, File, SectionsMean, Text, Spaced, SectionsWords;
    var ws := SectionsWords(SectionsFor(k, x)) + [Keyword(LAST)];
    var ps := PrintedPieces(k, x);
    PrintNeat(c, k, x);
    assert SectionsWords(SectionsFor(k, x)) + [Keyword(LAST), SEMI] == ws + [SEMI];
    NeatFollows(ws, SEMI);
    NeatSpaced(ws, SEMI);
    CapitalBanners();
    assert WordsOf(ps) == ws;
    assert Written(Print(k, x), SectionsFor(k, x), Some(LAST), ps, ";");
    SectionsBack(c, k, x, PlaceOf(ps));
    WrittenIsRead(c, Print(k, x), SectionsFor(k, x), Some(LAST), ps, ";");
    starts := Meaning(c, SectionsFor(k, x), ps).value.starts;
  }
}
