// The parsed file: parsers joined by `Finish`, the serial parse, the chunked parse, and
// the entry point that prefers the second and falls back to the first.
module StepFile {
  import opened Common
  import opened StepLexer
  import opened StepGrammar
  import opened StepSlab
  import opened StepChunks
  import opened StepParser
  import Index = StepIndex

  datatype Head = Head(description: seq<Bytes>, implementationLevel: Bytes, name: seq<Bytes>, schema: seq<Bytes>)

  const NoHead := Head([], [], [], [])

  datatype ParsedFile = ParsedFile(head: Head, insts: seq<Inst>, slabs: seq<Slab>, complexTypes: map<nat, seq<Bytes>>)

  // ---------------------------------------------------------------- header meaning

  /** The strings of a value, nested lists included; members of other kinds read as "". */
  function Flatten(t: Tree): seq<Bytes>
    decreases t, 0
  {
    match t
    case TStr(x) => [x]
    case TList(ts) => FlattenMembers(ts)
    case _ => []
  }

  function FlattenMembers(ts: seq<Tree>): seq<Bytes>
    decreases ts, 0
  {
    if ts == [] then [] else FlattenMember(ts[0]) + FlattenMembers(ts[1..])
  }

  function FlattenMember(t: Tree): seq<Bytes>
    decreases t, 1
  {
    if t.TStr? || t.TList? then Flatten(t) else [[]]
  }

  lemma {:induction false} FlattenStep(ts: seq<Tree>, i: nat, out: seq<Bytes>)
    requires i < |ts|
    ensures out + FlattenMembers(ts[i..]) == out + FlattenMember(ts[i]) + FlattenMembers(ts[i + 1..])
  {
    assert ts[i..][1..] == ts[i + 1..];
  }

  /** One string per positional field: sub-lists hold their place as "". */
  function TopStrings(ts: seq<Tree>): (r: seq<Bytes>)
    ensures |r| == |ts|
  {
    seq(|ts|, i requires 0 <= i < |ts| => if ts[i].TStr? then ts[i].text else [])
  }

  function SetHead(h: Head, r: HeaderRecord): Head {
    if r.keyword == "FILE_DESCRIPTION" then
      var d := if |r.args| > 0 then h.(description := Flatten(r.args[0])) else h;
      if |r.args| > 1 && r.args[1].TStr? then d.(implementationLevel := r.args[1].text) else d
    else if r.keyword == "FILE_NAME" then h.(name := TopStrings(r.args))
    else if r.keyword == "FILE_SCHEMA" && |r.args| > 0 then h.(schema := Flatten(r.args[0]))
    else h
  }

  /** The header fields the records of a file set, the last setter of a field winning. */
  function HeadOf(rs: seq<HeaderRecord>): Head {
    if rs == [] then NoHead else SetHead(HeadOf(rs[..|rs| - 1]), rs[|rs| - 1])
  }

  // ---------------------------------------------------------------- what a file stands for

  predicate SlabsValid(slabs: seq<Slab>) {
    forall k :: 0 <= k < |slabs| ==> Valid(k, slabs[k])
  }

  predicate InstsFit(slabs: seq<Slab>, insts: seq<Inst>) {
    forall i :: 0 <= i < |insts| ==> insts[i].slab < |slabs| && InstFits(insts[i].slab, slabs[insts[i].slab], insts[i])
  }

  function DenoteInsts(slabs: seq<Slab>, insts: seq<Inst>): seq<Record>
    requires SlabsValid(slabs) && InstsFit(slabs, insts)
  {
    seq(|insts|, i requires 0 <= i < |insts| => DenoteInst(insts[i].slab, slabs[insts[i].slab], insts[i]))
  }

  /** The file holds exactly this content, its handles read through its slabs. */
  predicate Denotes(f: ParsedFile, c: Content) {
    && SlabsValid(f.slabs) && InstsFit(f.slabs, f.insts)
    && DenoteInsts(f.slabs, f.insts) == c.insts
    && f.complexTypes == c.complex
    && f.head == HeadOf(c.header)
  }

  // ---------------------------------------------------------------- header decoding

  lemma {:induction false} MemberKind(k: nat, s: Slab, m: Value)
    requires Valid(k, s) && Fits(k, s, m, |s.vals|)
    ensures m.kind == KindString ==> Fits(SlabOf(m), s, m, |s.vals|) && Valid(SlabOf(m), s) && Denote(k, s, m) == TStr(Str(s, m))
    ensures m.kind == KindList <==> Denote(k, s, m).TList?
    ensures m.kind == KindString <==> Denote(k, s, m).TStr?
  {
  }

  lemma {:induction false} FlattenKind(k: nat, s: Slab, v: Value)
    requires Valid(k, s) && Fits(k, s, v, |s.vals|)
    ensures v.kind != KindString && v.kind != KindList ==> Flatten(Denote(k, s, v)) == []
    ensures FlattenMembers([]) == []
    ensures v.kind == KindList ==> Fits(SlabOf(v), s, v, |s.vals|) && AllFit(k, s, List(s, v))
    ensures v.kind == KindList ==> Flatten(Denote(k, s, v)) == FlattenMembers(DenoteAll(k, s, List(s, v)))
    ensures v.kind == KindList ==> forall m <- List(s, v) :: End(m) < End(v)
  {
    MemberKind(k, s, v);
    if v.kind == KindList { ReadBack(k, s, v); }
    hide Valid, Fits, FlattenMembers;
  }

  /** The flattening loop, recursing into nested lists through their handles. */
  method FlattenStrings(k: nat, s: Slab, v: Value) returns (out: seq<Bytes>)
    requires Valid(k, s) && Fits(k, s, v, |s.vals|)
    ensures out == Flatten(Denote(k, s, v))
    decreases End(v)
  {
    hide Denote, Fits, Valid, Str, StepSlab.List, FlattenMembers, End;
    FlattenKind(k, s, v);
    MemberKind(k, s, v);
    if v.kind == KindString {
      return [Str(s, v)];
    } else if v.kind != KindList {
      return [];
    }
    out := [];
    var members, i := List(s, v), 0;
    ghost var ts := DenoteAll(k, s, members);
    while i < |members|
      invariant i <= |members|
      invariant out + FlattenMembers(ts[i..]) == FlattenMembers(ts)
    {
      var m := members[i];
      assert m in members;
      assert ts[i] == Denote(k, s, m);
      MemberKind(k, s, m);
      FlattenStep(ts, i, out);
      if m.kind == KindString {
        out := out + [Str(s, m)];
      } else if m.kind == KindList {
        var inner := FlattenStrings(k, s, m);
        out := out + inner;
      } else {
        out := out + [[]];
      }
      i := i + 1;
    }
    assert ts[i..] == [];
  }

  lemma {:induction false} TopStringAt(k: nat, s: Slab, args: seq<Value>, i: nat)
    requires Valid(k, s) && AllFit(k, s, args) && i < |args|
    ensures TopStrings(DenoteAll(k, s, args))[i] == if args[i].kind == KindString then Str(s, args[i]) else []
  {
  }

  method HeaderTopLevelStrings(k: nat, s: Slab, args: seq<Value>) returns (out: seq<Bytes>)
    requires Valid(k, s) && AllFit(k, s, args)
    ensures out == TopStrings(DenoteAll(k, s, args))
  {
    hide TopStrings, DenoteAll, Valid;
    out := [];
    var i := 0;
    ghost var all := TopStrings(DenoteAll(k, s, args));
    while i < |args|
      invariant i <= |args| && out == all[..i]
    {
      TopStringAt(k, s, args, i);
      out := out + [if args[i].kind == KindString then Str(s, args[i]) else []];
      i := i + 1;
    }
  }

  /** Decodes one header record through the slab it was parsed into. */
  method DecodeHeader(h: Head, k: nat, s: Slab, e: HeaderEntry) returns (h': Head)
    requires Valid(k, s) && EntryFits(k, s, e)
    ensures h' == SetHead(h, DenoteEntry(k, s, e))
  {
    ReadBack(k, s, e.args);
    var args := List(s, e.args);
    h' := h;
    if e.keyword == "FILE_DESCRIPTION" {
      if |args| > 0 {
        var d := FlattenStrings(k, s, args[0]);
        h' := h'.(description := d);
      }
      if |args| > 1 && args[1].kind == KindString {
        h' := h'.(implementationLevel := Str(s, args[1]));
      }
    } else if e.keyword == "FILE_NAME" {
      var names := HeaderTopLevelStrings(k, s, args);
      h' := h'.(name := names);
    } else if e.keyword == "FILE_SCHEMA" {
      if |args| > 0 {
        var d := FlattenStrings(k, s, args[0]);
        h' := h'.(schema := d);
      }
    }
  }

  // ---------------------------------------------------------------- joining parsers

  ghost predicate Ready(ps: seq<Parser>)
    reads set p <- ps :: p, set p <- ps :: p.s
  {
    forall i :: 0 <= i < |ps| ==> ps[i].Inv() && ps[i].slab == i
  }

  ghost predicate Hold(ps: seq<Parser>, xs: seq<Content>)
    reads set p <- ps :: p, set p <- ps :: p.s
  {
    |xs| == |ps| && Ready(ps) && forall i :: 0 <= i < |ps| ==> ps[i].Found() == xs[i]
  }

  /** Instances of one more parser, over one more slab. */
  lemma {:induction false} InstsJoined(slabs: seq<Slab>, insts: seq<Inst>, s: Slab, more: seq<Inst>)
    requires SlabsValid(slabs) && InstsFit(slabs, insts)
    requires Valid(|slabs|, s) && forall i :: 0 <= i < |more| ==> InstFits(|slabs|, s, more[i])
    ensures SlabsValid(slabs + [s]) && InstsFit(slabs + [s], insts + more)
    ensures DenoteInsts(slabs + [s], insts + more)
         == DenoteInsts(slabs, insts) + seq(|more|, i requires 0 <= i < |more| => DenoteInst(|slabs|, s, more[i]))
  {
    var all := insts + more;
    forall i | 0 <= i < |all|
      ensures all[i].slab < |slabs| + 1 && InstFits(all[i].slab, (slabs + [s])[all[i].slab], all[i])
    {
      if i >= |insts| { assert all[i] == more[i - |insts|]; }
    }
  }

  lemma {:induction false} HeadAppended(h: Head, rs: seq<HeaderRecord>, more: seq<HeaderRecord>, j: nat)
    requires j < |more| && h == HeadOf(rs + more[..j])
    ensures SetHead(h, more[j]) == HeadOf(rs + more[..j + 1])
  {
    var all := rs + more[..j + 1];
    assert all[..|all| - 1] == rs + more[..j];
  }

  /** Joins the parsers' slabs, instances, part types and header records in file order. */
  method Finish(ps: seq<Parser>, ghost xs: seq<Content>) returns (f: ParsedFile)
    requires Hold(ps, xs)
    ensures Denotes(f, JoinAll(xs))
  {
    var slabs: seq<Slab>, insts: seq<Inst>, complexTypes: map<nat, seq<Bytes>>, head := [], [], map[], NoHead;
    var i := 0;
    while i < |ps|
      invariant |slabs| == i <= |ps|
      invariant SlabsValid(slabs) && InstsFit(slabs, insts)
      invariant DenoteInsts(slabs, insts) == JoinAll(xs[..i]).insts
      invariant complexTypes == JoinAll(xs[..i]).complex
      invariant head == HeadOf(JoinAll(xs[..i]).header)
    {
      var p := ps[i];
      ghost var before := JoinAll(xs[..i]);
      assert xs[..i + 1][..i] == xs[..i];
      assert xs[..i + 1][i] == xs[i];
      assert JoinAll(xs[..i + 1]) == Join(before, xs[i]);
      var s := Slab(p.vals, p.strs);
      InstsJoined(slabs, insts, s, p.insts);
      slabs, insts := slabs + [s], insts + p.insts;
      complexTypes := complexTypes + p.complex;
      head := DecodeHeaders(head, i, s, p.header, before.header);
      assert JoinAll(xs[..i + 1]).header == before.header + xs[i].header;
      i := i + 1;
    }
    assert xs[..i] == xs;
    f := ParsedFile(head, insts, slabs, complexTypes);
  }

  method DecodeHeaders(h: Head, k: nat, s: Slab, es: seq<HeaderEntry>, ghost rs: seq<HeaderRecord>) returns (h': Head)
    requires Valid(k, s) && forall i :: 0 <= i < |es| ==> EntryFits(k, s, es[i])
    requires h == HeadOf(rs)
    ensures h' == HeadOf(rs + seq(|es|, i requires 0 <= i < |es| => DenoteEntry(k, s, es[i])))
  {
    hide HeadOf, SetHead, DenoteEntry, Valid, EntryFits;
    ghost var more := seq(|es|, i requires 0 <= i < |es| => DenoteEntry(k, s, es[i]));
    h' := h;
    var j := 0;
    assert rs + more[..0] == rs;
    while j < |es|
      invariant j <= |es| && h' == HeadOf(rs + more[..j])
    {
      HeadAppended(h', rs, more, j);
      h' := DecodeHeader(h', k, s, es[j]);
      j := j + 1;
    }
    assert more[..j] == more;
  }

  // ---------------------------------------------------------------- the serial parse

  datatype Outcome = Parsed(file: ParsedFile) | ParseError(offset: nat)

  /** What any parse of `src` must return: a file with the reference content, or the
      offset of the reference reading's first error. */
  predicate Faithful(c: Codec, src: Bytes, r: Outcome) {
    match File(c, src)
    case Ok(x, _) => r.Parsed? && Denotes(r.file, x)
    case Err(p) => r == ParseError(p)
  }

  method ParseSerial(c: Codec, src: Bytes) returns (r: Outcome)
    requires Shrinks(c) && |src| <= MAX_OFF
    ensures Faithful(c, src, r)
  {
    hide Parser.Found, Document, Denotes;
    var p := new Parser(c, src, 0, 0, false);
    ghost var d := Document(c, src, 0, false);
    if d.Ok? { JoinUnits(d.value.content); }
    var ok := p.ParseDocument();
    if !ok {
      return ParseError(p.s.pos);
    }
    ghost var x := p.Found();
    JoinUnits(x);
    assert x == d.value.content;
    assert JoinAll([x]) == x by { assert [x][..0] == []; }
    var f := Finish([p], [x]);
    r := Parsed(f);
  }

  // ---------------------------------------------------------------- choosing a cut

  function SkipBlanks(src: Bytes, j: nat): (q: nat)
    requires j <= |src|
    ensures j <= q <= |src|
    decreases |src| - j
  {
    if j < |src| && IsSpace(src[j]) then SkipBlanks(src, j + 1) else j
  }

  /** A record guess at `b`: its '#' follows a ';' at `i` with only blanks between. */
  predicate GuessAt(src: Bytes, i: nat) {
    i < |src| && src[i] == ';' && SkipBlanks(src, i + 1) < |src| && src[SkipBlanks(src, i + 1)] == '#'
  }

  /** The first guess whose ';' is at or past `from`. */
  function Guess(src: Bytes, from: nat): (r: Option<nat>)
    requires from <= |src|
    ensures r.Some? ==> from < r.value < |src| && src[r.value] == '#'
    decreases |src| - from
  {
    if from == |src| then None
    else if GuessAt(src, from) then Some(SkipBlanks(src, from + 1))
    else Guess(src, from + 1)
  }

  method NextRecord(src: Bytes, from: nat) returns (r: Option<nat>)
    requires from <= |src|
    ensures r == Guess(src, from)
  {
    var i := from;
    while i < |src|
      invariant from <= i <= |src|
      invariant Guess(src, from) == Guess(src, i)
    {
      if src[i] == ';' {
        var j := i + 1;
        while j < |src| && (src[j] == ' ' || src[j] == '\t' || src[j] == '\r' || src[j] == '\n')
          invariant i < j <= |src|
          invariant SkipBlanks(src, i + 1) == SkipBlanks(src, j)
        {
          j := j + 1;
        }
        if j < |src| && src[j] == '#' {
          return Some(j);
        }
      }
      i := i + 1;
    }
    return None;
  }

  /** A later search never guesses an earlier record. */
  lemma {:induction false} GuessRises(src: Bytes, from: nat, from': nat)
    requires from <= from' <= |src|
    ensures Guess(src, from').Some? ==> Guess(src, from).Some? && Guess(src, from).value <= Guess(src, from').value
    decreases from' - from
  {
    if from < from' {
      GuessRises(src, from + 1, from');
      if GuessAt(src, from) && Guess(src, from').Some? { BlanksEnd(src, from + 1, from'); }
    }
  }

  lemma {:induction false} BlanksEnd(src: Bytes, j: nat, from: nat)
    requires j <= from <= |src| && Guess(src, from).Some?
    ensures SkipBlanks(src, j) < Guess(src, from).value || SkipBlanks(src, j) == Guess(src, from).value
    decreases |src| - j, |src| - from
  {
    if from < |src| && !GuessAt(src, from) {
      BlanksEnd(src, j, from + 1);
    } else if j < |src| && IsSpace(src[j]) {
      if j < from { BlanksEnd(src, j + 1, from); }
    }
  }

  /** Where the `i`-th of `n` even shares of the remaining bytes begins. */
  function Share(src: Bytes, start: nat, n: nat, i: nat): (from: nat)
    requires start <= |src| && 0 < i < n
    ensures start <= from <= |src|
  {
    ShareInside(|src| - start, i, n);
    start + (|src| - start) * i / n
  }

  function Chunks(src: Bytes, start: nat, workers: nat, chunk: nat): nat
    requires start <= |src| && chunk > 0
  {
    if workers <= (|src| - start) / chunk then workers else (|src| - start) / chunk
  }

  /** The shares' guesses up to share `i`, each once and in order, after the start. */
  ghost predicate Guessed(src: Bytes, start: nat, n: nat, i: nat, bounds: seq<nat>)
    requires start <= |src| && 1 <= i
  {
    && bounds != [] && bounds[0] == start
    && (forall k :: 0 < k < |bounds| ==> bounds[k - 1] < bounds[k] && exists j :: 0 < j < i && j < n && Guess(src, Share(src, start, n, j)) == Some(bounds[k]))
    && (forall j :: 0 < j < i && j < n && Guess(src, Share(src, start, n, j)).Some? ==> Guess(src, Share(src, start, n, j)).value in bounds)
  }

  /** The cut of the bytes from `start`: `start`, the guesses at every even share, the end. */
  ghost predicate IsCut(src: Bytes, start: nat, workers: nat, chunk: nat, bounds: seq<nat>)
    requires start <= |src| && chunk > 0
  {
    var n := Chunks(src, start, workers, chunk);
    |bounds| >= 2 && bounds[|bounds| - 1] == |src| && Guessed(src, start, n, if n > 1 then n else 1, bounds[..|bounds| - 1])
  }

  /** Chunk boundaries: the start, each even share's guess, and the input's end, rising
      strictly. They are guesses: nothing here says a record begins there. */
  method SplitRecords(src: Bytes, start: nat, workers: nat, chunk: nat) returns (bounds: seq<nat>)
    requires start <= |src| && chunk > 0 && workers >= 2
    ensures IsCut(src, start, workers, chunk, bounds)
    ensures 2 <= |bounds| <= workers + 1 && bounds[0] == start && bounds[|bounds| - 1] == |src| && Inside(src, bounds)
    ensures forall k :: 0 < k < |bounds| - 1 ==> bounds[k - 1] < bounds[k] < |src| && src[bounds[k]] == '#'
  {
    hide Guessed;
    var n := Chunks(src, start, workers, chunk);
    bounds := [start];
    NothingGuessed(src, start, n);
    var i := 1;
    while i < n
      invariant 1 <= i && |bounds| <= i && (i == 1 || i <= n) && |bounds| >= 1
      invariant Guessed(src, start, n, i, bounds)
      invariant bounds[0] == start && Inside(src, bounds)
      invariant forall k :: 0 < k < |bounds| ==> bounds[k - 1] < bounds[k] < |src| && src[bounds[k]] == '#'
    {
      ShareInside(|src| - start, i, n);
      var b := NextRecord(src, start + (|src| - start) * i / n);
      if b.None? {
        NoMoreGuesses(src, start, n, i, bounds);
        break;
      }
      OneMoreGuess(src, start, n, i, bounds, b.value);
      if b.value > bounds[|bounds| - 1] {
        bounds := bounds + [b.value];
      }
      i := i + 1;
    }
    assert (bounds + [|src|])[..|bounds|] == bounds;
    bounds := bounds + [|src|];
  }

  lemma {:induction false} NothingGuessed(src: Bytes, start: nat, n: nat)
    requires start <= |src|
    ensures Guessed(src, start, n, 1, [start])
  {
  }

  lemma {:induction false} SharesRise(src: Bytes, start: nat, n: nat, i: nat, j: nat)
    requires start <= |src| && 0 < i <= j < n
    ensures Share(src, start, n, i) <= Share(src, start, n, j)
  {
    var len := |src| - start;
    Index.TimesMonotone(len, i, j);
    Index.DivMonotone(len * i, len * j, n);
  }

  /** Once a share has no guess, no later one has. */
  lemma {:induction false} NoMoreGuesses(src: Bytes, start: nat, n: nat, i: nat, bounds: seq<nat>)
    requires start <= |src| && 0 < i < n && Guessed(src, start, n, i, bounds)
    requires Guess(src, Share(src, start, n, i)).None?
    ensures Guessed(src, start, n, n, bounds)
  {
    hide Share, Guess;
    forall j | i <= j < n ensures Guess(src, Share(src, start, n, j)).None? {
      SharesRise(src, start, n, i, j);
      GuessRises(src, Share(src, start, n, i), Share(src, start, n, j));
    }
  }

  /** A share's guess is past the last boundary, or is it. */
  lemma {:induction false} OneMoreGuess(src: Bytes, start: nat, n: nat, i: nat, bounds: seq<nat>, b: nat)
    requires start <= |src| && 0 < i < n && Guessed(src, start, n, i, bounds)
    requires Guess(src, Share(src, start, n, i)) == Some(b)
    ensures b > bounds[|bounds| - 1] ==> Guessed(src, start, n, i + 1, bounds + [b])
    ensures b <= bounds[|bounds| - 1] ==> Guessed(src, start, n, i + 1, bounds)
  {
    hide Share, Guess;
    var last := |bounds| - 1;
    if b <= bounds[last] {
      if last > 0 {
        var j :| 0 < j < i && j < n && Guess(src, Share(src, start, n, j)) == Some(bounds[last]);
        SharesRise(src, start, n, j, i);
        GuessRises(src, Share(src, start, n, j), Share(src, start, n, i));
      }
      assert b == bounds[last];
    }
  }

  lemma {:induction false} QuotientBound(a: nat, n: nat, q: nat)
    requires n > 0 && a <= q * n
    ensures a / n <= q
  {
    assert a / n * n <= a;
    if q + 1 <= a / n {
      assert false;
    }
  }

  lemma {:induction false} ShareInside(len: nat, i: nat, n: nat)
    requires 0 < i < n
    ensures 0 <= len * i / n <= len
  {
    assert len * i <= len * n;
    QuotientBound(len * i, n, len);
  }

  // ---------------------------------------------------------------- the chunked parse

  /** Parser `p` is how chunk `i` came out. */
  ghost predicate WorkerDone(c: Codec, src: Bytes, bounds: seq<nat>, i: nat, p: Parser, ok: bool)
    requires Inside(src, bounds) && i + 1 < |bounds|
    reads p, p.s
  {
    && p.slab == i + 1 && ok == ChunkContent(c, src, bounds, i).Ok?
    && (ok ==> p.Inv() && p.Found() == ChunkContent(c, src, bounds, i).value)
  }

  /** Runs one worker's chunk on a parser of its own. */
  method RunChunk(c: Codec, src: Bytes, bounds: seq<nat>, i: nat) returns (p: Parser, ok: bool)
    requires Shrinks(c) && |src| <= MAX_OFF && |bounds| <= MAX_SLAB && Inside(src, bounds) && i + 1 < |bounds|
    ensures fresh(p) && fresh(p.s) && WorkerDone(c, src, bounds, i, p, ok)
  {
    p := new Parser(c, src, i + 1, bounds[i], false);
    ghost var whole := ChunkContent(c, src, bounds, i);
    if whole.Ok? { JoinUnits(whole.value); }
    if i + 2 < |bounds| {
      ok := p.ParseChunk(bounds[i + 1]);
      return;
    }
    ghost var records := Records(c, src, bounds[i]);
    if records.Ok? { JoinUnits(records.value); }
    ok := p.ParseRecords();
    if ok {
      ok := p.ParseDocument();
    }
  }

  /** The workers, finishing in an arbitrary order: each writes only its own slot. */
  method RunWorkers(c: Codec, src: Bytes, bounds: seq<nat>) returns (slots: array<Parser?>, oks: array<bool>)
    requires Shrinks(c) && |src| <= MAX_OFF && 2 <= |bounds| <= MAX_SLAB && Inside(src, bounds)
    ensures slots.Length == oks.Length == |bounds| - 1
    ensures forall i :: 0 <= i < slots.Length ==>
      slots[i] != null && fresh(slots[i]) && fresh(slots[i].s) && WorkerDone(c, src, bounds, i, slots[i], oks[i])
  {
    hide WorkerDone, ChunkContent, AllRead;
    var chunks := |bounds| - 1;
    slots, oks := new Parser?[chunks](_ => null), new bool[chunks](_ => false);
    var pending := Below(chunks);
    while pending != {}
      invariant forall i <- pending :: 0 <= i < chunks
      invariant forall i :: 0 <= i < chunks && i !in pending ==>
        slots[i] != null && fresh(slots[i]) && fresh(slots[i].s) && WorkerDone(c, src, bounds, i, slots[i], oks[i])
      decreases |pending|
    {
      var i :| i in pending;
      var p, chunkOk := RunChunk(c, src, bounds, i);
      slots[i], oks[i] := p, chunkOk;
      pending := pending - {i};
    }
  }

  /** The parsers in chunk order; it answers exactly when every chunk was read to its end. */
  method RunChunks(c: Codec, src: Bytes, bounds: seq<nat>) returns (ok: bool, ps: seq<Parser>)
    requires Shrinks(c) && |src| <= MAX_OFF && 2 <= |bounds| <= MAX_SLAB && Inside(src, bounds)
    ensures forall i :: 0 <= i < |ps| ==> fresh(ps[i]) && fresh(ps[i].s)
    ensures ok == AllRead(c, src, bounds)
    ensures ok ==> |ps| == |bounds| - 1
    ensures ok ==> forall i :: 0 <= i < |ps| ==> WorkerDone(c, src, bounds, i, ps[i], true)
  {
    hide WorkerDone, ChunkContent, AllRead;
    var slots, oks := RunWorkers(c, src, bounds);
    ps, ok := [], true;
    var j := 0;
    while j < slots.Length
      invariant |ps| == j <= slots.Length
      invariant forall i :: 0 <= i < j ==> ps[i] == slots[i]
      invariant ok == forall i :: 0 <= i < j ==> oks[i]
    {
      ok := ok && oks[j];
      ps := ps + [slots[j]];
      j := j + 1;
    }
    forall i | 0 <= i < slots.Length ensures oks[i] == ChunkContent(c, src, bounds, i).Ok? {
      WorkerVerdict(c, src, bounds, i, slots[i], oks[i]);
    }
    AllVerdicts(c, src, bounds, oks[..]);
  }

  lemma {:induction false} AllVerdicts(c: Codec, src: Bytes, bounds: seq<nat>, oks: seq<bool>)
    requires Inside(src, bounds) && |oks| + 1 == |bounds|
    requires forall i :: 0 <= i < |oks| ==> oks[i] == ChunkContent(c, src, bounds, i).Ok?
    ensures (forall i :: 0 <= i < |oks| ==> oks[i]) == AllRead(c, src, bounds)
  {
    hide ChunkContent;
  }

  lemma {:induction false} WorkerVerdict(c: Codec, src: Bytes, bounds: seq<nat>, i: nat, p: Parser, ok: bool)
    requires Inside(src, bounds) && i + 1 < |bounds| && WorkerDone(c, src, bounds, i, p, ok)
    ensures ok == ChunkContent(c, src, bounds, i).Ok?
  {
  }

  /** The file is large enough to cut, and its head reads up to "DATA;". */
  predicate Tried(c: Codec, src: Bytes, workers: int, chunk: nat) {
    workers >= 2 && |src| >= 2 * chunk && Document(c, src, 0, true).Ok? && Document(c, src, 0, true).value.atData
  }

  /** The chunked parse, for any worker count and chunk size. Workers finish in an
      arbitrary order. It tries the cut of what follows the head, and answers exactly when
      that has a boundary and is acceptable; then the file it returns holds the reference
      content. `bounds` is the cut it tried, if any. */
  method ParseParallelN(c: Codec, src: Bytes, workers: int, chunk: nat) returns (ok: bool, f: ParsedFile, bounds: seq<nat>)
    requires Shrinks(c) && |src| <= MAX_OFF && chunk > 0 && workers < MAX_SLAB
    ensures !Tried(c, src, workers, chunk) ==> bounds == []
    ensures Tried(c, src, workers, chunk) ==> IsCut(src, Document(c, src, 0, true).pos, workers, chunk, bounds)
    ensures ok <==> |bounds| >= 3 && Accepted(c, src, bounds)
    ensures ok ==> File(c, src).Ok? && Denotes(f, File(c, src).value)
    ensures ok ==> forall k :: 0 < k < |bounds| - 1 ==> bounds[k] in File(c, src).value.starts
  {
    hide Parser.Inv, Parser.Found, ChunkContent, Document, JoinAll, Denotes, StepGrammar.File, Guessed, IsCut;
    ok, f, bounds := false, ParsedFile(NoHead, [], [], map[]), [];
    if workers < 2 || |src| < 2 * chunk {
      return;
    }
    var head := new Parser(c, src, 0, 0, true);
    var headOk := head.ParseDocument();
    if !headOk || !head.atData {
      return;
    }
    JoinUnits(Document(c, src, 0, true).value.content);
    bounds := SplitRecords(src, head.s.pos, workers, chunk);
    if |bounds| < 3 {
      return;
    }
    ghost var content := head.Found();
    var ps: seq<Parser>;
    ok, ps := RunChunks(c, src, bounds);
    if !ok {
      return;
    }
    CutEqualsSerial(c, src, bounds);
    f := Finish([head] + ps, [content] + ChunkContents(c, src, bounds));
    forall k | 0 < k < |bounds| - 1 ensures bounds[k] in File(c, src).value.starts {
      BoundariesAreRecordStarts(c, src, bounds, k);
    }
  }

  /** Parsing bytes: the chunked parse when it answers, else the serial one. Whichever
      path ran, the outcome is the reference reading's, down to the error offset. */
  method ParseBytes(c: Codec, src: Bytes, workers: int, chunk: nat) returns (r: Outcome)
    requires Shrinks(c) && |src| <= MAX_OFF && chunk > 0 && workers < MAX_SLAB
    ensures Faithful(c, src, r)
  {
    var ok, f, _ := ParseParallelN(c, src, workers, chunk);
    if ok {
      return Parsed(f);
    }
    r := ParseSerial(c, src);
  }

  /** Two files of the same content denote the same instances, part types and header:
      the chunked file and the serial one differ only in where their slabs are cut. */
  lemma {:induction false} SameContentSameFile(f: ParsedFile, g: ParsedFile, x: Content)
    requires Denotes(f, x) && Denotes(g, x)
    ensures DenoteInsts(f.slabs, f.insts) == DenoteInsts(g.slabs, g.insts)
    ensures f.complexTypes == g.complexTypes && f.head == g.head
  {
  }
}
