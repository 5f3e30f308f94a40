// Why a DATA section may be cut: readings of consecutive chunks, each of which ends
// exactly where the next begins, join to the reading of the whole.
module StepChunks {
  import opened StepLexer
  import opened StepGrammar

  /** Whole records from `p` until trivia ends exactly at `end`; anything else is a bad split. */
  function Chunk(c: Codec, src: Bytes, p: nat, end: nat): (r: Parse<Content>)
    requires p <= |src|
    ensures Within(r, p, src)
    ensures r.Ok? ==> r.pos == end
    decreases |src| - p
  {
    var q := Trivia(src, p);
    if q == end then Ok(Nothing, q)
    else if q > end then Err(q)
    else
      var (tok, q2) := Lex(src, q);
      if tok.kind != TokRef then Err(q2) else
      match Instance(c, src, q, tok, q2)
      case Err(e) => Err(e)
      case Ok(x, e) => Then(x, Chunk(c, src, e, end))
  }

  /** The last chunk: records to ENDSEC, then on through the rest of the document. */
  function Tail(c: Codec, src: Bytes, p: nat): (r: Parse<Content>)
    requires p <= |src|
    ensures Within(r, p, src)
  {
    match Records(c, src, p)
    case Err(e) => Err(e)
    case Ok(x, e) =>
      match Document(c, src, e, false)
      case Err(e2) => Err(e2)
      case Ok(r, e2) => Ok(Join(x, r.content), e2)
  }

  predicate Inside(src: Bytes, bounds: seq<nat>) {
    forall k :: 0 <= k < |bounds| ==> bounds[k] <= |src|
  }

  /** The content of chunk `i` of the cut `bounds`, read in isolation. */
  function ChunkContent(c: Codec, src: Bytes, bounds: seq<nat>, i: nat): Parse<Content>
    requires i + 1 < |bounds| && Inside(src, bounds)
  {
    if i + 2 == |bounds| then Tail(c, src, bounds[i]) else Chunk(c, src, bounds[i], bounds[i + 1])
  }

  /** Every chunk reads cleanly by itself. */
  predicate AllRead(c: Codec, src: Bytes, bounds: seq<nat>)
    requires Inside(src, bounds)
  {
    forall k :: 0 <= k < |bounds| - 1 ==> ChunkContent(c, src, bounds, k).Ok?
  }

  /** Stretches of a file joined in file order. */
  function JoinAll(xs: seq<Content>): Content {
    if xs == [] then Nothing else Join(JoinAll(xs[..|xs| - 1]), xs[|xs| - 1])
  }

  lemma {:induction false} StartsInJoin(xs: seq<Content>, k: nat, at: nat)
    requires k < |xs| && at in xs[k].starts
    ensures at in JoinAll(xs).starts
  {
    if k < |xs| - 1 {
      StartsInJoin(xs[..|xs| - 1], k, at);
    }
  }

  /** The isolated readings of every chunk of a cut. */
  function ChunkContents(c: Codec, src: Bytes, bounds: seq<nat>): (xs: seq<Content>)
    requires |bounds| >= 2 && Inside(src, bounds) && AllRead(c, src, bounds)
    ensures |xs| == |bounds| - 1
  {
    seq(|bounds| - 1, i requires 0 <= i < |bounds| - 1 => ChunkContent(c, src, bounds, i).value)
  }

  /** A chunk that reads cleanly is a prefix of the record run it was cut from. */
  lemma {:induction false} ChunkIsPrefix(c: Codec, src: Bytes, p: nat, end: nat)
    requires p <= |src| && Chunk(c, src, p, end).Ok?
    ensures end <= |src|
    ensures Records(c, src, p) == Then(Chunk(c, src, p, end).value, Records(c, src, end))
    decreases |src| - p
  {
    hide Lex, Trivia, Instance, Join;
    var q := Trivia(src, p);
    LexAfterTrivia(src, p);
    TriviaIdempotent(src, p);
    if q == end {
      ThenNothing(Records(c, src, end));
    } else {
      var (tok, q2) := Lex(src, q);
      var r := Instance(c, src, q, tok, q2);
      var rest := Chunk(c, src, r.pos, end);
      ChunkIsPrefix(c, src, r.pos, end);
      ThenThen(r.value, rest.value, Records(c, src, end));
    }
  }

  lemma {:induction false} TailAfterChunk(c: Codec, src: Bytes, p: nat, end: nat)
    requires p <= |src| && Chunk(c, src, p, end).Ok?
    ensures end <= |src|
    ensures Tail(c, src, p) == Then(Chunk(c, src, p, end).value, Tail(c, src, end))
  {
    ChunkIsPrefix(c, src, p, end);
    match Records(c, src, end)
    case Err(_) =>
    case Ok(x, e) =>
      match Document(c, src, e, false)
      case Err(_) =>
      case Ok(r, _) => JoinAssociative(Chunk(c, src, p, end).value, x, r.content);
  }

  /** Reading the section as a whole is reading its first `i` chunks in isolation and
      then the rest from where chunk `i` begins. */
  lemma {:induction false} ChunksThenRest(c: Codec, src: Bytes, bounds: seq<nat>, i: nat)
    requires |bounds| >= 2 && Inside(src, bounds) && AllRead(c, src, bounds)
    requires i < |bounds| - 1
    ensures Tail(c, src, bounds[0]) == Then(JoinAll(ChunkContents(c, src, bounds)[..i]), Tail(c, src, bounds[i]))
  {
    var xs := ChunkContents(c, src, bounds);
    if i == 0 {
      ThenNothing(Tail(c, src, bounds[0]));
    } else {
      ChunksThenRest(c, src, bounds, i - 1);
      assert ChunkContent(c, src, bounds, i - 1).Ok?;
      TailAfterChunk(c, src, bounds[i - 1], bounds[i]);
      assert xs[..i][..i - 1] == xs[..i - 1];
      ThenThen(JoinAll(xs[..i - 1]), xs[i - 1], Tail(c, src, bounds[i]));
    }
  }

  /** For any cut whose chunks all read cleanly, the joined contents are what one
      uninterrupted reading of the section finds. */
  lemma {:induction false} ChunksJoin(c: Codec, src: Bytes, bounds: seq<nat>)
    requires |bounds| >= 2 && Inside(src, bounds) && AllRead(c, src, bounds)
    ensures var r := Tail(c, src, bounds[0]);
      r.Ok? && r.value == JoinAll(ChunkContents(c, src, bounds))
  {
    var xs, last := ChunkContents(c, src, bounds), |bounds| - 2;
    ChunksThenRest(c, src, bounds, last);
    assert ChunkContent(c, src, bounds, last).Ok?;
    assert xs[..last + 1] == xs;
    assert xs[last] == Tail(c, src, bounds[last]).value;
  }

  /** Stopping at "DATA;" and then reading the section loses nothing. */
  lemma {:induction false} HeadThenTail(c: Codec, src: Bytes, p: nat)
    requires p <= |src|
    requires Document(c, src, p, true).Ok? && Document(c, src, p, true).value.atData
    ensures var head := Document(c, src, p, true);
      Document(c, src, p, false) ==
      match Tail(c, src, head.pos)
      case Err(e) => Err(e)
      case Ok(x, e) => Ok(Reading(Join(head.value.content, x), false), e)
    decreases |src| - p, 0
  {
    var (tok, q) := Lex(src, p);
    var head := Document(c, src, p, true);
    match tok.kind
    case TokSemi => HeadThenTail(c, src, q);
    case TokRef =>
      var r := Instance(c, src, Trivia(src, p), tok, q);
      HeadStep(c, src, r.value, r.pos);
    case TokKeyword =>
      var kw := Upper(tok.text);
      if SectionMark(kw) {
        HeadThenTail(c, src, q);
      } else if kw == "DATA" {
        DataEnds(c, src, Semi(src, q).pos);
      } else if kw != "END-ISO-10303-21" {
        var r := Header(c, src, kw, q);
        HeadStep(c, src, r.value, r.pos);
      }
    case _ =>
  }

  lemma {:induction false} HeadStep(c: Codec, src: Bytes, x: Content, p: nat)
    requires p <= |src|
    requires Document(c, src, p, true).Ok? && Document(c, src, p, true).value.atData
    ensures var head := Document(c, src, p, true);
      ThenReading(x, Document(c, src, p, false)) ==
      match Tail(c, src, head.pos)
      case Err(e) => Err(e)
      case Ok(y, e) => Ok(Reading(Join(Join(x, head.value.content), y), false), e)
    decreases |src| - p, 1
  {
    HeadThenTail(c, src, p);
    var head := Document(c, src, p, true);
    match Tail(c, src, head.pos)
    case Err(_) =>
    case Ok(y, _) => JoinAssociative(x, head.value.content, y);
  }

  /** Reading on from an unstopped document never reports a DATA stop. */
  lemma {:induction false} NeverAtData(c: Codec, src: Bytes, p: nat)
    requires p <= |src| && Document(c, src, p, false).Ok?
    ensures !Document(c, src, p, false).value.atData
    decreases |src| - p
  {
    var (tok, q) := Lex(src, p);
    match tok.kind
    case TokSemi => NeverAtData(c, src, q);
    case TokRef => NeverAtData(c, src, Instance(c, src, Trivia(src, p), tok, q).pos);
    case TokKeyword =>
      var kw := Upper(tok.text);
      if SectionMark(kw) {
        NeverAtData(c, src, q);
      } else if kw == "DATA" {
        NeverAtData(c, src, Records(c, src, Semi(src, q).pos).pos);
      } else if kw != "END-ISO-10303-21" {
        NeverAtData(c, src, Header(c, src, kw, q).pos);
      }
    case _ =>
  }

  lemma {:induction false} DataEnds(c: Codec, src: Bytes, e: nat)
    requires e <= |src|
    ensures (match Records(c, src, e)
             case Err(e2) => Err(e2)
             case Ok(x, e2) => ThenReading(x, Document(c, src, e2, false)))
      == match Tail(c, src, e)
         case Err(e2) => Err(e2)
         case Ok(x, e2) => Ok(Reading(Join(Nothing, x), false), e2)
  {
    match Records(c, src, e)
    case Err(_) =>
    case Ok(x, e2) =>
      match Document(c, src, e2, false)
      case Err(_) =>
      case Ok(r, _) =>
        NeverAtData(c, src, e2);
        JoinUnits(Join(x, r.content));
  }

  /** What makes a cut acceptable: it starts where the head stopped at DATA, and every
      chunk reads cleanly by itself. Where the guesses came from does not matter. */
  predicate Accepted(c: Codec, src: Bytes, bounds: seq<nat>) {
    && |bounds| >= 2 && Inside(src, bounds)
    && Document(c, src, 0, true).Ok? && Document(c, src, 0, true).value.atData
    && bounds[0] == Document(c, src, 0, true).pos
    && AllRead(c, src, bounds)
  }

  /** The law of the parallel parse: the serial reading of an accepted cut's bytes
      succeeds, with the head's and the chunks' contents joined in order. */
  lemma {:induction false} CutEqualsSerial(c: Codec, src: Bytes, bounds: seq<nat>)
    requires Accepted(c, src, bounds)
    ensures File(c, src).Ok?
    ensures File(c, src).value == JoinAll([Document(c, src, 0, true).value.content] + ChunkContents(c, src, bounds))
  {
    HeadThenTail(c, src, 0);
    ChunksJoin(c, src, bounds);
    JoinAllCons(Document(c, src, 0, true).value.content, ChunkContents(c, src, bounds));
  }

  lemma {:induction false} JoinAllCons(x: Content, xs: seq<Content>)
    ensures JoinAll([x] + xs) == Join(x, JoinAll(xs))
  {
    var all := [x] + xs;
    if xs == [] {
      assert all[..|all| - 1] == [];
      JoinUnits(x);
    } else {
      var last := xs[|xs| - 1];
      assert all[..|all| - 1] == [x] + xs[..|xs| - 1];
      JoinAllCons(x, xs[..|xs| - 1]);
      JoinAssociative(x, JoinAll(xs[..|xs| - 1]), last);
    }
  }

  // ---------------------------------------------------------------- boundaries

  /** A run that begins at a '#' begins with that record. */
  lemma {:induction false} FirstStart(c: Codec, src: Bytes, bounds: seq<nat>, i: nat)
    requires i + 1 < |bounds| && Inside(src, bounds)
    requires ChunkContent(c, src, bounds, i).Ok?
    requires bounds[i] < bounds[i + 1] && src[bounds[i]] == '#'
    ensures var s := ChunkContent(c, src, bounds, i).value.starts; s != [] && s[0] == bounds[i]
  {
    var p := bounds[i];
    TriviaFixed(src, p);
    if i + 2 == |bounds| {
      assert Records(c, src, p).Ok?;
    }
  }

  /** Every boundary an accepted cut was split at is the '#' of a record the serial
      reading finds: never a byte inside a string or a comment. */
  lemma {:induction false} BoundariesAreRecordStarts(c: Codec, src: Bytes, bounds: seq<nat>, k: nat)
    requires Accepted(c, src, bounds)
    requires 0 < k < |bounds| - 1
    requires bounds[k] < bounds[k + 1] && src[bounds[k]] == '#'
    ensures File(c, src).Ok? && bounds[k] in File(c, src).value.starts
  {
    CutEqualsSerial(c, src, bounds);
    FirstStart(c, src, bounds, k);
    var xs := [Document(c, src, 0, true).value.content] + ChunkContents(c, src, bounds);
    assert xs[k + 1] == ChunkContent(c, src, bounds, k).value;
    StartsInJoin(xs, k + 1, bounds[k]);
  }
}
