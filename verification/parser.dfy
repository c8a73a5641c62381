/**
 * The parser's construction and its token intake: `Parser::new` interns the
 * four names the parser refers to, sets up the per-kind token-step counters,
 * and reads the first token; `next_lexeme` pulls the next token, recording
 * and passing over comments when the options ask for comments to be captured.
 */
module Parser {
  import opened Location
  import opened LexType
  import opened Cursor
  import opened Lexer
  import opened LexerOrder
  import opened Name
  import NT = NameTable

  datatype ParserOptions = ParserOptions(
    allowTypeAnnotations: bool,
    supportContinueStatement: bool,
    allowDeclarationSyntax: bool,
    captureComments: bool)

  /** A comment recorded while parsing: its kind and where it lies. */
  datatype Comment = Comment(kind: LexType, location: LexLocation)

  /** The record `next_lexeme` keeps of the lexer's current token. */
  function RecordOf(lx: LexerState): Comment {
    Comment.Comment(lx.lexeme.kind, lx.lexeme.location)
  }

  datatype Parser = Parser(
    lex: LexerState,
    nameSelf: AstName,
    nameNumber: AstName,
    nameError: AstName,
    nameNil: AstName,
    tokenStep: seq<int>,
    options: ParserOptions,
    comments: seq<Comment>)

  /** The kinds `next_lexeme` records as comments: unlike `is_comment`, this includes `BrokenComment`. */
  predicate IsCaptured(k: LexType) {
    k.Comment? || k.BlockComment? || k.BrokenComment?
  }

  /** The comments recorded after the first `n`, all of a captured kind. */
  predicate CapturedFrom(cs: seq<Comment>, n: nat) {
    forall i :: n <= i < |cs| ==> IsCaptured(cs[i].kind)
  }

  /**
   * `next_lexeme`. Without capture it is `next(false)`. With capture it calls
   * `next(false)` until the token is not a comment, appending each comment
   * to `comments`. The token answered is the lexer's current token; nothing
   * but the lexer and the comment list changes.
   */
  function NextLexeme(p: Parser): (r: (Parser, Lexeme))
    ensures r.1 == r.0.lex.lexeme
    ensures r.0 == p.(lex := r.0.lex, comments := r.0.comments)
    ensures Follows(p.lex.cursor, r.0.lex.cursor)
    ensures p.comments <= r.0.comments && CapturedFrom(r.0.comments, |p.comments|)
    ensures p.options.captureComments ==> !IsCaptured(r.1.kind)
    ensures !p.options.captureComments ==> r.0 == p.(lex := Next(p.lex, false))
    decreases |p.lex.cursor.src| - p.lex.cursor.offset
  {
    var lx := Next(p.lex, false);
    if p.options.captureComments && IsCaptured(lx.lexeme.kind) then
      NextLexeme(p.(lex := lx, comments := p.comments + [RecordOf(lx)]))
    else
      (p.(lex := lx), lx.lexeme)
  }

  /** The token-step table of a fresh parser: one counter per token kind, 1 for `Eof` and 0 for every other kind. */
  function InitialTokenStep(): (r: seq<int>)
    ensures |r| == Count()
    ensures r[Code(Eof)] == 1
    ensures forall k :: 0 <= k < |r| && k != Code(Eof) ==> r[k] == 0
  {
    seq(Count(), k => if k == Code(Eof) then 1 else 0)
  }

  /**
   * Four `add` calls in a row, each with a plain `Name` kind. Every slot
   * other than theirs keeps its entry; the last text is always found, and
   * the first when no later text shares its hash.
   */
  function AddNames(names: NT.NameTable, a: string, b: string, c: string, d: string): (r: (NT.NameTable, (AstName, AstName, AstName, AstName)))
    ensures r.1 == (AstName(a), AstName(b), AstName(c), AstName(d))
    ensures forall h :: h in names && h !in {NT.SlotOf(a), NT.SlotOf(b), NT.SlotOf(c), NT.SlotOf(d)} ==> h in r.0 && r.0[h] == names[h]
    ensures NT.Get(r.0, d) == (AstName(d), LexType.Name(d))
    ensures NT.SlotOf(c) != NT.SlotOf(d) ==> NT.Get(r.0, c) == (AstName(c), LexType.Name(c))
    ensures NT.SlotOf(b) !in {NT.SlotOf(c), NT.SlotOf(d)} ==> NT.Get(r.0, b) == (AstName(b), LexType.Name(b))
    ensures NT.SlotOf(a) !in {NT.SlotOf(b), NT.SlotOf(c), NT.SlotOf(d)} ==> NT.Get(r.0, a) == (AstName(a), LexType.Name(a))
  {
    var (t1, na) := NT.Add(names, a, LexType.Name(a));
    var (t2, nb) := NT.Add(t1, b, LexType.Name(b));
    var (t3, nc) := NT.Add(t2, c, LexType.Name(c));
    var (t4, nd) := NT.Add(t3, d, LexType.Name(d));
    (t4, (na, nb, nc, nd))
  }

  /** The first half of `Parser::new`: adds `self`, `number`, `%error-id%` and `nil`, in that order. */
  function InternParserNames(names: NT.NameTable): (NT.NameTable, (AstName, AstName, AstName, AstName)) {
    AddNames(names, "self", "number", "%error-id%", "nil")
  }

  /** The four names the parser interns have distinct hashes, so none overwrites another. */
  lemma ParserNameSlots()
    ensures NT.SlotOf("self") == 0x645ba277 && NT.SlotOf("number") == 0x1bd670a0
    ensures NT.SlotOf("%error-id%") == 0x688dbed3 && NT.SlotOf("nil") == 0x0da3f8ec
    ensures NT.SlotOf("self") !in {NT.SlotOf("number"), NT.SlotOf("%error-id%"), NT.SlotOf("nil")}
    ensures NT.SlotOf("number") !in {NT.SlotOf("%error-id%"), NT.SlotOf("nil")}
    ensures NT.SlotOf("%error-id%") != NT.SlotOf("nil")
  {
    HashSelf();
    HashNumber();
    HashErrorId();
    HashNil();
  }

  /** After the parser's names are interned, each of the four is found under its own text. */
  lemma ParserNamesFound(names: NT.NameTable)
    ensures var t := InternParserNames(names).0;
            && NT.Get(t, "self") == (AstName("self"), LexType.Name("self"))
            && NT.Get(t, "number") == (AstName("number"), LexType.Name("number"))
            && NT.Get(t, "%error-id%") == (AstName("%error-id%"), LexType.Name("%error-id%"))
            && NT.Get(t, "nil") == (AstName("nil"), LexType.Name("nil"))
  {
    ParserNameSlots();
  }

  /**
   * `Parser::new`: interns the parser's names, builds the parser over a
   * fresh lexer with the initial token-step table and no comments, and reads
   * the first token with `next_lexeme`. Returns the parser and the updated
   * table, in which all four names are found, each under its own
   * hash; every other entry is kept. With
   * capture, and no `BrokenComment` passed, the first token is the one
   * `next(true)` would give.
   */
  function New(src: string, names: NT.NameTable, options: ParserOptions): (r: (Parser, NT.NameTable))
    ensures r.0.nameSelf == AstName("self") && r.0.nameNumber == AstName("number")
    ensures r.0.nameError == AstName("%error-id%") && r.0.nameNil == AstName("nil")
    ensures r.0.options == options
    ensures r.0.tokenStep == InitialTokenStep()
    ensures forall h :: h in names && h !in {NT.SlotOf("self"), NT.SlotOf("number"), NT.SlotOf("%error-id%"), NT.SlotOf("nil")} ==>
              h in r.1 && r.1[h] == names[h]
    ensures NT.Get(r.1, "self") == (AstName("self"), LexType.Name("self"))
    ensures NT.Get(r.1, "number") == (AstName("number"), LexType.Name("number"))
    ensures NT.Get(r.1, "%error-id%") == (AstName("%error-id%"), LexType.Name("%error-id%"))
    ensures NT.Get(r.1, "nil") == (AstName("nil"), LexType.Name("nil"))
    ensures r.0.lex.cursor.src == src
    ensures CapturedFrom(r.0.comments, 0)
    ensures !options.captureComments ==> r.0.lex == Next(NewLexer(src), false) && r.0.comments == []
    ensures options.captureComments ==> !IsCaptured(r.0.lex.lexeme.kind)
    ensures options.captureComments && (forall i :: 0 <= i < |r.0.comments| ==> !r.0.comments[i].kind.BrokenComment?) ==>
              r.0.lex == Next(NewLexer(src), true)
  {
    ParserNamesFound(names);
    var (t, (nameSelf, nameNumber, nameError, nameNil)) := InternParserNames(names);
    var p := Parser(NewLexer(src), nameSelf, nameNumber, nameError, nameNil, InitialTokenStep(), options, []);
    if options.captureComments then
      CaptureAgreesWithSkipping(p);
      (NextLexeme(p).0, t)
    else
      (NextLexeme(p).0, t)
  }

  // ---------------------------------------------------------------------------
  // Capturing against skipping
  // ---------------------------------------------------------------------------

  /** `next(true)` is `next(false)` repeated while the token is a comment. */
  lemma NextSkipping(lx: LexerState)
    ensures var lx' := Next(lx, false);
            Next(lx, true) == if IsComment(lx'.lexeme.kind) then Next(lx', true) else lx'
  {
  }

  /**
   * With capture, `next_lexeme` reads the same token as `next(true)` and
   * leaves the lexer in the same state, unless it passed a `BrokenComment`:
   * `next(true)` stops at that one and `next_lexeme` records it and goes on.
   */
  lemma {:induction false} CaptureAgreesWithSkipping(p: Parser)
    requires p.options.captureComments
    ensures var r := NextLexeme(p);
            (forall i :: |p.comments| <= i < |r.0.comments| ==> !r.0.comments[i].kind.BrokenComment?) ==>
              r.0.lex == Next(p.lex, true)
    decreases |p.lex.cursor.src| - p.lex.cursor.offset
  {
    var lx := Next(p.lex, false);
    NextSkipping(p.lex);
    if IsCaptured(lx.lexeme.kind) {
      var p' := p.(lex := lx, comments := p.comments + [RecordOf(lx)]);
      var r := NextLexeme(p');
      assert r == NextLexeme(p);
      if forall i :: |p.comments| <= i < |r.0.comments| ==> !r.0.comments[i].kind.BrokenComment? {
        assert r.0.comments[|p.comments|] == RecordOf(lx);
        CaptureAgreesWithSkipping(p');
      }
    }
  }

  // ---------------------------------------------------------------------------
  // The recorded comments
  // ---------------------------------------------------------------------------

  /** One call of `next(false)`, as a function value. */
  function NextToken(lx: LexerState): LexerState {
    Next(lx, false)
  }

  /** The lexer after `n` calls of `step`. */
  function Iterate(step: LexerState -> LexerState, lx: LexerState, n: nat): LexerState
    decreases n
  {
    if n == 0 then lx else Iterate(step, step(lx), n - 1)
  }

  /** The records of the first `m` tokens `step` hands out from `lx`. */
  function Records(step: LexerState -> LexerState, lx: LexerState, m: nat): (r: seq<Comment>)
    ensures |r| == m
    decreases m
  {
    if m == 0 then [] else [RecordOf(step(lx))] + Records(step, step(lx), m - 1)
  }

  /** The lexer after `n` calls of `next(false)`. */
  function Steps(lx: LexerState, n: nat): LexerState {
    Iterate(NextToken, lx, n)
  }

  /** The records of the first `m` tokens `next(false)` hands out from `lx`. */
  function Recorded(lx: LexerState, m: nat): seq<Comment> {
    Records(NextToken, lx, m)
  }

  /** How many comments `next_lexeme` records from `lx` on, with capture. */
  function CaptureCount(lx: LexerState): nat
    decreases |lx.cursor.src| - lx.cursor.offset
  {
    var nx := Next(lx, false);
    if IsCaptured(nx.lexeme.kind) then 1 + CaptureCount(nx) else 0
  }

  /**
   * With capture, `next_lexeme` records exactly the tokens `next(false)`
   * hands out before the first one that is not a comment, in that order, and
   * stops with the lexer on that token.
   */
  lemma {:induction false} CaptureRecordsSteps(p: Parser)
    requires p.options.captureComments
    ensures var r := NextLexeme(p);
            var m := CaptureCount(p.lex);
            r.0.comments == p.comments + Recorded(p.lex, m) && r.0.lex == Steps(p.lex, m + 1)
    decreases |p.lex.cursor.src| - p.lex.cursor.offset
  {
    var lx := Next(p.lex, false);
    if IsCaptured(lx.lexeme.kind) {
      var p' := p.(lex := lx, comments := p.comments + [RecordOf(lx)]);
      CaptureRecordsSteps(p');
      CaptureUnfolds(p);
      CaptureCountNext(p.lex);
      CapturedStepShape(p.comments, p.lex, CaptureCount(lx));
    } else {
      IterateNext(NextToken, p.lex, 0);
      assert NextToken(p.lex) == lx;
    }
  }

  /** Recording the next token, then `k` more, records `k + 1` tokens and takes `k + 2` steps. */
  lemma CapturedStepShape(comments: seq<Comment>, lx: LexerState, k: nat)
    ensures var lx' := Next(lx, false);
            && (comments + [RecordOf(lx')]) + Recorded(lx', k) == comments + Recorded(lx, k + 1)
            && Steps(lx', k + 1) == Steps(lx, k + 2)
  {
    assert NextToken(lx) == Next(lx, false);
    RecordsNext(NextToken, lx, k + 1);
    AppendOne(comments, RecordOf(Next(lx, false)), Records(NextToken, Next(lx, false), k));
    IterateNext(NextToken, lx, k + 1);
  }

  /** A captured comment: `next_lexeme` goes on from the lexer past it, with its record appended. */
  lemma CaptureUnfolds(p: Parser)
    requires p.options.captureComments && IsCaptured(Next(p.lex, false).lexeme.kind)
    ensures var lx := Next(p.lex, false);
            NextLexeme(p) == NextLexeme(p.(lex := lx, comments := p.comments + [RecordOf(lx)]))
  {
  }

  lemma CaptureCountNext(lx: LexerState)
    requires IsCaptured(Next(lx, false).lexeme.kind)
    ensures CaptureCount(lx) == 1 + CaptureCount(Next(lx, false))
  {
  }

  lemma IterateNext(step: LexerState -> LexerState, lx: LexerState, k: nat)
    ensures Iterate(step, lx, k + 1) == Iterate(step, step(lx), k)
  {
  }

  lemma RecordsNext(step: LexerState -> LexerState, lx: LexerState, m: nat)
    requires m > 0
    ensures Records(step, lx, m) == [RecordOf(step(lx))] + Records(step, step(lx), m - 1)
  {
  }

  lemma AppendOne<T>(a: seq<T>, x: T, b: seq<T>)
    ensures (a + [x]) + b == a + ([x] + b)
  {
  }

  /** The `k`-th record is that of the `k`-th token. */
  lemma {:induction false} RecordsAt(step: LexerState -> LexerState, lx: LexerState, m: nat, k: nat)
    requires k < m
    ensures Records(step, lx, m)[k] == RecordOf(Iterate(step, lx, k + 1))
    decreases m
  {
    RecordsNext(step, lx, m);
    IterateNext(step, lx, k);
    if k > 0 {
      RecordsAt(step, step(lx), m - 1, k - 1);
      assert Records(step, lx, m)[k] == Records(step, step(lx), m - 1)[k - 1];
    }
  }

  /** Each token `step` hands out starts no earlier than the one before it ended. */
  ghost predicate KeepsOrder(step: LexerState -> LexerState) {
    forall lx {:trigger step(lx)} :: Settled(lx) ==> Settled(step(lx)) && Le(lx.lexeme.location.end, step(lx).lexeme.location.begin)
  }

  lemma NextTokenKeepsOrder()
    ensures KeepsOrder(NextToken)
  {
    forall lx | Settled(lx)
      ensures Settled(NextToken(lx)) && Le(lx.lexeme.location.end, NextToken(lx).lexeme.location.begin)
    {
      NextOrdered(lx, false);
    }
  }

  /** Successive tokens of an order-keeping step lie in source order. */
  lemma {:induction false} IterateOrdered(step: LexerState -> LexerState, lx: LexerState, k: nat)
    requires KeepsOrder(step) && Settled(lx)
    ensures Settled(Iterate(step, lx, k))
    ensures Le(Iterate(step, lx, k).lexeme.location.end, Iterate(step, lx, k + 1).lexeme.location.begin)
    decreases k
  {
    IterateNext(step, lx, k);
    if k > 0 {
      IterateOrdered(step, step(lx), k - 1);
    }
  }

  /**
   * With capture, the comments `next_lexeme` records lie in source order:
   * each ends no later than the next one begins, and the last ends no later
   * than the token answered begins.
   */
  lemma CapturedInSourceOrder(p: Parser)
    requires p.options.captureComments && Settled(p.lex)
    ensures var r := NextLexeme(p);
            var cs := r.0.comments;
            forall i :: |p.comments| <= i < |cs| - 1 ==> Le(cs[i].location.end, cs[i + 1].location.begin)
    ensures var r := NextLexeme(p);
            var cs := r.0.comments;
            |cs| > |p.comments| ==> Le(cs[|cs| - 1].location.end, r.1.location.begin)
  {
    var r := NextLexeme(p);
    CaptureRecordsSteps(p);
    StepsInOrder(p.lex, CaptureCount(p.lex), p.comments, r.0.comments);
  }

  /** The records of successive `next(false)` tokens lie in source order and before the token after them. */
  lemma StepsInOrder(lx: LexerState, m: nat, before: seq<Comment>, cs: seq<Comment>)
    requires Settled(lx) && cs == before + Recorded(lx, m)
    ensures forall i :: |before| <= i < |cs| - 1 ==> Le(cs[i].location.end, cs[i + 1].location.begin)
    ensures |cs| > |before| ==> Le(cs[|cs| - 1].location.end, Steps(lx, m + 1).lexeme.location.begin)
  {
    NextTokenKeepsOrder();
    RecordsInOrder(NextToken, lx, m, before, cs);
  }

  /** The records of successive tokens, after any earlier ones, lie in source order and before the token after them. */
  lemma RecordsInOrder(step: LexerState -> LexerState, lx: LexerState, m: nat, before: seq<Comment>, cs: seq<Comment>)
    requires KeepsOrder(step) && Settled(lx) && cs == before + Records(step, lx, m)
    ensures forall i :: |before| <= i < |cs| - 1 ==> Le(cs[i].location.end, cs[i + 1].location.begin)
    ensures |cs| > |before| ==> Le(cs[|cs| - 1].location.end, Iterate(step, lx, m + 1).lexeme.location.begin)
  {
    var n := |before|;
    forall i | n <= i < |cs| - 1
      ensures Le(cs[i].location.end, cs[i + 1].location.begin)
    {
      RecordsAt(step, lx, m, i - n);
      RecordsAt(step, lx, m, i + 1 - n);
      IterateOrdered(step, lx, i - n + 1);
    }
    if m > 0 {
      RecordsAt(step, lx, m, m - 1);
      IterateOrdered(step, lx, m);
    }
  }
}
