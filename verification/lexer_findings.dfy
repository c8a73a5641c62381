/**
 * Where the readers as written differ from their corrected versions: the
 * name and number loops that always take the character after the first, and
 * the comment reader that never sees the level of a long comment. Each
 * discrepancy is shown on the inputs that expose it, for the reader and for
 * `read_next`, next to what the corrected reader and `ReadTokenCorrected`
 * produce on the same input; the corrected dispatch is shown to read every
 * name, number and long comment back.
 */
module LexerFindings {
  import opened Location
  import opened LexType
  import opened Cursor
  import opened Lexer
  import opened LexerProps
  import opened LexerForms
  import opened LexerExamples

  // ---------------------------------------------------------------------------
  // Names
  // ---------------------------------------------------------------------------

  /**
   * A one-character name followed by a character that cannot continue a
   * name: as written, that character joins the name (`x = 1` starts with
   * the name `x `); the corrected reader stops before it.
   */
  lemma OneCharNameAsWritten(c: Cursor, ch: char, start: LexPosition)
    requires !AtEnd(c) && !InClass(NameClass, c.src[c.offset])
    requires c.offset + 1 == |c.src| || !InClass(NameClass, c.src[c.offset + 1])
    ensures var d := Consume(c);
            ReadNameAsWritten(c, ch, start) == (d, Lexeme(LexLocation(start, Position(d)), Name([ch, c.src[c.offset]])))
    ensures ReadName(c, ch, start) == (c, Lexeme(LexLocation(start, Position(c)), Name([ch])))
  {
    var y := c.src[c.offset];
    RunStops(Consume(c), NameClass, [ch, y], 0);
    assert [ch] + [y] == [ch, y];
    assert KeywordOf([ch, y]) == KeywordOfLength2([ch, y]);
  }

  /**
   * `read_next` at a one-character name followed by a character that cannot
   * continue it: the source reads both as one name, the corrected dispatch
   * reads the name alone.
   */
  lemma OneCharNameToken(c: Cursor)
    requires c.offset + 1 < |c.src|
    requires IsAlphabetic(c.src[c.offset]) || c.src[c.offset] == '_'
    requires !InClass(NameClass, c.src[c.offset + 1])
    requires c.offset + 2 == |c.src| || !InClass(NameClass, c.src[c.offset + 2])
    ensures var d := Consume(Consume(c));
            ReadToken(c) == (d, Lexeme(LexLocation(Position(c), Position(d)), Name([c.src[c.offset], c.src[c.offset + 1]])))
    ensures var d := Consume(c);
            ReadTokenCorrected(c) == (d, Lexeme(LexLocation(Position(c), Position(d)), Name([c.src[c.offset]])))
  {
    var c1 := Consume(c);
    OneCharNameAsWritten(c1, c.src[c.offset], Position(c));
    ReadTokenName(c);
    assert ReadTokenCorrected(c) == ReadName(c1, c.src[c.offset], Position(c));
  }

  /** The corrected dispatch reads every word back as its reserved word or as a `Name` carrying it. */
  lemma NameRoundTripCorrected(c: Cursor, w: string)
    requires NameShaped(c, w) && (IsAlphabetic(w[0]) || w[0] == '_')
    ensures var d := Advance(c, |w|);
            ReadTokenCorrected(c) == (d, Lexeme(LexLocation(Position(c), Position(d)), KeywordOrName(w)))
  {
    ReadNameWord(c, w);
    LooksAtConsume(c, w);
    assert ReadTokenCorrected(c) == ReadName(Consume(c), w[0], Position(c));
  }

  // ---------------------------------------------------------------------------
  // Numbers
  // ---------------------------------------------------------------------------

  /**
   * A one-digit number followed by a character that cannot continue a
   * number: as written, that character joins the number (`1 + 2` starts
   * with the number `1 `); the corrected reader stops before it.
   */
  lemma OneDigitNumberAsWritten(c: Cursor, ch: char, start: LexPosition)
    requires !AtEnd(c) && !InClass(NameClass, c.src[c.offset]) && c.src[c.offset] != '.'
    requires c.offset + 1 == |c.src| || (!InClass(NameClass, c.src[c.offset + 1]) && c.src[c.offset + 1] != '.')
    ensures var d := Consume(c);
            ReadNumberAsWritten(c, ch, start) == (d, Lexeme(LexLocation(start, Position(d)), Number([ch, c.src[c.offset]])))
    ensures ReadNumber(c, ch, start) == (c, Lexeme(LexLocation(start, Position(c)), Number([ch])))
  {
    var y := c.src[c.offset];
    var d := Consume(c);
    RunStops(d, NumberClass, [ch, y], 0);
    assert [ch] + [y] == [ch, y];
    assert NumberTail(d, [ch, y]) == (d, [ch, y]);
    RunStops(c, NumberClass, [ch], 0);
    assert NumberTail(c, [ch]) == (c, [ch]);
  }

  /**
   * `read_next` at a one-digit number followed by a character that cannot
   * continue it: the source reads both as one number, the corrected dispatch
   * reads the digit alone.
   */
  lemma OneDigitNumberToken(c: Cursor)
    requires c.offset + 1 < |c.src| && IsDigit(c.src[c.offset])
    requires !InClass(NameClass, c.src[c.offset + 1]) && c.src[c.offset + 1] != '.'
    requires c.offset + 2 == |c.src| || (!InClass(NameClass, c.src[c.offset + 2]) && c.src[c.offset + 2] != '.')
    ensures var d := Consume(Consume(c));
            ReadToken(c) == (d, Lexeme(LexLocation(Position(c), Position(d)), Number([c.src[c.offset], c.src[c.offset + 1]])))
    ensures var d := Consume(c);
            ReadTokenCorrected(c) == (d, Lexeme(LexLocation(Position(c), Position(d)), Number([c.src[c.offset]])))
  {
    var c1 := Consume(c);
    OneDigitNumberAsWritten(c1, c.src[c.offset], Position(c));
    ReadTokenDigit(c);
    CorrectedDigit(c);
  }

  /** What the corrected dispatch does with a digit: the corrected number reader. */
  lemma CorrectedDigit(c: Cursor)
    requires !AtEnd(c) && IsDigit(c.src[c.offset])
    ensures ReadTokenCorrected(c) == ReadNumber(Consume(c), c.src[c.offset], Position(c))
  {
  }

  /** The corrected dispatch reads every number without exponent back as a `Number` carrying its text. */
  lemma NumberRoundTripCorrected(c: Cursor, w: string)
    requires NumberShaped(c, w)
    requires IsDigit(w[0]) || (w[0] == '.' && |w| > 1 && IsDigit(w[1]))
    ensures var d := Advance(c, |w|);
            ReadTokenCorrected(c) == (d, Lexeme(LexLocation(Position(c), Position(d)), Number(w)))
  {
    ReadNumberPlain(c, w, Position(c));
    LooksAtConsume(c, w);
    if w[0] == '.' {
      assert c.src[c.offset + 1] == w[1];
    }
    assert ReadTokenCorrected(c) == ReadNumber(Consume(c), w[0], Position(c));
  }

  // ---------------------------------------------------------------------------
  // Long comments
  // ---------------------------------------------------------------------------

  /** A level-0 long comment whose only closing brackets are of another level runs to the end of input. */
  lemma LevelZeroRunsOut(e: Cursor, start: LexPosition, u: string, n: nat)
    requires n >= 1 && ']' !in u
    requires LooksAt(e, Closing(u, n)) && e.offset + |Closing(u, n)| == |e.src|
    ensures var d := Advance(e, |Closing(u, n)|);
            ReadLongString(e, start, 0, CommentForm, []) == (d, Lexeme(LexLocation(start, Position(d)), BrokenComment))
  {
    LongStringSkipsClose(e, start, 0, CommentForm, [], u, n);
    var d := Advance(e, |Closing(u, n)|);
    LongStringUnclosed(d, start, 0, CommentForm, [] + u);
    assert Advance(d, |d.src| - d.offset) == d;
  }

  /** A long bracket of level `n`, read from just after its first `[`, is level-0 content then a level-`n` closing bracket. */
  lemma LevelZeroShape(n: nat, t: string)
    ensures LongBracket(n, t) == "[" + Closing(Equals(n) + "[" + t, n)
  {
    assert Opening(n) + Closing(t, n) == "[" + (Equals(n) + "[" + t + "]" + Equals(n) + "]");
  }

  /**
   * As written, `--[==[ text ]==]` at the end of input is a `BrokenComment`:
   * the comment reader opens at level 0, so the level-2 closing bracket does
   * not close it and the scan runs to the end. The corrected reader gives
   * `Comment(t)` on the same input (`CommentLevelToken`).
   */
  lemma CommentLevelAsWritten(c: Cursor, n: nat, t: string)
    requires n >= 1 && ']' !in t
    requires LooksAt(c, LongBracket(n, t)) && c.offset + |LongBracket(n, t)| == |c.src|
    ensures var d := Advance(c, |LongBracket(n, t)|);
            ReadCommentBodyAsWritten(c) == (d, Lexeme(LexLocation(Position(c), Position(d)), BrokenComment))
  {
    var u := Equals(n) + "[" + t;
    var w := Closing(u, n);
    LevelZeroShape(n, t);
    LooksAtAppend(c, "[", w);
    assert c.src[c.offset + 0] == "["[0];
    LongCommentOpens(c);
    assert ']' !in u;
    LevelZeroRunsOut(Advance(c, 1), Position(c), u, n);
    AdvanceAdd(c, 1, |w|);
    assert Advance(Advance(c, 1), |w|) == Advance(c, |LongBracket(n, t)|);
  }

  /**
   * As written, a level-0 long comment `--[[t]]` keeps the inner `[` as the
   * first character of its text; the corrected reader gives `Comment(t)`.
   */
  lemma CommentLevelZeroAsWritten(c: Cursor, t: string)
    requires ']' !in t
    requires LooksAt(c, LongBracket(0, t))
    ensures var d := Advance(c, |LongBracket(0, t)|);
            ReadCommentBodyAsWritten(c) == (d, Lexeme(LexLocation(Position(c), Position(d)), Comment("[" + t)))
  {
    var u := "[" + t;
    assert LongBracket(0, t) == "[" + Closing(u, 0);
    LooksAtAppend(c, "[", Closing(u, 0));
    assert c.src[c.offset + 0] == "["[0];
    LongCommentOpens(c);
    var c' := Advance(c, 1);
    LongStringCloses(c', Position(c), 0, CommentForm, [], u);
    AdvanceAdd(c, 1, |Closing(u, 0)|);
    assert Advance(Advance(c, 1), |Closing(u, 0)|) == Advance(c, |LongBracket(0, t)|);
    assert [] + u == u;
  }

  /** What the corrected dispatch does with `--`: the corrected comment reader, from after the two dashes. */
  lemma CorrectedComment(c: Cursor)
    requires LooksAt(c, "--")
    ensures ReadTokenCorrected(c) == ReadCommentBody(Advance(c, 2))
  {
    LooksAtConsume(c, "--");
    LooksAtConsume(Consume(c), "-");
    AdvanceNext(c, 1);
  }

  /** The corrected dispatch reads `--` and a long bracket of any level whose content has no `]` as a `Comment` carrying that content. */
  lemma LongCommentRoundTripCorrected(c: Cursor, n: nat, t: string)
    requires ']' !in t
    requires LooksAt(c, "--" + LongBracket(n, t))
    ensures var d := Advance(c, |LongBracket(n, t)| + 2);
            ReadTokenCorrected(c) == (d, Lexeme(LexLocation(Position(Advance(c, 2)), Position(d)), Comment(t)))
  {
    LooksAtAppend(c, "--", LongBracket(n, t));
    var c2 := Advance(c, 2);
    LongBracketBody(c2, Position(c2), n, CommentForm, t);
    LongBracketTail(n, t);
    LooksAtConsume(c2, LongBracket(n, t));
    AdvanceAdd(c, 2, |LongBracket(n, t)|);
    var d := Advance(c2, |LongBracket(n, t)|);
    var r := ReadCommentBody(c2);
    assert r.0 == d;
    assert r.1.kind == Comment(t);
    CorrectedComment(c);
  }

  /**
   * `read_next` at `--[==[t]==]` (any level from 1) ending the input: the
   * source gives a `BrokenComment` running to the end, the corrected
   * dispatch gives `Comment(t)`.
   */
  lemma CommentLevelToken(c: Cursor, n: nat, t: string)
    requires n >= 1 && ']' !in t
    requires LooksAt(c, "--" + LongBracket(n, t)) && c.offset + 2 + |LongBracket(n, t)| == |c.src|
    ensures var d := Advance(c, |LongBracket(n, t)| + 2);
            ReadToken(c) == (d, Lexeme(LexLocation(Position(Advance(c, 2)), Position(d)), BrokenComment))
    ensures var d := Advance(c, |LongBracket(n, t)| + 2);
            ReadTokenCorrected(c) == (d, Lexeme(LexLocation(Position(Advance(c, 2)), Position(d)), Comment(t)))
  {
    LooksAtAppend(c, "--", LongBracket(n, t));
    var c2 := Advance(c, 2);
    CommentLevelAsWritten(c2, n, t);
    AdvanceAdd(c, 2, |LongBracket(n, t)|);
    ReadTokenComment(c);
    LongCommentRoundTripCorrected(c, n, t);
  }

  // ---------------------------------------------------------------------------
  // Inputs that show each discrepancy
  // ---------------------------------------------------------------------------

  /** In `x = 1` the source reads the name together with the blank after it. */
  lemma NameLookaheadExample(src: string)
    requires src == "x = 1"
    ensures FirstToken(src) == Name("x ")
    ensures ReadTokenCorrected(Start(src)).1.kind == Name("x")
  {
    OneCharNameToken(Start(src));
    FirstTokenIsReadToken(src);
  }

  /** In `1 + 2` the source reads the number together with the blank after it. */
  lemma NumberLookaheadExample(src: string)
    requires src == "1 + 2"
    ensures FirstToken(src) == Number("1 ")
    ensures ReadTokenCorrected(Start(src)).1.kind == Number("1")
  {
    OneDigitNumberToken(Start(src));
    FirstTokenIsReadToken(src);
  }

  lemma CommentLevelShape(src: string)
    requires src == "--[[t]]"
    ensures src == "--[" + Closing("[t", 0)
    ensures src == "--" + LongBracket(0, "t")
  {
    assert Equals(0) == "";
  }

  /** The source reads `--[[t]]` as a comment whose text keeps the second `[`. */
  lemma CommentLevelExample(src: string)
    requires src == "--[[t]]"
    ensures FirstToken(src) == Comment("[t")
    ensures ReadTokenCorrected(Start(src)).1.kind == Comment("t")
  {
    CommentLevelShape(src);
    LongCommentRoundTrip(Start(src), "[t");
    LongCommentRoundTripCorrected(Start(src), 0, "t");
    FirstTokenIsReadToken(src);
  }
}
