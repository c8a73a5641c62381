/**
 * What the lexer reads back for the bracketed forms: long brackets (raw
 * strings), quoted strings and comments, each written out as source text,
 * and how their malformed variants degrade to the `Broken*` kinds.
 */
module LexerForms {
  import opened Wrappers
  import opened Location
  import opened LexType
  import opened Cursor
  import opened Lexer
  import opened LexerProps

  // ---------------------------------------------------------------------------
  // Dispatch of `read_next` on the first character
  // ---------------------------------------------------------------------------

  lemma ReadTokenOpenBracket(c: Cursor)
    requires CurrentIs(c, '[')
    ensures ReadToken(c) == ReadOpenBracket(Consume(c), Position(c))
  {
  }

  lemma ReadTokenQuote(c: Cursor, delimiter: char)
    requires delimiter == '\'' || delimiter == '"'
    requires CurrentIs(c, delimiter)
    ensures ReadToken(c) == ReadQuotedBody(Consume(c), delimiter, Position(Consume(c)), [])
  {
  }

  lemma ReadTokenMinus(c: Cursor)
    requires CurrentIs(c, '-')
    ensures ReadToken(c) == ReadMinus(Consume(c), Position(c))
  {
  }

  // ---------------------------------------------------------------------------
  // Raw strings
  // ---------------------------------------------------------------------------

  /** After the opening `[`, the rest of a long bracket splits into its separator and its closing part. */
  lemma LongBracketTail(n: nat, t: string)
    ensures LongBracket(n, t)[0] == '['
    ensures LongBracket(n, t)[1..] == (Equals(n) + "[") + Closing(t, n)
    ensures |LongBracket(n, t)| == n + 2 + |Closing(t, n)|
  {
  }

  /** The reader of a long bracket after its opening bracket of level `n`: it stops after the closing bracket. */
  lemma LongBracketBody(c: Cursor, start: LexPosition, n: nat, form: LongForm, t: string)
    requires ']' !in t
    requires LooksAt(c, LongBracket(n, t))
    ensures var c' := Consume(c);
            var d := Advance(c, |LongBracket(n, t)|);
            && SkipLongSeparator(c', '[') == (Advance(c', n + 1), n)
            && ReadLongString(Advance(c', n + 1), start, n, form, []) == (d, Lexeme(LexLocation(start, Position(d)), Wrap(form, t)))
  {
    LongBracketTail(n, t);
    LooksAtConsume(c, LongBracket(n, t));
    var c' := Consume(c);
    LooksAtAppend(c', Equals(n) + "[", Closing(t, n));
    SeparatorCounts(c', '[', n);
    LongStringCloses(Advance(c', n + 1), start, n, form, [], t);
    AdvanceAdd(c', n + 1, |Closing(t, n)|);
    AdvanceStep(c, |LongBracket(n, t)|);
    assert [] + t == t;
  }

  /** A long bracket of any level whose content has no `]` is read as a `RawString` carrying that content. */
  lemma RawStringRoundTrip(c: Cursor, n: nat, t: string)
    requires ']' !in t
    requires LooksAt(c, LongBracket(n, t))
    ensures var d := Advance(c, |LongBracket(n, t)|);
            ReadToken(c) == (d, Lexeme(LexLocation(Position(c), Position(d)), RawString(t)))
  {
    LongBracketBody(c, Position(c), n, RawStringForm, t);
    LongBracketTail(n, t);
    LooksAtConsume(c, LongBracket(n, t));
    ReadTokenOpenBracket(c);
  }

  /**
   * The reader of a long bracket of level `n` closed at level `m` instead,
   * with nothing after it: it drops the closing bracket and runs to the end.
   */
  lemma LongBracketMismatch(c: Cursor, start: LexPosition, n: nat, form: LongForm, t: string, m: nat)
    requires ']' !in t && m != n
    requires LooksAt(c, Opening(n) + Closing(t, m))
    requires c.offset + |Opening(n) + Closing(t, m)| == |c.src|
    ensures var c' := Consume(c);
            var d := Advance(c, |c.src| - c.offset);
            && SkipLongSeparator(c', '[') == (Advance(c', n + 1), n)
            && ReadLongString(Advance(c', n + 1), start, n, form, []) == (d, Lexeme(LexLocation(start, Position(d)), Broken(form)))
  {
    var w := Opening(n) + Closing(t, m);
    assert w[0] == '[' && w[1..] == (Equals(n) + "[") + Closing(t, m);
    LooksAtConsume(c, w);
    var c' := Consume(c);
    LooksAtAppend(c', Equals(n) + "[", Closing(t, m));
    SeparatorCounts(c', '[', n);
    var e := Advance(c', n + 1);
    MismatchRunsOut(e, start, n, form, t, m);
    assert Advance(e, |e.src| - e.offset) == Advance(c, |c.src| - c.offset);
  }

  /** After the opening bracket, a closing bracket of another level at the end of input leaves the string broken. */
  lemma MismatchRunsOut(e: Cursor, start: LexPosition, n: nat, form: LongForm, t: string, m: nat)
    requires ']' !in t && m != n
    requires LooksAt(e, Closing(t, m)) && e.offset + |Closing(t, m)| == |e.src|
    ensures var d := Advance(e, |e.src| - e.offset);
            ReadLongString(e, start, n, form, []) == (d, Lexeme(LexLocation(start, Position(d)), Broken(form)))
  {
    LongStringSkipsClose(e, start, n, form, [], t, m);
    var d := Advance(e, |Closing(t, m)|);
    LongStringUnclosed(d, start, n, form, [] + t);
    assert Advance(d, |d.src| - d.offset) == d;
  }

  /**
   * A long bracket closed at another level, with nothing after it, runs to
   * the end of input and is a `BrokenString` (as `[===[hello world]====]`).
   */
  lemma RawStringMismatch(c: Cursor, n: nat, t: string, m: nat)
    requires ']' !in t && m != n
    requires LooksAt(c, Opening(n) + Closing(t, m))
    requires c.offset + |Opening(n) + Closing(t, m)| == |c.src|
    ensures var d := Advance(c, |c.src| - c.offset);
            ReadToken(c) == (d, Lexeme(LexLocation(Position(c), Position(d)), BrokenString))
  {
    LongBracketMismatch(c, Position(c), n, RawStringForm, t, m);
    LooksAtConsume(c, Opening(n) + Closing(t, m));
    ReadTokenOpenBracket(c);
  }

  /** A long bracket never closed runs to the end of input and is a `BrokenString` (as `[===[hello world`). */
  lemma RawStringUnclosed(c: Cursor, n: nat, t: string)
    requires ']' !in t
    requires LooksAt(c, Opening(n) + t) && c.offset + |Opening(n) + t| == |c.src|
    ensures var d := Advance(c, |c.src| - c.offset);
            ReadToken(c) == (d, Lexeme(LexLocation(Position(c), Position(d)), BrokenString))
  {
    var w := Opening(n) + t;
    assert w[0] == '[' && w[1..] == (Equals(n) + "[") + t;
    LooksAtConsume(c, w);
    var c' := Consume(c);
    LooksAtAppend(c', Equals(n) + "[", t);
    SeparatorCounts(c', '[', n);
    var e := Advance(c', n + 1);
    assert forall k :: e.offset <= k < |e.src| ==> e.src[k] == t[k - e.offset];
    LongStringUnclosed(e, Position(c), n, RawStringForm, []);
    assert Advance(e, |e.src| - e.offset) == Advance(c, |c.src| - c.offset);
    ReadTokenOpenBracket(c);
  }

  /**
   * `[` followed by `n` equals signs that open nothing is the bracket itself
   * when `n` is 0 and a one-column `BrokenString` otherwise; the equals signs
   * are consumed either way.
   */
  lemma OpenBracketAlone(c: Cursor, n: nat)
    requires LooksAt(c, "[" + Equals(n))
    requires c.offset + n + 1 == |c.src| || (c.src[c.offset + n + 1] != '=' && c.src[c.offset + n + 1] != '[')
    ensures ReadToken(c) == (Advance(c, n + 1), Lexeme(LineOffset(Position(c), 1), if n == 0 then LeftSquareBracket else BrokenString))
  {
    LooksAtConsume(c, "[" + Equals(n));
    assert ("[" + Equals(n))[1..] == Equals(n);
    SeparatorOpen(Consume(c), '[', n);
    AdvanceStep(c, n + 1);
    ReadTokenOpenBracket(c);
  }

  // ---------------------------------------------------------------------------
  // Quoted strings
  // ---------------------------------------------------------------------------

  /**
   * How a character is written inside a quoted string so that it reads back
   * as itself: a backslash is doubled, a line break gets a backslash in front,
   * anything else stands for itself. The delimiter has no escape.
   */
  function EscapeChar(ch: char): (r: string)
    ensures 1 <= |r| <= 2 && r[|r| - 1] == ch
    ensures |r| == 2 <==> (ch == '\\' || ch == '\r' || ch == '\n')
    ensures |r| == 2 ==> r[0] == '\\' && Unescape(r[1]) == Some(ch)
  {
    if ch == '\\' || ch == '\r' || ch == '\n' then ['\\', ch] else [ch]
  }

  /** The body of a quoted string that reads back as `t`. */
  function Escape(t: string): (r: string)
    ensures |r| >= |t|
  {
    if t == [] then [] else EscapeChar(t[0]) + Escape(t[1..])
  }

  /** One written character of the body is read back as that character. */
  lemma QuotedStep(c: Cursor, delimiter: char, start: LexPosition, buf: string, ch: char)
    requires delimiter != '\\' && ch != delimiter
    requires LooksAt(c, EscapeChar(ch))
    ensures ReadQuotedBody(c, delimiter, start, buf)
         == ReadQuotedBody(Advance(c, |EscapeChar(ch)|), delimiter, start, buf + [ch])
  {
    var w := EscapeChar(ch);
    LooksAtConsume(c, w);
    AdvanceStep(c, |w|);
    if |w| == 2 {
      LooksAtConsume(Consume(c), w[1..]);
      AdvanceStep(Consume(c), 1);
    }
  }

  /**
   * The letter escapes: a backslash followed by the letter `r` or `n` is
   * read as a line feed, and reading goes on after the letter.
   */
  lemma LetterEscapeStep(c: Cursor, delimiter: char, start: LexPosition, buf: string, ch: char)
    requires delimiter != '\\' && (ch == 'r' || ch == 'n')
    requires LooksAt(c, ['\\', ch])
    ensures ReadQuotedBody(c, delimiter, start, buf)
         == ReadQuotedBody(Advance(c, 2), delimiter, start, buf + ['\n'])
  {
    LooksAtConsume(c, ['\\', ch]);
    LooksAtConsume(Consume(c), ['\\', ch][1..]);
    AdvanceStep(c, 2);
    AdvanceStep(Consume(c), 1);
  }

  /**
   * A written body `w` of a text without the delimiter is read back as that
   * text, and reading goes on after it.
   */
  lemma {:induction false} QuotedBodyPrefix(c: Cursor, delimiter: char, start: LexPosition, buf: string, t: string, w: string)
    requires delimiter != '\\' && delimiter !in t
    requires w == Escape(t) && LooksAt(c, w)
    ensures ReadQuotedBody(c, delimiter, start, buf)
         == ReadQuotedBody(Advance(c, |w|), delimiter, start, buf + t)
    decreases |t|
  {
    if t == [] {
      assert buf + t == buf;
    } else {
      var h := EscapeChar(t[0]);
      var w' := Escape(t[1..]);
      assert w == h + w';
      LooksAtAppend(c, h, w');
      QuotedStep(c, delimiter, start, buf, t[0]);
      QuotedBodyPrefix(Advance(c, |h|), delimiter, start, buf + [t[0]], t[1..], w');
      AdvanceAdd(c, |h|, |w'|);
      assert Advance(Advance(c, |h|), |w'|) == Advance(c, |w|);
      AppendHead(buf, t);
    }
  }

  /** The text after the opening delimiter of a quoted string. */
  lemma QuotedOpen(c: Cursor, delimiter: char, tail: string)
    requires LooksAt(c, [delimiter] + tail)
    ensures CurrentIs(c, delimiter)
    ensures LooksAt(Consume(c), tail)
  {
    LooksAtConsume(c, [delimiter] + tail);
    assert ([delimiter] + tail)[1..] == tail;
  }

  /** A written body followed by the delimiter closes the string, carrying the text the body stands for. */
  lemma QuotedBodyCloses(c: Cursor, delimiter: char, start: LexPosition, t: string, w: string)
    requires delimiter != '\\' && delimiter !in t
    requires w == Escape(t) && LooksAt(c, w + [delimiter])
    ensures var d := Advance(c, |w| + 1);
            ReadQuotedBody(c, delimiter, start, []) == (d, Lexeme(LexLocation(start, Position(d)), QuotedString(t)))
  {
    LooksAtAppend(c, w, [delimiter]);
    QuotedBodyPrefix(c, delimiter, start, [], t, w);
    var e := Advance(c, |w|);
    LooksAtConsume(e, [delimiter]);
    AdvanceAdd(c, |w|, 1);
    assert [] + t == t;
    var d := Advance(c, |w| + 1);
    var r := ReadQuotedBody(c, delimiter, start, []);
    assert r.0 == d;
    assert r.1.kind == QuotedString(t);
  }

  /**
   * A quoted string whose text `t` has no delimiter, written as `w` with
   * `Escape`, is read as a `QuotedString` carrying exactly `t`; its location
   * starts after the opening delimiter.
   */
  lemma QuotedRoundTrip(c: Cursor, delimiter: char, t: string, w: string)
    requires delimiter == '\'' || delimiter == '"'
    requires delimiter !in t
    requires w == Escape(t) && LooksAt(c, [delimiter] + (w + [delimiter]))
    ensures var d := Advance(c, |w| + 2);
            ReadToken(c) == (d, Lexeme(LexLocation(Position(Consume(c)), Position(d)), QuotedString(t)))
  {
    QuotedOpen(c, delimiter, w + [delimiter]);
    var c' := Consume(c);
    QuotedBodyCloses(c', delimiter, Position(c'), t, w);
    AdvanceNext(c, |w| + 1);
    ReadTokenQuote(c, delimiter);
  }

  /** Input that ends inside a quoted string makes it a `BrokenString` ending at the end of input. */
  lemma QuotedUnterminated(c: Cursor, delimiter: char, t: string, w: string)
    requires delimiter == '\'' || delimiter == '"'
    requires delimiter !in t
    requires w == Escape(t) && LooksAt(c, [delimiter] + w)
    requires c.offset + 1 + |w| == |c.src|
    ensures var d := Advance(c, |w| + 1);
            AtEnd(d) && ReadToken(c) == (d, Lexeme(LexLocation(Position(Consume(c)), Position(d)), BrokenString))
  {
    QuotedOpen(c, delimiter, w);
    var c' := Consume(c);
    QuotedBodyPrefix(c', delimiter, Position(c'), [], t, w);
    AdvanceNext(c, |w|);
    ReadTokenQuote(c, delimiter);
  }

  /** What makes a quoted string broken: a bare line break, or a backslash before anything it cannot escape. */
  predicate BreaksQuote(tail: string) {
    || tail == "\r"
    || tail == "\n"
    || (|tail| == 2 && tail[0] == '\\' && Unescape(tail[1]).None?)
  }

  /** The offending text ends the body at once, as a `BrokenString`. */
  lemma QuotedTailBreaks(c: Cursor, delimiter: char, start: LexPosition, buf: string, tail: string)
    requires delimiter !in tail && BreaksQuote(tail)
    requires LooksAt(c, tail)
    ensures var d := Advance(c, |tail|);
            ReadQuotedBody(c, delimiter, start, buf) == (d, Lexeme(LexLocation(start, Position(d)), BrokenString))
  {
    LooksAtConsume(c, tail);
    AdvanceStep(c, |tail|);
    if |tail| == 2 {
      LooksAtConsume(Consume(c), tail[1..]);
      AdvanceStep(Consume(c), 1);
    }
  }

  /** A written body followed by offending text is a `BrokenString` ending just after that text. */
  lemma QuotedBodyBreaks(c: Cursor, delimiter: char, start: LexPosition, t: string, w: string, tail: string)
    requires delimiter != '\\' && delimiter !in t && delimiter !in tail
    requires BreaksQuote(tail)
    requires w == Escape(t) && LooksAt(c, w + tail)
    ensures var d := Advance(c, |w| + |tail|);
            ReadQuotedBody(c, delimiter, start, []) == (d, Lexeme(LexLocation(start, Position(d)), BrokenString))
  {
    LooksAtAppend(c, w, tail);
    QuotedBodyPrefix(c, delimiter, start, [], t, w);
    var e := Advance(c, |w|);
    QuotedTailBreaks(e, delimiter, start, [] + t, tail);
    AdvanceAdd(c, |w|, |tail|);
    var d := Advance(e, |tail|);
    var r := ReadQuotedBody(c, delimiter, start, []);
    assert r.0 == d;
    assert r.1.kind == BrokenString;
  }

  /** A bare line break or a bad escape ends a quoted string as a `BrokenString`, just after the offending text. */
  lemma QuotedBroken(c: Cursor, delimiter: char, t: string, w: string, tail: string)
    requires delimiter == '\'' || delimiter == '"'
    requires delimiter !in t && delimiter !in tail
    requires BreaksQuote(tail)
    requires w == Escape(t) && LooksAt(c, [delimiter] + (w + tail))
    ensures var d := Advance(c, |w| + |tail| + 1);
            ReadToken(c) == (d, Lexeme(LexLocation(Position(Consume(c)), Position(d)), BrokenString))
  {
    QuotedOpen(c, delimiter, w + tail);
    var c' := Consume(c);
    QuotedBodyBreaks(c', delimiter, Position(c'), t, w, tail);
    AdvanceNext(c, |w| + |tail|);
    ReadTokenQuote(c, delimiter);
  }

  // ---------------------------------------------------------------------------
  // Comments
  // ---------------------------------------------------------------------------

  /** What `read_next` does with `--`: `read_comment_body` as written, from after the two dashes. */
  lemma ReadTokenComment(c: Cursor)
    requires LooksAt(c, "--")
    ensures ReadToken(c) == ReadCommentBodyAsWritten(Advance(c, 2))
  {
    LooksAtConsume(c, "--");
    LooksAtConsume(Consume(c), "-");
    ReadTokenMinus(c);
    AdvanceNext(c, 1);
  }

  /** The line-comment loop steps over exactly the text up to the line break. */
  lemma LineRun(c: Cursor, t: string)
    requires LooksAt(c, t)
    requires forall k :: 0 <= k < |t| ==> InClass(LineClass, t[k])
    requires c.offset + |t| == |c.src| || c.src[c.offset + |t|] == '\r' || c.src[c.offset + |t|] == '\n'
    ensures Run(c, LineClass, []) == (Advance(c, |t|), t)
  {
    LooksAtClass(c, t, LineClass);
    RunStops(c, LineClass, [], |t|);
    LooksAtSlice(c, t);
    assert [] + c.src[c.offset..c.offset + |t|] == t;
  }

  /** The line-comment tail on a line `t`: the comment carries `t` and the scan stops at the line break. */
  lemma LineCommentOf(c: Cursor, start: LexPosition, t: string)
    requires LooksAt(c, t)
    requires forall k :: 0 <= k < |t| ==> InClass(LineClass, t[k])
    requires c.offset + |t| == |c.src| || c.src[c.offset + |t|] == '\r' || c.src[c.offset + |t|] == '\n'
    ensures var d := Advance(c, |t|);
            ReadLineComment(c, start) == (d, Lexeme(LexLocation(start, Position(d)), Comment(t)))
  {
    LineRun(c, t);
  }

  /** The comment reader on a line that does not start with `[`: the whole line is the comment. */
  lemma LineCommentBody(c: Cursor, t: string)
    requires LooksAt(c, t)
    requires |t| == 0 || t[0] != '['
    requires forall k :: 0 <= k < |t| ==> InClass(LineClass, t[k])
    requires c.offset + |t| == |c.src| || c.src[c.offset + |t|] == '\r' || c.src[c.offset + |t|] == '\n'
    ensures var d := Advance(c, |t|);
            ReadCommentBodyAsWritten(c) == (d, Lexeme(LexLocation(Position(c), Position(d)), Comment(t)))
  {
    assert !CurrentIs(c, '[') by {
      if |t| > 0 {
        assert c.src[c.offset + 0] == t[0];
      }
    }
    assert ReadCommentBodyAsWritten(c) == ReadLineComment(c, Position(c));
    LineCommentOf(c, Position(c), t);
  }

  /**
   * `--` and then a line that does not start with `[` is a `Comment`
   * carrying the rest of the line, up to (not including) the line break.
   */
  lemma LineCommentRoundTrip(c: Cursor, t: string)
    requires LooksAt(c, "--" + t)
    requires |t| == 0 || t[0] != '['
    requires forall k :: 0 <= k < |t| ==> InClass(LineClass, t[k])
    requires c.offset + 2 + |t| == |c.src| || c.src[c.offset + 2 + |t|] == '\r' || c.src[c.offset + 2 + |t|] == '\n'
    ensures var d := Advance(c, |t| + 2);
            ReadToken(c) == (d, Lexeme(LexLocation(Position(Advance(c, 2)), Position(d)), Comment(t)))
  {
    LineCommentAfterDashes(c, t);
    ReadTokenComment(c);
  }

  /** The comment reader after `--` in `LineCommentRoundTrip`. */
  lemma LineCommentAfterDashes(c: Cursor, t: string)
    requires LooksAt(c, "--" + t)
    requires |t| == 0 || t[0] != '['
    requires forall k :: 0 <= k < |t| ==> InClass(LineClass, t[k])
    requires c.offset + 2 + |t| == |c.src| || c.src[c.offset + 2 + |t|] == '\r' || c.src[c.offset + 2 + |t|] == '\n'
    ensures LooksAt(c, "--")
    ensures var d := Advance(c, |t| + 2);
            ReadCommentBodyAsWritten(Advance(c, 2)) == (d, Lexeme(LexLocation(Position(Advance(c, 2)), Position(d)), Comment(t)))
  {
    LooksAtAppend(c, "--", t);
    var c2 := Advance(c, 2);
    assert c2.offset == c.offset + 2;
    LineCommentBody(c2, t);
    AdvanceAdd(c, 2, |t|);
  }

  /**
   * `read_comment_body` as written opens a long comment at every `[`, at
   * level 0 and just after that `[`: it counts the `=` signs only after
   * stepping over the bracket it was asked to find.
   */
  lemma LongCommentOpens(c: Cursor)
    requires CurrentIs(c, '[')
    ensures ReadCommentBodyAsWritten(c) == ReadLongString(Advance(c, 1), Position(c), 0, CommentForm, [])
  {
    assert LooksAt(c, Equals(0) + ['[']);
    SeparatorCounts(c, '[', 0);
  }

  /**
   * `--[`, then text `u` without `]`, then `]]` is a `Comment` carrying `u`.
   * So `--[[t]]` carries `[t`, and `--[==[t]==]` never closes at its own
   * closing bracket (`LexerFindings.CommentLevelAsWritten`).
   */
  lemma LongCommentRoundTrip(c: Cursor, u: string)
    requires ']' !in u
    requires LooksAt(c, "--[" + Closing(u, 0))
    ensures var d := Advance(c, |Closing(u, 0)| + 3);
            ReadToken(c) == (d, Lexeme(LexLocation(Position(Advance(c, 2)), Position(d)), Comment(u)))
  {
    var c2 := Advance(c, 2);
    assert "--[" + Closing(u, 0) == "--" + ("[" + Closing(u, 0));
    LooksAtAppend(c, "--", "[" + Closing(u, 0));
    LongCommentBodyCloses(c2, u);
    AdvanceAdd(c, 2, 1 + |Closing(u, 0)|);
    ReadTokenComment(c);
  }

  /** The comment reader as written, at `[`, a text without `]` and `]]`: a comment carrying the text. */
  lemma LongCommentBodyCloses(c: Cursor, u: string)
    requires ']' !in u
    requires LooksAt(c, "[" + Closing(u, 0))
    ensures var d := Advance(c, 1 + |Closing(u, 0)|);
            ReadCommentBodyAsWritten(c) == (d, Lexeme(LexLocation(Position(c), Position(d)), Comment(u)))
  {
    LooksAtAppend(c, "[", Closing(u, 0));
    assert c.src[c.offset + 0] == "["[0];
    LongCommentOpens(c);
    LongStringCloses(Advance(c, 1), Position(c), 0, CommentForm, [], u);
    assert [] + u == u;
    AdvanceAdd(c, 1, |Closing(u, 0)|);
  }


  /** After `[` and a text without `]` that runs to the end, no `]` follows. */
  lemma NoCloseAfterOpen(c: Cursor, u: string)
    requires ']' !in u
    requires LooksAt(c, "[" + u) && c.offset + 1 + |u| == |c.src|
    ensures forall k :: c.offset + 1 <= k < |c.src| ==> c.src[k] != ']'
  {
    forall k | c.offset + 1 <= k < |c.src|
      ensures c.src[k] != ']'
    {
      var j := k - c.offset;
      assert c.src[c.offset + j] == ("[" + u)[j];
      assert ("[" + u)[j] == u[j - 1];
    }
  }

  /** Text without `]` to the end of input, ahead of the comment reader's `[`, makes a broken long comment. */
  lemma LongCommentBodyUnclosed(c: Cursor, u: string)
    requires ']' !in u
    requires LooksAt(c, "[" + u) && c.offset + 1 + |u| == |c.src|
    ensures var d := Advance(c, |u| + 1);
            ReadCommentBodyAsWritten(c) == (d, Lexeme(LexLocation(Position(c), Position(d)), BrokenComment))
  {
    LooksAtAppend(c, "[", u);
    assert c.src[c.offset + 0] == "["[0];
    LongCommentOpens(c);
    var e := Advance(c, 1);
    NoCloseAfterOpen(c, u);
    LongStringUnclosed(e, Position(c), 0, CommentForm, []);
    AdvanceAdd(c, 1, |u|);
    var d := Advance(c, |u| + 1);
    assert |e.src| - e.offset == |u| && Advance(e, |u|) == d;
    assert ReadLongString(e, Position(c), 0, CommentForm, []) == (d, Lexeme(LexLocation(Position(c), Position(d)), BrokenComment));
  }

  /**
   * `--[` followed by text without `]` up to the end of input is a
   * `BrokenComment` running to the end, even when that text is an ordinary
   * line such as `--[ note`: the bracket always opens a long comment.
   */
  lemma LongCommentUnclosed(c: Cursor, u: string)
    requires ']' !in u
    requires LooksAt(c, "--[" + u) && c.offset + 3 + |u| == |c.src|
    ensures var d := Advance(c, |u| + 3);
            ReadToken(c) == (d, Lexeme(LexLocation(Position(Advance(c, 2)), Position(d)), BrokenComment))
  {
    var c2 := Advance(c, 2);
    UnclosedAfterDashes(c, u);
    LongCommentBodyUnclosed(c2, u);
    AdvanceAdd(c, 2, |u| + 1);
    ReadTokenComment(c);
  }

  /** After the dashes of `--[` and a text without `]` running to the end, the comment body starts with `[` and the text. */
  lemma UnclosedAfterDashes(c: Cursor, u: string)
    requires LooksAt(c, "--[" + u) && c.offset + 3 + |u| == |c.src|
    ensures LooksAt(c, "--")
    ensures var c2 := Advance(c, 2);
            LooksAt(c2, "[" + u) && c2.offset + 1 + |u| == |c2.src|
  {
    assert "--[" + u == "--" + ("[" + u);
    LooksAtAppend(c, "--", "[" + u);
  }


}
