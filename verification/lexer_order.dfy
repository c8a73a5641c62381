/**
 * Where tokens lie: every token `read_next` produces lies within the text it
 * consumed, single-line tokens end exactly where the scan stops, and the
 * tokens `next` hands out come in source order without overlapping.
 */
module LexerOrder {
  import opened Location
  import opened LexType
  import opened Cursor
  import opened Lexer
  import opened LexerProps

  /** The token of `r` lies between the scan position `c` it started from and the position it stopped at. */
  predicate Spans(c: Cursor, r: (Cursor, Lexeme)) {
    && Le(Position(c), r.1.location.begin)
    && Le(r.1.location.begin, r.1.location.end)
    && Le(r.1.location.end, Position(r.0))
  }

  /** The token of `r` ends where the scan stopped. */
  predicate EndsAtStop(r: (Cursor, Lexeme)) {
    r.1.location.end == Position(r.0)
  }

  /** A token of `k` characters on one line, read from `c` to `d`. */
  lemma OnLine(c: Cursor, k: nat, d: Cursor, kind: LexType)
    requires Follows(c, d) && d.offset == c.offset + k
    requires forall i :: c.offset <= i < d.offset ==> c.src[i] != '\n'
    ensures var r := (d, Lexeme(LineOffset(Position(c), k), kind));
            Spans(c, r) && EndsAtStop(r)
  {
    SameLine(c, d);
  }

  /** A token running from the position of `b` to where the scan stopped, with `b` at or after `c`. */
  lemma Between(c: Cursor, b: Cursor, r: (Cursor, Lexeme))
    requires Follows(c, b) && Follows(b, r.0)
    requires r.1.location == LexLocation(Position(b), Position(r.0))
    ensures Spans(c, r) && EndsAtStop(r)
  {
    PositionMonotone(c, b);
    PositionMonotone(b, r.0);
  }

  // ---------------------------------------------------------------------------
  // The branches of read_next
  // ---------------------------------------------------------------------------

  lemma MinusSpans(c: Cursor)
    requires CurrentIs(c, '-')
    ensures var r := ReadMinus(Consume(c), Position(c));
            Spans(c, r) && EndsAtStop(r)
  {
    var c' := Consume(c);
    var r := ReadMinus(c', Position(c));
    if CurrentIs(c', '>') || CurrentIs(c', '=') {
      OnLine(c, 2, Consume(c'), r.1.kind);
    } else if CurrentIs(c', '-') {
      var c2 := Consume(c');
      assert r == ReadCommentBodyAsWritten(c2);
      Between(c, c2, r);
    } else {
      OnLine(c, 1, c', Sub);
    }
  }

  /**
   * The `[` branch. A `[` followed by `=` signs and no second `[` is a
   * `BrokenString` one column wide, although the `=` signs are consumed: it
   * lies within the consumed text but ends before the scan does.
   */
  lemma OpenBracketSpans(c: Cursor)
    requires CurrentIs(c, '[')
    ensures var r := ReadOpenBracket(Consume(c), Position(c));
            Spans(c, r) && (r.1.kind.BrokenString? || EndsAtStop(r))
  {
    var c' := Consume(c);
    var r := ReadOpenBracket(c', Position(c));
    var (c'', sep) := SkipLongSeparator(c', '[');
    if sep >= 0 {
      Between(c, c, r);
    } else {
      SameLine(c, c'');
      OnLine(c, 1, c', r.1.kind);
      PositionMonotone(c', c'');
      LeTotalOrder(r.1.location.end, Position(c'), Position(c''));
    }
  }

  lemma QuotedSpans(c: Cursor)
    requires CurrentIs(c, '\'') || CurrentIs(c, '"')
    ensures var r := ReadQuotedString(Consume(c), c.src[c.offset]);
            Spans(c, r) && EndsAtStop(r)
  {
    var c' := Consume(c);
    Between(c, c', ReadQuotedString(c', c.src[c.offset]));
  }

  lemma DotSpans(c: Cursor)
    requires CurrentIs(c, '.')
    ensures var r := ReadDot(Consume(c), Position(c));
            Spans(c, r) && EndsAtStop(r)
  {
    var c' := Consume(c);
    var r := ReadDot(c', Position(c));
    if CurrentIs(c', '.') {
      var c2 := Consume(c');
      if CurrentIs(c2, '.') || CurrentIs(c2, '=') {
        OnLine(c, 3, Consume(c2), r.1.kind);
      } else {
        OnLine(c, 2, c2, Dot2);
      }
    } else if !AtEnd(c') && IsDigit(c'.src[c'.offset]) {
      Between(c, c, r);
    } else {
      OnLine(c, 1, c', Dot);
    }
  }

  /**
   * Every token `read_next` produces lies within the text it consumed; every
   * token except `Eof` (which is zero-width) and the one-column
   * `BrokenString` of `[=` ends exactly where the scan stopped.
   */
  lemma ReadTokenOrdered(c: Cursor)
    ensures Spans(c, ReadToken(c))
    ensures var r := ReadToken(c);
            r.1.kind.Eof? || r.1.kind.BrokenString? || EndsAtStop(r)
  {
    var r := ReadToken(c);
    if AtEnd(c) {
      return;
    }
    var ch := c.src[c.offset];
    var c' := Consume(c);
    if ch == '-' {
      MinusSpans(c);
    } else if OperatorPair(ch).Some? {
      var (second, one, two) := OperatorPair(ch).value;
      if CurrentIs(c', second) {
        OnLine(c, 2, Consume(c'), two);
      } else {
        OnLine(c, 1, c', one);
      }
    } else if ch == '[' {
      OpenBracketSpans(c);
    } else if ch == '\'' || ch == '"' {
      QuotedSpans(c);
    } else if ch == '.' {
      DotSpans(c);
    } else if SinglePunctuation(ch).Some? {
      OnLine(c, 1, c', r.1.kind);
    } else if IsDigit(ch) || IsAlphabetic(ch) || ch == '_' {
      Between(c, c, r);
    } else {
      PositionMonotone(c, c');
    }
  }

  /**
   * `read_next` answers `Eof` exactly at the end of input and at a character
   * that starts no token; every other branch produces a real token.
   */
  lemma ReadTokenEof(c: Cursor)
    ensures ReadToken(c).1.kind.Eof? <==> AtEnd(c) || !StartsToken(c.src[c.offset])
  {
    if !AtEnd(c) && StartsToken(c.src[c.offset]) {
      var ch := c.src[c.offset];
      if ch == '-' || ch == '[' || ch == '.' {
        SymbolNotEof(c);
      } else if IsDigit(ch) || IsAlphabetic(ch) || ch == '_' {
        WordNotEof(c);
      }
    }
  }

  /** The `-`, `[` and `.` branches never answer `Eof`. */
  lemma SymbolNotEof(c: Cursor)
    requires CurrentIs(c, '-') || CurrentIs(c, '[') || CurrentIs(c, '.')
    ensures !ReadToken(c).1.kind.Eof?
  {
    var c' := Consume(c);
    if CurrentIs(c, '-') {
      assert ReadToken(c) == ReadMinus(c', Position(c));
    } else if CurrentIs(c, '[') {
      assert ReadToken(c) == ReadOpenBracket(c', Position(c));
    } else {
      assert ReadToken(c) == ReadDot(c', Position(c));
    }
  }

  /** A number or a name is never `Eof`. */
  lemma WordNotEof(c: Cursor)
    requires !AtEnd(c)
    requires IsDigit(c.src[c.offset]) || IsAlphabetic(c.src[c.offset]) || c.src[c.offset] == '_'
    ensures !ReadToken(c).1.kind.Eof?
  {
    if IsDigit(c.src[c.offset]) {
      ReadTokenDigit(c);
    } else {
      ReadTokenName(c);
      var r := ReadToken(c);
      KeywordOrNameNotEof(r.1.kind, [c.src[c.offset]] + c.src[c.offset + 1..(r.0.offset)]);
    }
  }

  lemma KeywordOrNameNotEof(k: LexType, w: string)
    requires k == KeywordOrName(w)
    ensures !k.Eof?
  {
    if KeywordOf(w).Some? {
      assert IsKeyword(KeywordOf(w).value);
    }
  }

  // ---------------------------------------------------------------------------
  // The token stream
  // ---------------------------------------------------------------------------

  /** The last token lies before the scan position. */
  predicate Settled(lx: LexerState) {
    Le(lx.lexeme.location.begin, lx.lexeme.location.end) && Le(lx.lexeme.location.end, Position(lx.cursor))
  }

  lemma NewLexerSettled(src: string)
    ensures Settled(NewLexer(src))
  {
  }

  /**
   * `next` keeps the lexer settled, and the token it hands out starts no
   * earlier than the previous one ended: tokens come in source order and
   * never overlap.
   */
  lemma {:induction false} NextOrdered(lx: LexerState, skipComments: bool)
    requires Settled(lx)
    ensures Settled(Next(lx, skipComments))
    ensures Le(lx.lexeme.location.end, Next(lx, skipComments).lexeme.location.begin)
    decreases |lx.cursor.src| - lx.cursor.offset
  {
    var c := SkipSpace(lx.cursor);
    var (c', lexeme) := ReadToken(c);
    var lx' := LexerState(c', lexeme, lx.lexeme.location);
    PositionMonotone(lx.cursor, c);
    ReadTokenOrdered(c);
    LeTotalOrder(lx.lexeme.location.end, Position(lx.cursor), Position(c));
    LeTotalOrder(lx.lexeme.location.end, Position(c), lexeme.location.begin);
    assert Settled(lx') by {
      LeTotalOrder(lexeme.location.begin, lexeme.location.end, Position(c'));
    }
    if skipComments && IsComment(lexeme.kind) {
      NextOrdered(lx', skipComments);
      LeTotalOrder(lexeme.location.begin, lexeme.location.end, Next(lx', skipComments).lexeme.location.begin);
      LeTotalOrder(lx.lexeme.location.end, lexeme.location.begin, Next(lx', skipComments).lexeme.location.begin);
    }
  }
}
