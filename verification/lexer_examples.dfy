/**
 * The first token `next(false)` hands out for a fresh lexer over some of the
 * inputs the lexer's own unit tests list, each obtained from the general
 * properties of the readers.
 */
module LexerExamples {
  import opened Location
  import opened LexType
  import opened Cursor
  import opened Lexer
  import opened LexerProps
  import opened LexerForms

  /** The first token of `src` when `src` does not start with a blank. */
  function FirstToken(src: string): LexType {
    Next(NewLexer(src), false).lexeme.kind
  }

  lemma FirstTokenIsReadToken(src: string)
    requires |src| > 0 && !IsSpace(src[0])
    ensures FirstToken(src) == ReadToken(Start(src)).1.kind
  {
    assert SkipSpace(Start(src)) == Start(src);
  }

  /** A character no token starts with is consumed and answered with a zero-width `Eof`. */
  lemma UnknownCharExample(src: string)
    requires src == "@"
    ensures var lx := Next(NewLexer(src), false);
            lx.lexeme.kind == Eof && lx.cursor.offset == 1 && lx.lexeme.location == LineZero(ZeroPosition)
  {
    assert SkipSpace(Start(src)) == Start(src);
    assert !StartsToken('@');
  }

  lemma EqualsThree()
    ensures Equals(3) == "==="
  {
  }

  // ---------------------------------------------------------------------------
  // First tokens of whole inputs of a given shape
  // ---------------------------------------------------------------------------

  lemma RawStringFirst(src: string, n: nat, t: string)
    requires ']' !in t && src == LongBracket(n, t)
    ensures FirstToken(src) == RawString(t)
  {
    RawStringRoundTrip(Start(src), n, t);
    FirstTokenIsReadToken(src);
  }

  lemma RawStringUnclosedFirst(src: string, n: nat, t: string)
    requires ']' !in t && src == Opening(n) + t
    ensures FirstToken(src) == BrokenString
  {
    RawStringUnclosed(Start(src), n, t);
    FirstTokenIsReadToken(src);
  }

  lemma RawStringMismatchFirst(src: string, n: nat, t: string, m: nat)
    requires ']' !in t && m != n && src == Opening(n) + Closing(t, m)
    ensures FirstToken(src) == BrokenString
  {
    RawStringMismatch(Start(src), n, t, m);
    FirstTokenIsReadToken(src);
  }

  lemma QuotedFirst(src: string, delimiter: char, t: string, w: string)
    requires delimiter == '\'' || delimiter == '"'
    requires delimiter !in t && w == Escape(t)
    requires src == [delimiter] + (w + [delimiter])
    ensures FirstToken(src) == QuotedString(t)
  {
    QuotedRoundTrip(Start(src), delimiter, t, w);
    FirstTokenIsReadToken(src);
  }

  lemma LineCommentFirst(src: string, t: string)
    requires src == "--" + t
    requires |t| == 0 || t[0] != '['
    requires forall k :: 0 <= k < |t| ==> InClass(LineClass, t[k])
    ensures FirstToken(src) == Comment(t)
  {
    LineCommentRoundTrip(Start(src), t);
    FirstTokenIsReadToken(src);
  }

  lemma NameFirst(src: string, w: string)
    requires NameShaped(Start(src), w) && (IsAlphabetic(w[0]) || w[0] == '_')
    requires |w| >= 2 || |w| == |src|
    ensures FirstToken(src) == KeywordOrName(w)
  {
    NameRoundTrip(Start(src), w);
    FirstTokenIsReadToken(src);
  }

  lemma NumberFirst(src: string)
    requires NumberShaped(Start(src), src)
    requires IsDigit(src[0]) || (src[0] == '.' && |src| > 1 && IsDigit(src[1]))
    ensures FirstToken(src) == Number(src)
  {
    NumberRoundTrip(Start(src), src);
    FirstTokenIsReadToken(src);
  }

  // ---------------------------------------------------------------------------
  // Inputs from the unit tests
  // ---------------------------------------------------------------------------

  lemma RawStringShape(src: string)
    requires src == "[===[hello world]===]"
    ensures src == LongBracket(3, "hello world")
  {
    EqualsThree();
  }

  lemma RawStringExample(src: string)
    requires src == "[===[hello world]===]"
    ensures FirstToken(src) == RawString("hello world")
  {
    RawStringShape(src);
    RawStringFirst(src, 3, "hello world");
  }

  lemma RawStringUnclosedShape(src: string)
    requires src == "[===[hello world"
    ensures src == Opening(3) + "hello world"
  {
    EqualsThree();
  }

  lemma RawStringUnclosedExample(src: string)
    requires src == "[===[hello world"
    ensures FirstToken(src) == BrokenString
  {
    RawStringUnclosedShape(src);
    RawStringUnclosedFirst(src, 3, "hello world");
  }

  lemma RawStringMismatchShape(src: string)
    requires src == "[===[hello world]====]"
    ensures src == Opening(3) + Closing("hello world", 4)
  {
    EqualsThree();
    assert Equals(4) == "====";
  }

  lemma RawStringMismatchExample(src: string)
    requires src == "[===[hello world]====]"
    ensures FirstToken(src) == BrokenString
  {
    RawStringMismatchShape(src);
    RawStringMismatchFirst(src, 3, "hello world", 4);
  }

  lemma OpenBracketExample(src: string)
    requires src == "["
    ensures FirstToken(src) == LeftSquareBracket
  {
    assert "[" + Equals(0) == src;
    OpenBracketAlone(Start(src), 0);
    FirstTokenIsReadToken(src);
  }

  /** Text without a backslash or line break is written as it is. */
  lemma {:induction false} EscapePlain(t: string)
    requires forall k :: 0 <= k < |t| ==> t[k] != '\\' && t[k] != '\r' && t[k] != '\n'
    ensures Escape(t) == t
  {
    if t != [] {
      EscapePlain(t[1..]);
      assert [t[0]] + t[1..] == t;
    }
  }

  /** Text is escaped character by character. */
  lemma {:induction false} EscapeAppend(a: string, b: string)
    ensures Escape(a + b) == Escape(a) + Escape(b)
  {
    if a != [] {
      assert (a + b)[1..] == a[1..] + b;
      EscapeAppend(a[1..], b);
    } else {
      assert a + b == b;
    }
  }

  lemma QuotedShape(src: string, t: string)
    requires src == "'foobar'" && t == "foobar"
    ensures src == ['\''] + (Escape(t) + ['\''])
  {
    EscapePlain(t);
  }

  lemma QuotedExample(src: string)
    requires src == "'foobar'"
    ensures FirstToken(src) == QuotedString("foobar")
  {
    var t := "foobar";
    QuotedShape(src, t);
    QuotedFirst(src, '\'', t, Escape(t));
  }

  lemma QuotedLineBreakShape(src: string, t: string)
    requires src == "\"foo\\\nbar\"" && t == "foo\nbar"
    ensures src == ['"'] + (Escape(t) + ['"'])
  {
    var a, b := t[..3], t[4..];
    assert t == a + ([t[3]] + b);
    EscapeAppend(a, [t[3]] + b);
    EscapeAppend([t[3]], b);
    EscapePlain(a);
    EscapePlain(b);
  }

  /** A backslash before a line feed keeps the line feed in the text. */
  lemma QuotedLineBreakExample(src: string)
    requires src == "\"foo\\\nbar\""
    ensures FirstToken(src) == QuotedString("foo\nbar")
  {
    var t := "foo\nbar";
    QuotedLineBreakShape(src, t);
    QuotedFirst(src, '"', t, Escape(t));
  }

  /** `a\r` of `"a\rb\nc"`: a plain letter, then a letter escape. */
  lemma LetterEscapeFirstPart(src: string, s: LexPosition)
    requires src == "\"a\\rb\\nc\""
    ensures ReadQuotedBody(Scan(src, 1), '"', s, []) == ReadQuotedBody(Scan(src, 4), '"', s, "a\n")
  {
    QuotedStep(Scan(src, 1), '"', s, [], 'a');
    assert Advance(Scan(src, 1), 1) == Scan(src, 2) && [] + ['a'] == "a";
    LetterEscapeStep(Scan(src, 2), '"', s, "a", 'r');
    assert Advance(Scan(src, 2), 2) == Scan(src, 4) && "a" + ['\n'] == "a\n";
  }

  /** `b\n` of `"a\rb\nc"`: a plain letter, then a letter escape. */
  lemma LetterEscapeSecondPart(src: string, s: LexPosition)
    requires src == "\"a\\rb\\nc\""
    ensures ReadQuotedBody(Scan(src, 4), '"', s, "a\n") == ReadQuotedBody(Scan(src, 7), '"', s, "a\nb\n")
  {
    QuotedStep(Scan(src, 4), '"', s, "a\n", 'b');
    assert Advance(Scan(src, 4), 1) == Scan(src, 5) && "a\n" + ['b'] == "a\nb";
    LetterEscapeStep(Scan(src, 5), '"', s, "a\nb", 'n');
    assert Advance(Scan(src, 5), 2) == Scan(src, 7) && "a\nb" + ['\n'] == "a\nb\n";
  }

  /** `c"` of `"a\rb\nc"`: a plain letter, then the closing delimiter. */
  lemma LetterEscapeLastPart(src: string, s: LexPosition)
    requires src == "\"a\\rb\\nc\""
    ensures ReadQuotedBody(Scan(src, 7), '"', s, "a\nb\n").1.kind == QuotedString("a\nb\nc")
  {
    QuotedStep(Scan(src, 7), '"', s, "a\nb\n", 'c');
    assert Advance(Scan(src, 7), 1) == Scan(src, 8) && "a\nb\n" + ['c'] == "a\nb\nc";
    assert src[8] == '"';
  }

  /** The letter escapes `\r` and `\n` both stand for a line feed. */
  lemma LetterEscapeExample(src: string)
    requires src == "\"a\\rb\\nc\""
    ensures FirstToken(src) == QuotedString("a\nb\nc")
  {
    var c := Start(src);
    FirstTokenIsReadToken(src);
    ReadTokenQuote(c, '"');
    assert Consume(c) == Scan(src, 1);
    LetterEscapeFirstPart(src, Position(Consume(c)));
    LetterEscapeSecondPart(src, Position(Consume(c)));
    LetterEscapeLastPart(src, Position(Consume(c)));
  }

  /** The tail `e+5x` of `12e+5x`, after the leading run `12`. */
  lemma ExponentTailShape(src: string)
    requires src == "12e+5x"
    ensures LooksAt(Start(src), "12") && NumberTailShaped(Advance(Start(src), 2), "e+", "5x")
  {
    var t := Advance(Start(src), 2);
    assert t == Scan(src, 2);
    assert Advance(t, 2) == Scan(src, 4);
  }

  /** An exponent with a sign and a suffix after it are all part of the number. */
  lemma ExponentExample(src: string)
    requires src == "12e+5x"
    ensures FirstToken(src) == Number("12e+5x")
  {
    ExponentTailShape(src);
    NumberTailRoundTrip(Start(src), "12", "e+", "5x");
    assert "12" + "e+" + "5x" == "12e+5x";
    FirstTokenIsReadToken(src);
  }

  lemma LineCommentExample(src: string)
    requires src == "--comment body"
    ensures FirstToken(src) == Comment("comment body")
  {
    assert "--" + "comment body" == src;
    LineCommentFirst(src, "comment body");
  }

  /** A name ends at the first blank. */
  lemma NameExample(src: string)
    requires src == "_var1 _var2"
    ensures FirstToken(src) == LexType.Name("_var1")
  {
    assert NameShaped(Start(src), "_var1");
    NameFirst(src, "_var1");
    assert KeywordOf("_var1") == KeywordOfLength5("_var1");
  }

  lemma NumberShape(src: string)
    requires src == "123.456" || src == ".456"
    ensures NumberShaped(Start(src), src)
  {
  }

  lemma NumberExample(src: string)
    requires src == "123.456"
    ensures FirstToken(src) == Number("123.456")
  {
    NumberShape(src);
    NumberFirst(src);
  }

  /** A number may start with `.` when a digit follows. */
  lemma DotNumberExample(src: string)
    requires src == ".456"
    ensures FirstToken(src) == Number(".456")
  {
    NumberShape(src);
    NumberFirst(src);
  }
}
