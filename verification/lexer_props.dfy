/**
 * What the lexer reads back: each token form written out as source text is
 * read as the token it spells (round trips), malformed forms are read as the
 * `Broken*` kinds, and tokens come out in source order.
 */
module LexerProps {
  import opened Wrappers
  import opened Location
  import opened LexType
  import opened Cursor
  import opened Lexer

  /** Moving the first character of `t` onto the accumulated text leaves the total unchanged. */
  lemma AppendHead(buf: string, t: string)
    requires |t| > 0
    ensures buf + [t[0]] + t[1..] == buf + t
  {
    assert [t[0]] + t[1..] == t;
  }

  // ---------------------------------------------------------------------------
  // Long brackets
  // ---------------------------------------------------------------------------

  /** A run of `n` equals signs. */
  function Equals(n: nat): (r: string)
    ensures |r| == n
    ensures forall k :: 0 <= k < n ==> r[k] == '='
  {
    seq(n, _ => '=')
  }

  /** The opening bracket of level `n`: `[`, `n` equals signs, `[`. */
  function Opening(n: nat): string {
    "[" + Equals(n) + "["
  }

  /** Content `t` followed by the closing bracket of level `n`. */
  function Closing(t: string, n: nat): string {
    t + "]" + Equals(n) + "]"
  }

  /** The long-bracket literal of level `n` around `t`. */
  function LongBracket(n: nat, t: string): string {
    Opening(n) + Closing(t, n)
  }

  /** The counting loop steps over a maximal run of `n` equals signs and counts exactly `n`. */
  lemma {:induction false} CountEqualsRun(c: Cursor, count: nat, n: nat)
    requires LooksAt(c, Equals(n))
    requires c.offset + n == |c.src| || c.src[c.offset + n] != '='
    ensures CountEquals(c, count) == (Advance(c, n), count + n)
    decreases n
  {
    if n > 0 {
      LooksAtConsume(c, Equals(n));
      assert Equals(n)[1..] == Equals(n - 1);
      CountEqualsRun(Consume(c), count + 1, n - 1);
    }
  }

  /** `skip_long_separator` over `n` equals signs and then the bracket answers `n` and steps past the bracket. */
  lemma SeparatorCounts(c: Cursor, ch: char, n: nat)
    requires ch != '='
    requires LooksAt(c, Equals(n) + [ch])
    ensures SkipLongSeparator(c, ch) == (Advance(c, n + 1), n)
  {
    LooksAtAppend(c, Equals(n), [ch]);
    LooksAtConsume(Advance(c, n), [ch]);
    CountEqualsRun(c, 0, n);
    AdvanceAdd(c, n, 1);
  }

  /**
   * `skip_long_separator` over `n` equals signs followed by neither another
   * one nor the bracket answers `-n-1` and leaves that character ahead.
   */
  lemma SeparatorOpen(c: Cursor, ch: char, n: nat)
    requires LooksAt(c, Equals(n))
    requires c.offset + n == |c.src| || (c.src[c.offset + n] != '=' && c.src[c.offset + n] != ch)
    ensures SkipLongSeparator(c, ch) == (Advance(c, n), -(n as int) - 1)
  {
    CountEqualsRun(c, 0, n);
    assert !CurrentIs(Advance(c, n), ch);
  }

  /** Any character but `]` is kept, and reading carries on after it. */
  lemma LongStringStep(c: Cursor, start: LexPosition, sep: int, form: LongForm, buf: string)
    requires !AtEnd(c) && c.src[c.offset] != ']'
    ensures ReadLongString(c, start, sep, form, buf)
         == ReadLongString(Consume(c), start, sep, form, buf + [c.src[c.offset]])
  {
  }

  /** At a closing bracket of level `m`, the region ends when `m` is its level and carries on after the bracket when not. */
  lemma LongStringAtClose(c: Cursor, start: LexPosition, sep: int, form: LongForm, buf: string, m: nat)
    requires LooksAt(c, "]" + Equals(m) + "]")
    ensures var d := Advance(c, m + 2);
            ReadLongString(c, start, sep, form, buf)
              == if m == sep then (d, Lexeme(LexLocation(start, Position(d)), Wrap(form, buf)))
                 else ReadLongString(d, start, sep, form, buf)
  {
    LooksAtConsume(c, "]" + Equals(m) + "]");
    assert ("]" + Equals(m) + "]")[1..] == Equals(m) + "]";
    SeparatorCounts(Consume(c), ']', m);
  }

  /** A long bracket whose content has no `]` closes at the first closing bracket of its level. */
  lemma {:induction false} LongStringCloses(c: Cursor, start: LexPosition, sep: nat, form: LongForm, buf: string, t: string)
    requires ']' !in t
    requires LooksAt(c, Closing(t, sep))
    ensures var d := Advance(c, |Closing(t, sep)|);
            ReadLongString(c, start, sep, form, buf) == (d, Lexeme(LexLocation(start, Position(d)), Wrap(form, buf + t)))
    decreases |t|
  {
    if t == [] {
      assert Closing(t, sep) == "]" + Equals(sep) + "]";
      LongStringAtClose(c, start, sep, form, buf, sep);
      assert buf + t == buf;
    } else {
      LooksAtConsume(c, Closing(t, sep));
      assert Closing(t, sep)[0] == t[0];
      assert Closing(t, sep)[1..] == Closing(t[1..], sep);
      LongStringStep(c, start, sep, form, buf);
      LongStringCloses(Consume(c), start, sep, form, buf + [t[0]], t[1..]);
      AppendHead(buf, t);
      AdvanceStep(c, |Closing(t, sep)|);
      assert |Closing(t, sep)| - 1 == |Closing(t[1..], sep)|;
      var d := Advance(c, |Closing(t, sep)|);
      assert ReadLongString(c, start, sep, form, buf).0 == d;
      assert ReadLongString(c, start, sep, form, buf).1.location == LexLocation(start, Position(d));
      assert ReadLongString(c, start, sep, form, buf).1.kind == Wrap(form, buf + t);
    }
  }

  /** A closing bracket of another level is dropped, and reading carries on after it. */
  lemma {:induction false} LongStringSkipsClose(c: Cursor, start: LexPosition, sep: int, form: LongForm, buf: string, t: string, m: nat)
    requires ']' !in t && m != sep
    requires LooksAt(c, Closing(t, m))
    ensures ReadLongString(c, start, sep, form, buf)
         == ReadLongString(Advance(c, |Closing(t, m)|), start, sep, form, buf + t)
    decreases |t|
  {
    if t == [] {
      assert Closing(t, m) == "]" + Equals(m) + "]";
      LongStringAtClose(c, start, sep, form, buf, m);
      assert buf + t == buf;
    } else {
      LooksAtConsume(c, Closing(t, m));
      assert Closing(t, m)[0] == t[0];
      assert Closing(t, m)[1..] == Closing(t[1..], m);
      LongStringStep(c, start, sep, form, buf);
      LongStringSkipsClose(Consume(c), start, sep, form, buf + [t[0]], t[1..], m);
      AppendHead(buf, t);
      AdvanceStep(c, |Closing(t, m)|);
      assert |Closing(t, m)| - 1 == |Closing(t[1..], m)|;
      var d := Advance(c, |Closing(t, m)|);
      assert d == Advance(Consume(c), |Closing(t[1..], m)|);
      assert ReadLongString(c, start, sep, form, buf)
          == ReadLongString(Consume(c), start, sep, form, buf + [t[0]]);
    }
  }

  /** With no `]` left in the source, a long bracket runs to the end of input and is broken. */
  lemma {:induction false} LongStringUnclosed(c: Cursor, start: LexPosition, sep: int, form: LongForm, buf: string)
    requires forall k :: c.offset <= k < |c.src| ==> c.src[k] != ']'
    ensures var d := Advance(c, |c.src| - c.offset);
            ReadLongString(c, start, sep, form, buf) == (d, Lexeme(LexLocation(start, Position(d)), Broken(form)))
    decreases |c.src| - c.offset
  {
    if !AtEnd(c) {
      LongStringUnclosed(Consume(c), start, sep, form, buf + [c.src[c.offset]]);
    }
  }

  // ---------------------------------------------------------------------------
  // Names and numbers
  // ---------------------------------------------------------------------------

  /** A run stops exactly at the first character outside its class, keeping what it stepped over. */
  lemma {:induction false} RunStops(c: Cursor, cls: CharClass, buf: string, n: nat)
    requires c.offset + n <= |c.src|
    requires forall k :: c.offset <= k < c.offset + n ==> InClass(cls, c.src[k])
    requires c.offset + n == |c.src| || !InClass(cls, c.src[c.offset + n])
    ensures Run(c, cls, buf) == (Advance(c, n), buf + c.src[c.offset..c.offset + n])
    decreases n
  {
    if n > 0 {
      var c' := Consume(c);
      var x := c.src[c.offset];
      assert Run(c, cls, buf) == Run(c', cls, buf + [x]);
      RunStops(c', cls, buf + [x], n - 1);
      var text := c.src[c.offset..c.offset + n];
      assert text[0] == x && text[1..] == c.src[c'.offset..c'.offset + (n - 1)];
      AppendHead(buf, text);
      AdvanceStep(c, n);
    }
  }

  /** Expected text made of one class of characters puts that class in the source. */
  lemma LooksAtClass(c: Cursor, w: string, cls: CharClass)
    requires LooksAt(c, w)
    requires forall k :: 0 <= k < |w| ==> InClass(cls, w[k])
    ensures forall k :: c.offset <= k < c.offset + |w| ==> InClass(cls, c.src[k])
  {
    forall k | c.offset <= k < c.offset + |w|
      ensures InClass(cls, c.src[k])
    {
      assert c.src[c.offset + (k - c.offset)] == w[k - c.offset];
    }
  }

  /** Every reserved word is read back as its kind. */
  lemma KeywordRoundTrip(k: LexType)
    requires IsKeyword(k)
    ensures KeywordOf(KeywordText(k)) == Some(k)
  {
  }

  /** What `read_next` does with a letter or `_`: `read_name` as written. */
  lemma ReadTokenName(c: Cursor)
    requires !AtEnd(c) && (IsAlphabetic(c.src[c.offset]) || c.src[c.offset] == '_')
    ensures ReadToken(c) == ReadNameAsWritten(Consume(c), c.src[c.offset], Position(c))
  {
  }

  /** What `read_next` does with a digit: `read_number` as written. */
  lemma ReadTokenDigit(c: Cursor)
    requires !AtEnd(c) && IsDigit(c.src[c.offset])
    ensures ReadToken(c) == ReadNumberAsWritten(Consume(c), c.src[c.offset], Position(c))
  {
  }

  /**
   * What `read_next` does with a `.` followed by a digit: `read_number` as
   * written, which on this input reads as the corrected reader does.
   */
  lemma ReadTokenDotDigit(c: Cursor)
    requires c.offset + 1 < |c.src| && c.src[c.offset] == '.' && IsDigit(c.src[c.offset + 1])
    ensures ReadToken(c) == ReadNumberAsWritten(Consume(c), '.', Position(c))
    ensures ReadToken(c) == ReadNumber(Consume(c), '.', Position(c))
  {
    assert ReadDot(Consume(c), Position(c)) == ReadNumberAsWritten(Consume(c), '.', Position(c));
    NumberAsWrittenAgrees(Consume(c), '.', Position(c));
  }

  /** When the lookahead continues the name (or there is none), `read_name` as written and corrected give the same token. */
  lemma NameAsWrittenAgrees(c: Cursor, ch: char, start: LexPosition)
    requires AtEnd(c) || InClass(NameClass, c.src[c.offset])
    ensures ReadNameAsWritten(c, ch, start) == ReadName(c, ch, start)
  {
    if !AtEnd(c) {
      assert Run(c, NameClass, [ch]) == Run(Consume(c), NameClass, [ch] + [c.src[c.offset]]);
    }
  }

  /** When the lookahead continues the number's leading run (or there is none), `read_number` as written and corrected give the same token. */
  lemma NumberAsWrittenAgrees(c: Cursor, ch: char, start: LexPosition)
    requires AtEnd(c) || InClass(NumberClass, c.src[c.offset])
    ensures ReadNumberAsWritten(c, ch, start) == ReadNumber(c, ch, start)
  {
    if !AtEnd(c) {
      assert Run(c, NumberClass, [ch]) == Run(Consume(c), NumberClass, [ch] + [c.src[c.offset]]);
    }
  }

  /** Text made of name characters, ended by anything else. */
  predicate NameShaped(c: Cursor, w: string) {
    && |w| > 0
    && (forall k :: 0 <= k < |w| ==> InClass(NameClass, w[k]))
    && LooksAt(c, w)
    && (c.offset + |w| == |c.src| || !InClass(NameClass, c.src[c.offset + |w|]))
  }

  /** The corrected `read_name`, after the first character of a word, takes exactly the rest of it. */
  lemma ReadNameWord(c: Cursor, w: string)
    requires NameShaped(c, w)
    ensures var d := Advance(c, |w|);
            ReadName(Consume(c), w[0], Position(c)) == (d, Lexeme(LexLocation(Position(c), Position(d)), KeywordOrName(w)))
  {
    LooksAtConsume(c, w);
    LooksAtSlice(c, w);
    var c' := Consume(c);
    LooksAtClass(c', w[1..], NameClass);
    RunStops(c', NameClass, [w[0]], |w| - 1);
    assert [w[0]] + c.src[c'.offset..c'.offset + (|w| - 1)] == w;
    AdvanceStep(c, |w|);
  }

  /**
   * A word that starts with a letter or `_` is read as its reserved word, or
   * as a `Name` carrying it, when it has two characters or more or ends the
   * input: there `read_name` as written reads as the corrected reader does
   * (`LexerFindings.OneCharNameAsWritten` shows the other case).
   */
  lemma NameRoundTrip(c: Cursor, w: string)
    requires NameShaped(c, w) && (IsAlphabetic(w[0]) || w[0] == '_')
    requires |w| >= 2 || c.offset + |w| == |c.src|
    ensures var d := Advance(c, |w|);
            ReadToken(c) == (d, Lexeme(LexLocation(Position(c), Position(d)), KeywordOrName(w)))
  {
    ReadNameWord(c, w);
    LooksAtConsume(c, w);
    var c' := Consume(c);
    assert AtEnd(c') || InClass(NameClass, c'.src[c'.offset]) by {
      if |w| >= 2 {
        assert c'.src[c'.offset] == w[1];
      }
    }
    NameAsWrittenAgrees(c', w[0], Position(c));
    ReadTokenName(c);
  }

  /** Number text ended by a character that continues neither the number nor a name. */
  predicate NumberShaped(c: Cursor, w: string) {
    && |w| > 0
    && (forall k :: 0 <= k < |w| ==> InClass(NumberClass, w[k]))
    && LooksAt(c, w)
    && (c.offset + |w| == |c.src| || (!InClass(NameClass, c.src[c.offset + |w|]) && c.src[c.offset + |w|] != '.'))
  }

  /** A character that continues neither a name nor a number with `.` ends a number, exponent included. */
  lemma EndsNumber(ch: char)
    requires !InClass(NameClass, ch) && ch != '.'
    ensures !InClass(NumberClass, ch) && ch != 'e' && ch != 'E'
  {
  }

  /** `read_number` after the first character of number-shaped text stops right after it. */
  lemma ReadNumberStops(c: Cursor, w: string, start: LexPosition)
    requires NumberShaped(c, w)
    ensures ReadNumber(Consume(c), w[0], start).0 == Advance(c, |w|)
  {
    LooksAtConsume(c, w);
    var c' := Consume(c);
    var d := Advance(c, |w|);
    AdvanceStep(c, |w|);
    LooksAtClass(c', w[1..], NumberClass);
    var e := c.offset + |w|;
    if e < |c.src| {
      EndsNumber(c.src[e]);
    }
    RunStops(c', NumberClass, [w[0]], |w| - 1);
    var r1 := Run(c', NumberClass, [w[0]]);
    assert r1.0 == d;
    assert NumberTail(r1.0, r1.1).0 == d;
  }

  /** The text after the head of expected text is the source slice that follows the lookahead. */
  lemma HeadThenSlice(c: Cursor, w: string)
    requires LooksAt(c, w) && |w| > 0
    ensures [w[0]] + c.src[c.offset + 1..c.offset + |w|] == w
  {
    LooksAtSlice(c, w);
    assert w[1..] == c.src[c.offset + 1..c.offset + |w|];
  }

  /** `read_number` after the first character of number-shaped text takes exactly the rest of it. */
  lemma ReadNumberPlain(c: Cursor, w: string, start: LexPosition)
    requires NumberShaped(c, w)
    ensures var d := Advance(c, |w|);
            ReadNumber(Consume(c), w[0], start) == (d, Lexeme(LexLocation(start, Position(d)), Number(w)))
  {
    ReadNumberStops(c, w, start);
    HeadThenSlice(c, w);
  }

  /**
   * A number without exponent: digits, `.` and `_` starting with a digit, or
   * with `.` and a digit, ended by a character that is neither a name
   * character nor `.`. When it has two characters or more or ends the input,
   * it is read as a `Number` carrying exactly that text: there `read_number`
   * as written reads as the corrected reader does
   * (`LexerFindings.OneDigitNumberAsWritten` shows the other case).
   */
  lemma NumberRoundTrip(c: Cursor, w: string)
    requires NumberShaped(c, w)
    requires IsDigit(w[0]) || (w[0] == '.' && |w| > 1 && IsDigit(w[1]))
    requires |w| >= 2 || c.offset + |w| == |c.src|
    ensures var d := Advance(c, |w|);
            ReadToken(c) == (d, Lexeme(LexLocation(Position(c), Position(d)), Number(w)))
  {
    ReadNumberPlain(c, w, Position(c));
    LooksAtConsume(c, w);
    if IsDigit(w[0]) {
      var c' := Consume(c);
      assert AtEnd(c') || InClass(NumberClass, c'.src[c'.offset]) by {
        if |w| >= 2 {
          assert c'.src[c'.offset] == w[1];
        }
      }
      NumberAsWrittenAgrees(c', w[0], Position(c));
      ReadTokenDigit(c);
    } else {
      assert c.src[c.offset + 1] == w[1];
      ReadTokenDotDigit(c);
    }
  }
  /**
   * What follows the leading run of a number with an exponent or a suffix:
   * an optional exponent marker `m` (`e` or `E`, then an optional sign) and a
   * run `x` of letters, digits and `_`, ended by anything else. Without a
   * marker the run starts with a letter other than `e` or `E`; a bare marker
   * with nothing after it is not followed by a sign.
   */
  predicate NumberTailShaped(c: Cursor, m: string, x: string) {
    && (m == [] || ((m[0] == 'e' || m[0] == 'E') && (|m| == 1 || (|m| == 2 && (m[1] == '+' || m[1] == '-')))))
    && (forall k :: 0 <= k < |x| ==> InClass(NameClass, x[k]))
    && (m == [] ==> |x| > 0 && IsAlphabetic(x[0]) && x[0] != 'e' && x[0] != 'E')
    && LooksAt(c, m) && LooksAt(Advance(c, |m|), x)
    && (c.offset + |m| + |x| == |c.src| || !InClass(NameClass, c.src[c.offset + |m| + |x|]))
    && (|m| == 1 && x == [] && c.offset + 1 < |c.src| ==> c.src[c.offset + 1] != '+' && c.src[c.offset + 1] != '-')
  }

  /** The exponent marker is read exactly: `e` or `E`, and the sign when one is written. */
  lemma {:induction false} ExponentReads(c: Cursor, m: string, x: string, buf: string)
    requires NumberTailShaped(c, m, x)
    ensures ReadExponent(c, buf) == (Advance(c, |m|), buf + m)
  {
    var t := Advance(c, |m|);
    if m == [] {
      assert c.src[t.offset + 0] == x[0];
    } else {
      assert c.src[c.offset + 0] == m[0];
      if |m| == 2 {
        assert c.src[c.offset + 1] == m[1];
      } else if x != [] {
        assert c.src[t.offset + 0] == x[0];
      }
    }
    LooksAtSlice(c, m);
  }

  /** A run over expected text of its class, ended by anything else, takes exactly that text. */
  lemma {:induction false} RunOver(t: Cursor, cls: CharClass, x: string, buf: string)
    requires LooksAt(t, x) && (forall k :: 0 <= k < |x| ==> InClass(cls, x[k]))
    requires t.offset + |x| == |t.src| || !InClass(cls, t.src[t.offset + |x|])
    ensures Run(t, cls, buf) == (Advance(t, |x|), buf + x)
  {
    LooksAtClass(t, x, cls);
    RunStops(t, cls, buf, |x|);
    LooksAtSlice(t, x);
  }

  /** The tail of `read_number` is the run that follows what the exponent marker reader read. */
  lemma NumberTailSplits(c: Cursor, buf: string, t: Cursor, b: string)
    requires ReadExponent(c, buf) == (t, b)
    ensures NumberTail(c, buf) == Run(t, NameClass, b)
  {
  }

  /** `read_number` after its leading run reads exactly the exponent marker and the run after it. */
  lemma {:induction false} NumberTailReads(c: Cursor, m: string, x: string, buf: string)
    requires NumberTailShaped(c, m, x)
    ensures NumberTail(c, buf) == (Advance(c, |m| + |x|), buf + (m + x))
  {
    var t := Advance(c, |m|);
    ExponentReads(c, m, x, buf);
    RunOver(t, NameClass, x, buf + m);
    NumberTailSplits(c, buf, t, buf + m);
    AdvanceAdd(c, |m|, |x|);
    assert (buf + m) + x == buf + (m + x);
  }

  /** Expected text is the concatenation of what lies ahead and what follows it. */
  lemma {:induction false} LooksAtJoin(c: Cursor, a: string, b: string)
    requires LooksAt(c, a) && LooksAt(Advance(c, |a|), b)
    ensures LooksAt(c, a + b)
  {
    forall k | 0 <= k < |a + b|
      ensures c.src[c.offset + k] == (a + b)[k]
    {
      if k >= |a| {
        assert c.src[Advance(c, |a|).offset + (k - |a|)] == b[k - |a|];
      }
    }
  }

  /** A tail lies ahead as one text, and its first character cannot continue a leading run. */
  lemma {:induction false} TailAhead(t: Cursor, m: string, x: string)
    requires NumberTailShaped(t, m, x)
    ensures LooksAt(t, m + x) && t.offset < |t.src| && !InClass(NumberClass, t.src[t.offset])
  {
    LooksAtJoin(t, m, x);
    assert t.src[t.offset + 0] == (m + x)[0];
  }

  /**
   * The leading run of `read_number` as written over a run `d` of two
   * characters or more, ended by a character outside the run's class,
   * takes exactly `d`.
   */
  lemma {:induction false} LeadingRun(c: Cursor, d: string)
    requires |d| >= 2 && (forall k :: 0 <= k < |d| ==> InClass(NumberClass, d[k]))
    requires LooksAt(c, d) && (c.offset + |d| == |c.src| || !InClass(NumberClass, c.src[c.offset + |d|]))
    ensures FirstThenRun(Consume(c), NumberClass, [d[0]]) == (Advance(c, |d|), d)
  {
    var c1 := Consume(c);
    LooksAtConsume(c, d);
    assert c1.src[c1.offset] == d[1];
    assert FirstThenRun(c1, NumberClass, [d[0]]) == Run(c1, NumberClass, [d[0]]);
    RunOver(c1, NumberClass, d[1..], [d[0]]);
    AdvanceStep(c, |d|);
    assert [d[0]] + d[1..] == d;
  }

  /** `read_number` as written stops where its tail, read after the leading run, stops. */
  lemma ReadNumberSplits(c: Cursor, ch: char, start: LexPosition, t: Cursor, buf: string)
    requires FirstThenRun(c, NumberClass, [ch]) == (t, buf)
    ensures ReadNumberAsWritten(c, ch, start).0 == NumberTail(t, buf).0
  {
  }

  /** `read_number` as written over a leading run and a tail stops right after the tail. */
  lemma {:induction false} ReadNumberWithTail(c: Cursor, d: string, m: string, x: string, start: LexPosition)
    requires |d| >= 2 && (forall k :: 0 <= k < |d| ==> InClass(NumberClass, d[k]))
    requires LooksAt(c, d) && NumberTailShaped(Advance(c, |d|), m, x)
    ensures ReadNumberAsWritten(Consume(c), d[0], start).0 == Advance(Advance(c, |d|), |m| + |x|)
  {
    var t := Advance(c, |d|);
    TailAhead(t, m, x);
    LeadingRun(c, d);
    NumberTailReads(t, m, x, d);
    ReadNumberSplits(Consume(c), d[0], start, t, d);
  }

  /** A leading run and a tail lie ahead as one text, which starts with the run's first character. */
  lemma {:induction false} JoinPieces(c: Cursor, d: string, m: string, x: string)
    requires |d| > 0 && LooksAt(c, d) && NumberTailShaped(Advance(c, |d|), m, x)
    ensures LooksAt(c, d + m + x) && (d + m + x)[0] == d[0]
    ensures Advance(c, |d + m + x|) == Advance(Advance(c, |d|), |m| + |x|)
  {
    TailAhead(Advance(c, |d|), m, x);
    LooksAtJoin(c, d, m + x);
    assert d + (m + x) == d + m + x;
    AdvanceAdd(c, |d|, |m| + |x|);
  }

  /** `read_number` as written, when it stops at the end of expected text `w`, carries exactly `w`. */
  lemma {:induction false} ReadNumberCarries(c: Cursor, w: string, ch: char, start: LexPosition)
    requires LooksAt(c, w) && |w| > 0 && w[0] == ch
    requires ReadNumberAsWritten(Consume(c), ch, start).0 == Advance(c, |w|)
    ensures var e := Advance(c, |w|);
            ReadNumberAsWritten(Consume(c), ch, start) == (e, Lexeme(LexLocation(start, Position(e)), Number(w)))
  {
    var c1 := Consume(c);
    assert c1.src == c.src && c1.offset == c.offset + 1;
    HeadThenSlice(c, w);
  }

  /** `read_number` as written over a leading run and a tail reads exactly both. */
  lemma {:induction false} ReadNumberTailText(c: Cursor, d: string, m: string, x: string, start: LexPosition)
    requires |d| >= 2 && (forall k :: 0 <= k < |d| ==> InClass(NumberClass, d[k]))
    requires LooksAt(c, d) && NumberTailShaped(Advance(c, |d|), m, x)
    ensures var e := Advance(c, |d + m + x|);
            ReadNumberAsWritten(Consume(c), d[0], start) == (e, Lexeme(LexLocation(start, Position(e)), Number(d + m + x)))
  {
    ReadNumberWithTail(c, d, m, x, start);
    JoinPieces(c, d, m, x);
    ReadNumberCarries(c, d + m + x, d[0], start);
  }

  /**
   * A number with an exponent or a suffix: a leading run `d` of two
   * characters or more, starting with a digit or with `.` and a digit, then
   * the tail `m + x`. It is read as one `Number` carrying all of it:
   * `12e+5x` is `Number("12e+5x")`, `1.5E10` is `Number("1.5E10")` and
   * `12abc` is `Number("12abc")`.
   */
  lemma {:induction false} NumberTailRoundTrip(c: Cursor, d: string, m: string, x: string)
    requires |d| >= 2 && (forall k :: 0 <= k < |d| ==> InClass(NumberClass, d[k]))
    requires IsDigit(d[0]) || (d[0] == '.' && IsDigit(d[1]))
    requires LooksAt(c, d) && NumberTailShaped(Advance(c, |d|), m, x)
    ensures var w := d + m + x;
            var e := Advance(c, |w|);
            ReadToken(c) == (e, Lexeme(LexLocation(Position(c), Position(e)), Number(w)))
  {
    ReadNumberTailText(c, d, m, x, Position(c));
    JoinPieces(c, d, m, x);
    assert (d + m + x)[1] == d[1];
    NumberTokenCarries(c, d + m + x);
  }

  /**
   * When `read_number` as written, started on text `w` that opens with a
   * digit or with `.` and a digit, carries exactly `w`, so does `read_next`.
   */
  lemma {:induction false} NumberTokenCarries(c: Cursor, w: string)
    requires LooksAt(c, w) && |w| >= 2 && (IsDigit(w[0]) || (w[0] == '.' && IsDigit(w[1])))
    requires var e := Advance(c, |w|);
             ReadNumberAsWritten(Consume(c), w[0], Position(c)) == (e, Lexeme(LexLocation(Position(c), Position(e)), Number(w)))
    ensures var e := Advance(c, |w|);
            ReadToken(c) == (e, Lexeme(LexLocation(Position(c), Position(e)), Number(w)))
  {
    LooksAtConsume(c, w);
    if IsDigit(w[0]) {
      ReadTokenDigit(c);
    } else {
      assert c.src[c.offset + 1] == w[1];
      ReadTokenDotDigit(c);
    }
  }
}
