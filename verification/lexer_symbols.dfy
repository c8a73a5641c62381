/**
 * Operators and punctuation: the spelling of every token kind made of
 * symbols only, and the reading back of each spelling as its kind when the
 * character after it does not make `read_next` take a longer form.
 */
module LexerSymbols {
  import opened Wrappers
  import opened Location
  import opened LexType
  import opened Cursor
  import opened Lexer
  import opened LexerProps
  import opened LexerForms
  import opened LexerExamples

  /** The spelling of each kind made of symbols only; `~` spells `Not`, as `not` does. */
  function Spelling(k: LexType): Option<string> {
    match k
    case Assign => Some("=")
    case Equal => Some("==")
    case Less => Some("<")
    case Greater => Some(">")
    case LessEqual => Some("<=")
    case GreaterEqual => Some(">=")
    case Colon => Some(":")
    case DoubleColon => Some("::")
    case LeftSquareBracket => Some("[")
    case RightSquareBracket => Some("]")
    case LeftRoundBracket => Some("(")
    case RightRoundBracket => Some(")")
    case LeftCurlyBracket => Some("{")
    case RightCurlyBracket => Some("}")
    case Comma => Some(",")
    case Sharp => Some("#")
    case Semicolon => Some(";")
    case Not => Some("~")
    case NotEqual => Some("~=")
    case Dot => Some(".")
    case Dot2 => Some("..")
    case Dot3 => Some("...")
    case ConcatAssign => Some("..=")
    case SkinnyArrow => Some("->")
    case Add => Some("+")
    case Sub => Some("-")
    case Mul => Some("*")
    case Div => Some("/")
    case Mod => Some("%")
    case Pow => Some("^")
    case AddAssign => Some("+=")
    case SubAssign => Some("-=")
    case MulAssign => Some("*=")
    case DivAssign => Some("/=")
    case ModAssign => Some("%=")
    case PowAssign => Some("^=")
    case _ => None
  }

  /**
   * Does `ch` after the spelling of `k` make the reader take a longer form?
   * An operator that has a form ending in `=` (or `::`) takes it; `-` also
   * starts a comment with `-`, `.` a number with a digit, and `[` a long
   * bracket with `=` or `[`.
   */
  predicate Extends(k: LexType, ch: char) {
    match k
    case Sub => ch == '>' || ch == '=' || ch == '-'
    case Dot => ch == '.' || IsDigit(ch)
    case Dot2 => ch == '.' || ch == '='
    case LeftSquareBracket => ch == '=' || ch == '['
    case Colon => ch == ':'
    case Assign | Less | Greater | Not | Add | Mul | Div | Mod | Pow => ch == '='
    case _ => false
  }

  /** The spelling of `k` is in the source at `c` and what follows does not extend it. */
  predicate StandsAlone(c: Cursor, k: LexType)
    requires Spelling(k).Some?
  {
    var w := Spelling(k).value;
    LooksAt(c, w) && (c.offset + |w| == |c.src| || !Extends(k, c.src[c.offset + |w|]))
  }

  // ---------------------------------------------------------------------------
  // The branches of read_next
  // ---------------------------------------------------------------------------

  /** The operator branch of `read_next`: the long form when its second character follows, the short form otherwise. */
  lemma OperatorBranch(c: Cursor, ch: char, second: char, one: LexType, two: LexType)
    requires CurrentIs(c, ch) && OperatorPair(ch) == Some((second, one, two))
    ensures ReadToken(c) == if CurrentIs(Consume(c), second) then (Consume(Consume(c)), Lexeme(LineOffset(Position(c), 2), two))
                           else (Consume(c), Lexeme(LineOffset(Position(c), 1), one))
  {
    assert ch != '-';
  }

  /** An operator with a one- and a two-character form, read by its short form. */
  lemma PairShort(c: Cursor)
    requires !AtEnd(c) && OperatorPair(c.src[c.offset]).Some?
    requires !CurrentIs(Consume(c), OperatorPair(c.src[c.offset]).value.0)
    ensures var r := ReadToken(c);
            r.0 == Advance(c, 1) && r.1 == Lexeme(LineOffset(Position(c), 1), OperatorPair(c.src[c.offset]).value.1)
  {
    var ch := c.src[c.offset];
    var (second, one, two) := OperatorPair(ch).value;
    OperatorBranch(c, ch, second, one, two);
    AdvanceNext(c, 0);
  }

  /** An operator with a one- and a two-character form, read by its long form. */
  lemma PairLong(c: Cursor)
    requires !AtEnd(c) && OperatorPair(c.src[c.offset]).Some?
    requires CurrentIs(Consume(c), OperatorPair(c.src[c.offset]).value.0)
    ensures var r := ReadToken(c);
            r.0 == Advance(c, 2) && r.1 == Lexeme(LineOffset(Position(c), 2), OperatorPair(c.src[c.offset]).value.2)
  {
    var ch := c.src[c.offset];
    var (second, one, two) := OperatorPair(ch).value;
    OperatorBranch(c, ch, second, one, two);
    AdvanceNext(c, 1);
    AdvanceNext(Consume(c), 0);
  }

  /** A single punctuation character takes none of the branches of `read_next` before its own. */
  lemma PunctuationExcludes(ch: char)
    requires SinglePunctuation(ch).Some?
    ensures ch != '-' && OperatorPair(ch).None? && ch != '[' && ch != '\'' && ch != '"' && ch != '.'
  {
  }

  /** The punctuation branch of `read_next`: one character, one column. */
  lemma PunctuationBranch(c: Cursor, ch: char, k: LexType)
    requires CurrentIs(c, ch) && SinglePunctuation(ch) == Some(k)
    ensures ReadToken(c) == (Consume(c), Lexeme(LineOffset(Position(c), 1), k))
  {
    PunctuationExcludes(ch);
  }

  lemma Punctuation(c: Cursor)
    requires !AtEnd(c) && SinglePunctuation(c.src[c.offset]).Some?
    ensures var r := ReadToken(c);
            r.0 == Advance(c, 1) && r.1 == Lexeme(LineOffset(Position(c), 1), SinglePunctuation(c.src[c.offset]).value)
  {
    var ch := c.src[c.offset];
    PunctuationBranch(c, ch, SinglePunctuation(ch).value);
    AdvanceNext(c, 0);
  }

  /** `-` not followed by `>`, `=` or `-`. */
  lemma MinusAlone(c: Cursor)
    requires CurrentIs(c, '-')
    requires var c' := Consume(c); !CurrentIs(c', '>') && !CurrentIs(c', '=') && !CurrentIs(c', '-')
    ensures var r := ReadToken(c);
            r.0 == Advance(c, 1) && r.1 == Lexeme(LineOffset(Position(c), 1), Sub)
  {
    ReadTokenMinus(c);
    AdvanceNext(c, 0);
  }

  /** `->` and `-=`. */
  lemma MinusPair(c: Cursor)
    requires CurrentIs(c, '-')
    requires CurrentIs(Consume(c), '>') || CurrentIs(Consume(c), '=')
    ensures var r := ReadToken(c);
            r.0 == Advance(c, 2) &&
            r.1 == Lexeme(LineOffset(Position(c), 2), if CurrentIs(Consume(c), '>') then SkinnyArrow else SubAssign)
  {
    ReadTokenMinus(c);
    AdvanceNext(c, 1);
    AdvanceNext(Consume(c), 0);
  }

  /** `.` not followed by `.` or a digit. */
  lemma DotAlone(c: Cursor)
    requires CurrentIs(c, '.')
    requires var c' := Consume(c); AtEnd(c') || (c'.src[c'.offset] != '.' && !IsDigit(c'.src[c'.offset]))
    ensures var r := ReadToken(c);
            r.0 == Advance(c, 1) && r.1 == Lexeme(LineOffset(Position(c), 1), Dot)
  {
    assert ReadToken(c) == ReadDot(Consume(c), Position(c));
    AdvanceNext(c, 0);
  }

  /** `..` not followed by `.` or `=`. */
  lemma DotTwo(c: Cursor)
    requires CurrentIs(c, '.') && CurrentIs(Consume(c), '.')
    requires var c2 := Consume(Consume(c)); !CurrentIs(c2, '.') && !CurrentIs(c2, '=')
    ensures var r := ReadToken(c);
            r.0 == Advance(c, 2) && r.1 == Lexeme(LineOffset(Position(c), 2), Dot2)
  {
    assert ReadToken(c) == ReadDot(Consume(c), Position(c));
    AdvanceNext(c, 1);
    AdvanceNext(Consume(c), 0);
  }

  /** `...` and `..=`. */
  lemma DotThree(c: Cursor)
    requires CurrentIs(c, '.') && CurrentIs(Consume(c), '.')
    requires var c2 := Consume(Consume(c)); CurrentIs(c2, '.') || CurrentIs(c2, '=')
    ensures var r := ReadToken(c);
            r.0 == Advance(c, 3) &&
            r.1 == Lexeme(LineOffset(Position(c), 3), if CurrentIs(Consume(Consume(c)), '.') then Dot3 else ConcatAssign)
  {
    assert ReadToken(c) == ReadDot(Consume(c), Position(c));
    AdvanceNext(c, 2);
    AdvanceNext(Consume(c), 1);
    AdvanceNext(Consume(Consume(c)), 0);
  }

  // ---------------------------------------------------------------------------
  // Every spelling reads back
  // ---------------------------------------------------------------------------

  /** The first three characters of text the source holds at `c`, one lookahead at a time. */
  lemma LooksAtChars(c: Cursor, w: string)
    requires LooksAt(c, w) && |w| >= 1
    ensures CurrentIs(c, w[0])
    ensures |w| >= 2 ==> CurrentIs(Consume(c), w[1])
    ensures |w| >= 3 ==> CurrentIs(Consume(Consume(c)), w[2])
  {
  }

  lemma MinusKinds(c: Cursor, k: LexType)
    requires k.Sub? || k.SkinnyArrow? || k.SubAssign?
    requires StandsAlone(c, k)
    ensures var w := Spelling(k).value;
            ReadToken(c) == (Advance(c, |w|), Lexeme(LineOffset(Position(c), |w|), k))
  {
    LooksAtChars(c, Spelling(k).value);
    match k
    case Sub => MinusAlone(c);
    case SkinnyArrow => MinusPair(c);
    case SubAssign => MinusPair(c);
  }

  lemma DotKinds(c: Cursor, k: LexType)
    requires k.Dot? || k.Dot2? || k.Dot3? || k.ConcatAssign? || k.LeftSquareBracket?
    requires StandsAlone(c, k)
    ensures var w := Spelling(k).value;
            ReadToken(c) == (Advance(c, |w|), Lexeme(LineOffset(Position(c), |w|), k))
  {
    LooksAtChars(c, Spelling(k).value);
    match k
    case Dot => DotAlone(c);
    case Dot2 => DotTwo(c);
    case Dot3 => DotThree(c);
    case ConcatAssign => DotThree(c);
    case LeftSquareBracket =>
      assert "[" + Equals(0) == "[";
      OpenBracketAlone(c, 0);
  }

  lemma BracketKinds(c: Cursor, k: LexType)
    requires k.RightSquareBracket? || k.LeftRoundBracket? || k.RightRoundBracket? || k.LeftCurlyBracket?
    requires StandsAlone(c, k)
    ensures var w := Spelling(k).value;
            ReadToken(c) == (Advance(c, |w|), Lexeme(LineOffset(Position(c), |w|), k))
  {
    LooksAtChars(c, Spelling(k).value);
    match k
    case RightSquareBracket => Punctuation(c);
    case LeftRoundBracket => Punctuation(c);
    case RightRoundBracket => Punctuation(c);
    case LeftCurlyBracket => Punctuation(c);
  }

  lemma SeparatorKinds(c: Cursor, k: LexType)
    requires k.RightCurlyBracket? || k.Comma? || k.Sharp? || k.Semicolon?
    requires StandsAlone(c, k)
    ensures var w := Spelling(k).value;
            ReadToken(c) == (Advance(c, |w|), Lexeme(LineOffset(Position(c), |w|), k))
  {
    LooksAtChars(c, Spelling(k).value);
    match k
    case RightCurlyBracket => Punctuation(c);
    case Comma => Punctuation(c);
    case Sharp => Punctuation(c);
    case Semicolon => Punctuation(c);
  }

  lemma ComparisonKinds(c: Cursor, k: LexType)
    requires k.Assign? || k.Less? || k.Greater? || k.Colon? || k.Not?
    requires StandsAlone(c, k)
    ensures var w := Spelling(k).value;
            ReadToken(c) == (Advance(c, |w|), Lexeme(LineOffset(Position(c), |w|), k))
  {
    LooksAtChars(c, Spelling(k).value);
    match k
    case Assign => PairShort(c);
    case Less => PairShort(c);
    case Greater => PairShort(c);
    case Colon => PairShort(c);
    case Not => PairShort(c);
  }

  lemma ArithmeticKinds(c: Cursor, k: LexType)
    requires k.Add? || k.Mul? || k.Div? || k.Mod? || k.Pow?
    requires StandsAlone(c, k)
    ensures var w := Spelling(k).value;
            ReadToken(c) == (Advance(c, |w|), Lexeme(LineOffset(Position(c), |w|), k))
  {
    LooksAtChars(c, Spelling(k).value);
    match k
    case Add => PairShort(c);
    case Mul => PairShort(c);
    case Div => PairShort(c);
    case Mod => PairShort(c);
    case Pow => PairShort(c);
  }

  lemma ComparisonPairKinds(c: Cursor, k: LexType)
    requires k.Equal? || k.LessEqual? || k.GreaterEqual? || k.DoubleColon? || k.NotEqual?
    requires LooksAt(c, Spelling(k).value)
    ensures var w := Spelling(k).value;
            ReadToken(c) == (Advance(c, |w|), Lexeme(LineOffset(Position(c), |w|), k))
  {
    LooksAtChars(c, Spelling(k).value);
    match k
    case Equal => PairLong(c);
    case LessEqual => PairLong(c);
    case GreaterEqual => PairLong(c);
    case DoubleColon => PairLong(c);
    case NotEqual => PairLong(c);
  }

  lemma AssignmentKinds(c: Cursor, k: LexType)
    requires k.AddAssign? || k.MulAssign? || k.DivAssign? || k.ModAssign? || k.PowAssign?
    requires LooksAt(c, Spelling(k).value)
    ensures var w := Spelling(k).value;
            ReadToken(c) == (Advance(c, |w|), Lexeme(LineOffset(Position(c), |w|), k))
  {
    LooksAtChars(c, Spelling(k).value);
    match k
    case AddAssign => PairLong(c);
    case MulAssign => PairLong(c);
    case DivAssign => PairLong(c);
    case ModAssign => PairLong(c);
    case PowAssign => PairLong(c);
  }

  /**
   * Every kind made of symbols only is read back from its spelling, as one
   * token exactly as long as the spelling, when the character after it does
   * not extend it.
   */
  lemma SymbolRoundTrip(c: Cursor, k: LexType)
    requires Spelling(k).Some? && StandsAlone(c, k)
    ensures var w := Spelling(k).value;
            ReadToken(c) == (Advance(c, |w|), Lexeme(LineOffset(Position(c), |w|), k))
  {
    if k.Sub? || k.SkinnyArrow? || k.SubAssign? {
      MinusKinds(c, k);
    } else if k.Dot? || k.Dot2? || k.Dot3? || k.ConcatAssign? || k.LeftSquareBracket? {
      DotKinds(c, k);
    } else if k.RightSquareBracket? || k.LeftRoundBracket? || k.RightRoundBracket? || k.LeftCurlyBracket? {
      BracketKinds(c, k);
    } else if k.RightCurlyBracket? || k.Comma? || k.Sharp? || k.Semicolon? {
      SeparatorKinds(c, k);
    } else if k.Assign? || k.Less? || k.Greater? || k.Colon? || k.Not? {
      ComparisonKinds(c, k);
    } else if k.Add? || k.Mul? || k.Div? || k.Mod? || k.Pow? {
      ArithmeticKinds(c, k);
    } else if k.Equal? || k.LessEqual? || k.GreaterEqual? || k.DoubleColon? || k.NotEqual? {
      ComparisonPairKinds(c, k);
    } else {
      AssignmentKinds(c, k);
    }
  }

  /** No spelling starts with a blank, so `next` reads a spelling at the start of input as it stands. */
  lemma SpellingStartsVisible(k: LexType)
    requires Spelling(k).Some?
    ensures |Spelling(k).value| > 0 && !IsSpace(Spelling(k).value[0])
  {
    if k.Sub? || k.SkinnyArrow? || k.SubAssign? || k.Dot? || k.Dot2? || k.Dot3? || k.ConcatAssign? || k.LeftSquareBracket? {
    } else if k.RightSquareBracket? || k.LeftRoundBracket? || k.RightRoundBracket? || k.LeftCurlyBracket? || k.RightCurlyBracket? || k.Comma? || k.Sharp? || k.Semicolon? {
    } else if k.Assign? || k.Less? || k.Greater? || k.Colon? || k.Not? || k.Add? || k.Mul? || k.Div? || k.Mod? || k.Pow? {
    } else {
    }
  }

  /** The first token of an input that starts with a spelling standing alone is that spelling's kind. */
  lemma SymbolFirst(src: string, k: LexType)
    requires Spelling(k).Some? && StandsAlone(Start(src), k)
    ensures FirstToken(src) == k
  {
    SpellingStartsVisible(k);
    LooksAtChars(Start(src), Spelling(k).value);
    SymbolRoundTrip(Start(src), k);
    FirstTokenIsReadToken(src);
  }

  /** `+` before `.0` is `Add`: only `=` extends it. */
  lemma AddExample(src: string)
    requires src == "+.0"
    ensures FirstToken(src) == Add
  {
    SymbolFirst(src, Add);
  }

  /** `.` before a letter is `Dot`. */
  lemma DotExample(src: string)
    requires src == ".a"
    ensures FirstToken(src) == Dot
  {
    SymbolFirst(src, Dot);
  }

  /** `-` before a digit is `Sub`: a number never starts with `-`. */
  lemma SubExample(src: string)
    requires src == "-1"
    ensures FirstToken(src) == Sub
  {
    SymbolFirst(src, Sub);
  }
}
