/**
 * The hand-written lexer: a one-character-lookahead scanner that turns the
 * text at a cursor into one token. Every function takes the scan state and
 * returns the state after the characters it consumed, so the whole lexer is
 * a state-passing function over the source text. Malformed input degrades to
 * the `Broken*` kinds; nothing fails.
 */
module Lexer {
  import opened Wrappers
  import opened Location
  import opened LexType
  import opened Cursor

  /** A token: its kind and where it lies in the source. */
  datatype Lexeme = Lexeme(location: LexLocation, kind: LexType)

  // ---------------------------------------------------------------------------
  // Character classes (ASCII)
  // ---------------------------------------------------------------------------

  predicate IsSpace(ch: char) {
    ch == ' ' || ch == '\t' || ch == '\r' || ch == '\n'
  }

  predicate IsDigit(ch: char) {
    '0' <= ch <= '9'
  }

  predicate IsAlphabetic(ch: char) {
    'a' <= ch <= 'z' || 'A' <= ch <= 'Z'
  }

  /** The character runs the scanner accumulates. */
  datatype CharClass =
    | NumberClass  // digits, '.' and '_' (the body of a number)
    | NameClass    // letters, digits and '_' (names, and the tail of a number)
    | LineClass    // anything but '\r' and '\n' (a line comment)

  predicate InClass(cls: CharClass, ch: char) {
    match cls
    case NumberClass => IsDigit(ch) || ch == '.' || ch == '_'
    case NameClass => IsAlphabetic(ch) || IsDigit(ch) || ch == '_'
    case LineClass => ch != '\r' && ch != '\n'
  }

  /** `is_comment`: the kinds `next(true)` skips. */
  predicate IsComment(k: LexType) {
    k.Comment? || k.BlockComment?
  }

  // ---------------------------------------------------------------------------
  // Runs of characters
  // ---------------------------------------------------------------------------

  /** `skip_space`: consumes blanks, tabs, carriage returns and line feeds. */
  function SkipSpace(c: Cursor): (r: Cursor)
    ensures Follows(c, r)
    ensures forall k :: c.offset <= k < r.offset ==> IsSpace(c.src[k])
    ensures AtEnd(r) || !IsSpace(r.src[r.offset])
    decreases |c.src| - c.offset
  {
    if !AtEnd(c) && IsSpace(c.src[c.offset]) then SkipSpace(Consume(c)) else c
  }

  /** A `while` loop: appends and consumes the lookahead as long as it is in the class. */
  function Run(c: Cursor, cls: CharClass, buf: string): (r: (Cursor, string))
    ensures Follows(c, r.0)
    ensures r.1 == buf + c.src[c.offset..(r.0.offset)]
    ensures forall k :: c.offset <= k < r.0.offset ==> InClass(cls, c.src[k])
    ensures AtEnd(r.0) || !InClass(cls, r.0.src[r.0.offset])
    decreases |c.src| - c.offset
  {
    if !AtEnd(c) && InClass(cls, c.src[c.offset]) then
      Run(Consume(c), cls, buf + [c.src[c.offset]])
    else
      (c, buf)
  }

  /**
   * The loop shared by `read_number` and `read_name`: its first iteration
   * appends and consumes the lookahead whatever it is; later iterations run
   * while the lookahead is in the class, which is `Run`.
   */
  function FirstThenRun(c: Cursor, cls: CharClass, buf: string): (r: (Cursor, string))
    ensures Follows(c, r.0)
    ensures r.1 == buf + c.src[c.offset..(r.0.offset)]
    ensures !AtEnd(c) ==> r.0.offset > c.offset
    ensures forall k :: c.offset < k < r.0.offset ==> InClass(cls, c.src[k])
    ensures AtEnd(r.0) || !InClass(cls, r.0.src[r.0.offset])
  {
    if AtEnd(c) then
      (c, buf)
    else
      var r := Run(Consume(c), cls, buf + [c.src[c.offset]]);
      assert c.src[c.offset..r.0.offset] == [c.src[c.offset]] + c.src[c.offset + 1..r.0.offset];
      r
  }

  /** Text accumulated over adjacent slices of one source is the text of their union. */
  lemma ExtendText(pre: string, s: string, i: nat, j: nat, k: nat)
    requires i <= j <= k <= |s|
    ensures (pre + s[i..j]) + s[j..k] == pre + s[i..k]
  {
    assert s[i..j] + s[j..k] == s[i..k];
  }

  // ---------------------------------------------------------------------------
  // Long brackets
  // ---------------------------------------------------------------------------

  /** The `=` counting loop of `skip_long_separator`. */
  function CountEquals(c: Cursor, count: nat): (r: (Cursor, nat))
    ensures Follows(c, r.0)
    ensures r.1 == count + (r.0.offset - c.offset)
    ensures forall k :: c.offset <= k < r.0.offset ==> c.src[k] == '='
    ensures !CurrentIs(r.0, '=')
    decreases |c.src| - c.offset
  {
    if CurrentIs(c, '=') then CountEquals(Consume(c), count + 1) else (c, count)
  }

  /**
   * `skip_long_separator`: after a run of n `=`, consumes the bracket `ch` and
   * answers n when it follows, and answers -n-1 (leaving the bracket) when it
   * does not.
   */
  function SkipLongSeparator(c: Cursor, ch: char): (r: (Cursor, int))
    ensures Follows(c, r.0)
    ensures r.1 >= 0 ==> r.0.offset == c.offset + r.1 + 1 && c.src[c.offset + r.1] == ch
    ensures r.1 < 0 ==> r.0.offset == c.offset - r.1 - 1 && !CurrentIs(r.0, ch) && !CurrentIs(r.0, '=')
    ensures forall k :: c.offset <= k < c.offset + (if r.1 >= 0 then r.1 else -r.1 - 1) ==> c.src[k] == '='
  {
    var (c1, count) := CountEquals(c, 0);
    var n: int := count;
    if CurrentIs(c1, ch) then (Consume(c1), n) else (c1, -n - 1)
  }

  /** What a long bracket is read as: a raw string or a long comment. */
  datatype LongForm = RawStringForm | CommentForm

  /** The kind of a well-formed long bracket with content `text`. */
  function Wrap(form: LongForm, text: string): LexType {
    match form
    case RawStringForm => RawString(text)
    case CommentForm => Comment(text)
  }

  /** The kind of an unterminated long bracket. */
  function Broken(form: LongForm): LexType {
    match form
    case RawStringForm => BrokenString
    case CommentForm => BrokenComment
  }

  /** The text a literal kind carries (empty for the others). */
  function Payload(k: LexType): string {
    match k
    case RawString(v) => v
    case QuotedString(v) => v
    case Number(v) => v
    case Name(v) => v
    case Comment(v) => v
    case _ => ""
  }

  /**
   * `read_long_string`: reads up to the closing bracket whose `=` count is
   * `sep`. A `]` is never kept: it is followed by a separator scan, and when
   * that does not close the region the scan's characters are dropped too.
   */
  function ReadLongString(c: Cursor, start: LexPosition, sep: int, form: LongForm, buf: string): (r: (Cursor, Lexeme))
    ensures Follows(c, r.0)
    ensures r.1.location == LexLocation(start, Position(r.0))
    ensures r.1.kind == Broken(form) || r.1.kind == Wrap(form, Payload(r.1.kind))
    ensures r.1.kind == Broken(form) ==> AtEnd(r.0)
    ensures r.1.kind != Broken(form) ==> buf <= Payload(r.1.kind)
    ensures ']' !in buf ==> ']' !in Payload(r.1.kind)
    decreases |c.src| - c.offset
  {
    if AtEnd(c) then
      (c, Lexeme(LexLocation(start, Position(c)), Broken(form)))
    else
      var ch := c.src[c.offset];
      var c1 := Consume(c);
      if ch == ']' then
        var (c2, n) := SkipLongSeparator(c1, ']');
        if n == sep then
          (c2, Lexeme(LexLocation(start, Position(c2)), Wrap(form, buf)))
        else
          ReadLongString(c2, start, sep, form, buf)
      else
        ReadLongString(c1, start, sep, form, buf + [ch])
  }

  // ---------------------------------------------------------------------------
  // Quoted strings
  // ---------------------------------------------------------------------------

  /**
   * The character an escape sequence stands for, given the character after
   * the backslash: a line break stands for itself, `r` and `n` both for a
   * line feed, and a backslash for itself. No other escape exists.
   */
  function Unescape(ch: char): Option<char> {
    if ch == '\r' || ch == '\n' then Some(ch)
    else if ch == 'r' || ch == 'n' then Some('\n')
    else if ch == '\\' then Some('\\')
    else None
  }

  /**
   * The loop of `read_quoted_string`. A backslash keeps a following `\r` or
   * `\n`, turns `r` and `n` into a line feed and `\\` into a backslash; any
   * other escape, a bare line break or the end of input makes the string
   * broken.
   */
  function ReadQuotedBody(c: Cursor, delimiter: char, start: LexPosition, buf: string): (r: (Cursor, Lexeme))
    ensures Follows(c, r.0)
    ensures r.1.location == LexLocation(start, Position(r.0))
    ensures r.1.kind.QuotedString? || r.1.kind.BrokenString?
    ensures r.1.kind.QuotedString? ==>
              buf <= r.1.kind.val && r.0.offset > c.offset && c.src[r.0.offset - 1] == delimiter
    decreases |c.src| - c.offset
  {
    if AtEnd(c) then
      (c, Lexeme(LexLocation(start, Position(c)), BrokenString))
    else
      var ch := c.src[c.offset];
      var c1 := Consume(c);
      if ch == delimiter then
        (c1, Lexeme(LexLocation(start, Position(c1)), QuotedString(buf)))
      else if ch == '\\' then
        if AtEnd(c1) then
          ReadQuotedBody(c1, delimiter, start, buf)
        else
          var c2 := Consume(c1);
          match Unescape(c1.src[c1.offset])
          case Some(e) => ReadQuotedBody(c2, delimiter, start, buf + [e])
          case None => (c2, Lexeme(LexLocation(start, Position(c2)), BrokenString))
      else if ch == '\r' || ch == '\n' then
        (c1, Lexeme(LexLocation(start, Position(c1)), BrokenString))
      else
        ReadQuotedBody(c1, delimiter, start, buf + [ch])
  }

  /**
   * `read_quoted_string`, called with the opening delimiter already consumed;
   * the token's location therefore starts just after that delimiter.
   */
  function ReadQuotedString(c: Cursor, delimiter: char): (r: (Cursor, Lexeme))
    ensures Follows(c, r.0)
    ensures r.1.location == LexLocation(Position(c), Position(r.0))
    ensures r.1.kind.QuotedString? || r.1.kind.BrokenString?
  {
    ReadQuotedBody(c, delimiter, Position(c), [])
  }

  // ---------------------------------------------------------------------------
  // Numbers, comments, names
  // ---------------------------------------------------------------------------

  /** The optional exponent marker of `read_number`: `e` or `E`, then an optional sign. */
  function ReadExponent(c: Cursor, buf: string): (r: (Cursor, string))
    ensures Follows(c, r.0)
    ensures r.1 == buf + c.src[c.offset..(r.0.offset)]
    ensures !(CurrentIs(c, 'e') || CurrentIs(c, 'E')) ==> r.0 == c
    ensures CurrentIs(c, 'e') || CurrentIs(c, 'E') ==> c.offset < r.0.offset <= c.offset + 2
    ensures r.0.offset == c.offset + 2 <==>
              (CurrentIs(c, 'e') || CurrentIs(c, 'E')) && (CurrentIs(Consume(c), '+') || CurrentIs(Consume(c), '-'))
  {
    if CurrentIs(c, 'e') || CurrentIs(c, 'E') then
      var c1 := Consume(c);
      var buf1 := buf + c.src[c.offset..c1.offset];
      if CurrentIs(c1, '+') || CurrentIs(c1, '-') then
        var c2 := Consume(c1);
        ExtendText(buf, c.src, c.offset, c1.offset, c2.offset);
        (c2, buf1 + c.src[c1.offset..c2.offset])
      else
        (c1, buf1)
    else
      (c, buf)
  }

  /**
   * What `read_number` reads after its leading run: the optional exponent
   * marker, then letters, digits and `_`. When the lookahead starts neither,
   * nothing is read; otherwise reading stops only before a character that
   * is not a letter, digit or `_`.
   */
  function NumberTail(c: Cursor, buf: string): (r: (Cursor, string))
    ensures Follows(c, r.0)
    ensures r.1 == buf + c.src[c.offset..(r.0.offset)]
    ensures (AtEnd(c) || !InClass(NameClass, c.src[c.offset])) ==> r == (c, buf)
    ensures AtEnd(r.0) || !InClass(NameClass, r.0.src[r.0.offset])
  {
    var r1 := ReadExponent(c, buf);
    var r2 := Run(r1.0, NameClass, r1.1);
    ExtendText(buf, c.src, c.offset, r1.0.offset, r2.0.offset);
    r2
  }

  /**
   * `read_number` as written, called with its first character `ch` already
   * consumed. Its loop appends the lookahead before testing it, so the
   * character after `ch` always joins the number: `1+2` is one `Number`
   * token. See `ReadNumber` for the corrected reading.
   */
  function ReadNumberAsWritten(c: Cursor, ch: char, start: LexPosition): (r: (Cursor, Lexeme))
    ensures Follows(c, r.0)
    ensures !AtEnd(c) ==> r.0.offset > c.offset
    ensures r.1 == Lexeme(LexLocation(start, Position(r.0)), Number([ch] + c.src[c.offset..(r.0.offset)]))
    ensures AtEnd(r.0) || !InClass(NameClass, r.0.src[r.0.offset])
  {
    var r1 := FirstThenRun(c, NumberClass, [ch]);
    var r2 := NumberTail(r1.0, r1.1);
    ExtendText([ch], c.src, c.offset, r1.0.offset, r2.0.offset);
    (r2.0, Lexeme(LexLocation(start, Position(r2.0)), Number(r2.1)))
  }

  /**
   * `read_number` with its first loop a `while` loop, so that only digits,
   * `.` and `_` extend the leading run; then the optional exponent marker and
   * a run of letters, digits and `_`. The token's text is `ch` followed by
   * every character consumed. `ReadTokenCorrected` uses it.
   */
  function ReadNumber(c: Cursor, ch: char, start: LexPosition): (r: (Cursor, Lexeme))
    ensures Follows(c, r.0)
    ensures r.1 == Lexeme(LexLocation(start, Position(r.0)), Number([ch] + c.src[c.offset..(r.0.offset)]))
    ensures AtEnd(r.0) || !InClass(NameClass, r.0.src[r.0.offset])
  {
    var r1 := Run(c, NumberClass, [ch]);
    var r2 := NumberTail(r1.0, r1.1);
    ExtendText([ch], c.src, c.offset, r1.0.offset, r2.0.offset);
    (r2.0, Lexeme(LexLocation(start, Position(r2.0)), Number(r2.1)))
  }

  /** The line-comment tail of `read_comment_body`: everything up to `\r`, `\n` or the end. */
  function ReadLineComment(c: Cursor, start: LexPosition): (r: (Cursor, Lexeme))
    ensures Follows(c, r.0)
    ensures r.1 == Lexeme(LexLocation(start, Position(r.0)), Comment(c.src[c.offset..(r.0.offset)]))
    ensures forall k :: c.offset <= k < r.0.offset ==> c.src[k] != '\r' && c.src[k] != '\n'
    ensures AtEnd(r.0) || r.0.src[r.0.offset] == '\r' || r.0.src[r.0.offset] == '\n'
  {
    var (c1, text) := Run(c, LineClass, []);
    assert text == c.src[c.offset..c1.offset];
    (c1, Lexeme(LexLocation(start, Position(c1)), Comment(text)))
  }

  /**
   * `read_comment_body` as written, called after `--`. It asks
   * `skip_long_separator` for the opening bracket while the lookahead still
   * IS that bracket, so the `=` run is never seen: every `--[` opens a
   * level-0 long comment. See `ReadCommentBody` for the corrected reading.
   */
  function ReadCommentBodyAsWritten(c: Cursor): (r: (Cursor, Lexeme))
    ensures Follows(c, r.0)
    ensures r.1.kind.Comment? || r.1.kind.BrokenComment?
    ensures r.1.location.begin == Position(c) && r.1.location.end == Position(r.0)
  {
    var start := Position(c);
    if CurrentIs(c, '[') then
      var (c1, sep) := SkipLongSeparator(c, '[');
      if sep >= 0 then ReadLongString(c1, start, sep, CommentForm, [])
      else ReadLineComment(c1, start)
    else
      ReadLineComment(c, start)
  }

  /**
   * `read_comment_body` with the opening bracket consumed before the `=` run
   * is counted, as the raw-string branch of `read_next` does: `--[==[` opens
   * a level-2 long comment. When the bracket opens no long comment, the
   * comment is the rest of the line from the `[` on. `ReadTokenCorrected`
   * uses it.
   */
  function ReadCommentBody(c: Cursor): (r: (Cursor, Lexeme))
    ensures Follows(c, r.0)
    ensures r.1.kind.Comment? || r.1.kind.BrokenComment?
    ensures r.1.location.begin == Position(c) && r.1.location.end == Position(r.0)
  {
    var start := Position(c);
    if CurrentIs(c, '[') then
      var (c1, sep) := SkipLongSeparator(Consume(c), '[');
      if sep >= 0 then ReadLongString(c1, start, sep, CommentForm, [])
      else ReadLineComment(c, start)
    else
      ReadLineComment(c, start)
  }

  /**
   * The reserved word a text spells, if any (the `match` at the end of
   * `read_name`). The table is split by the length of the text.
   */
  function KeywordOf(text: string): (r: Option<LexType>)
    ensures r.Some? ==> IsKeyword(r.value) && KeywordText(r.value) == text
  {
    if |text| == 2 then KeywordOfLength2(text)
    else if |text| == 3 then KeywordOfLength3(text)
    else if |text| == 4 then KeywordOfLength4(text)
    else if |text| == 5 then KeywordOfLength5(text)
    else if |text| == 6 then KeywordOfLength6(text)
    else if |text| == 8 then KeywordOfLength8(text)
    else None
  }

  function KeywordOfLength2(text: string): (r: Option<LexType>)
    requires |text| == 2
    ensures r.Some? ==> IsKeyword(r.value) && KeywordText(r.value) == text
  {
    match text
    case "do" => Some(Do)
    case "if" => Some(If)
    case "in" => Some(In)
    case "or" => Some(Or)
    case _ => None
  }

  function KeywordOfLength3(text: string): (r: Option<LexType>)
    requires |text| == 3
    ensures r.Some? ==> IsKeyword(r.value) && KeywordText(r.value) == text
  {
    match text
    case "and" => Some(And)
    case "end" => Some(End)
    case "for" => Some(For)
    case "nil" => Some(Nil)
    case "not" => Some(Not)
    case _ => None
  }

  function KeywordOfLength4(text: string): (r: Option<LexType>)
    requires |text| == 4
    ensures r.Some? ==> IsKeyword(r.value) && KeywordText(r.value) == text
  {
    match text
    case "else" => Some(Else)
    case "then" => Some(Then)
    case "true" => Some(True)
    case _ => None
  }

  function KeywordOfLength5(text: string): (r: Option<LexType>)
    requires |text| == 5
    ensures r.Some? ==> IsKeyword(r.value) && KeywordText(r.value) == text
  {
    match text
    case "begin" => Some(Begin)
    case "break" => Some(Break)
    case "false" => Some(False)
    case "local" => Some(Local)
    case "until" => Some(Until)
    case "while" => Some(While)
    case _ => None
  }

  function KeywordOfLength6(text: string): (r: Option<LexType>)
    requires |text| == 6
    ensures r.Some? ==> IsKeyword(r.value) && KeywordText(r.value) == text
  {
    match text
    case "elseif" => Some(ElseIf)
    case "repeat" => Some(Repeat)
    case "return" => Some(Return)
    case _ => None
  }

  function KeywordOfLength8(text: string): (r: Option<LexType>)
    requires |text| == 8
    ensures r.Some? ==> IsKeyword(r.value) && KeywordText(r.value) == text
  {
    match text
    case "function" => Some(Function)
    case _ => None
  }

  /** The kind a name-shaped text lexes as: its keyword, or `Name` carrying the text. */
  function KeywordOrName(text: string): LexType {
    match KeywordOf(text)
    case Some(k) => k
    case None => Name(text)
  }

  /** The spelling of a reserved word; `KeywordOf` reads it back. */
  function KeywordText(k: LexType): (r: string)
    requires IsKeyword(k)
  {
    match k
    case Begin => "begin"
    case And => "and"
    case Break => "break"
    case Do => "do"
    case Else => "else"
    case ElseIf => "elseif"
    case End => "end"
    case False => "false"
    case For => "for"
    case Function => "function"
    case If => "if"
    case In => "in"
    case Local => "local"
    case Nil => "nil"
    case Not => "not"
    case Or => "or"
    case Repeat => "repeat"
    case Return => "return"
    case Then => "then"
    case True => "true"
    case Until => "until"
    case While => "while"
  }

  /**
   * `read_name` as written, called with its first character `ch` already
   * consumed. Like `read_number` it appends the lookahead before testing it,
   * so a one-character name takes the next character with it: `x = 1`
   * starts with the name `x `. See `ReadName` for the corrected reading.
   */
  function ReadNameAsWritten(c: Cursor, ch: char, start: LexPosition): (r: (Cursor, Lexeme))
    ensures Follows(c, r.0)
    ensures !AtEnd(c) ==> r.0.offset > c.offset
    ensures r.1 == Lexeme(LexLocation(start, Position(r.0)), KeywordOrName([ch] + c.src[c.offset..(r.0.offset)]))
  {
    var (c1, text) := FirstThenRun(c, NameClass, [ch]);
    (c1, Lexeme(LexLocation(start, Position(c1)), KeywordOrName(text)))
  }

  /**
   * `read_name` with a `while` loop: the name is `ch` followed by the run of
   * letters, digits and `_` after it, read as a reserved word when it spells
   * one. `ReadTokenCorrected` uses it.
   */
  function ReadName(c: Cursor, ch: char, start: LexPosition): (r: (Cursor, Lexeme))
    ensures Follows(c, r.0)
    ensures forall k :: c.offset <= k < r.0.offset ==> InClass(NameClass, c.src[k])
    ensures AtEnd(r.0) || !InClass(NameClass, r.0.src[r.0.offset])
    ensures r.1 == Lexeme(LexLocation(start, Position(r.0)), KeywordOrName([ch] + c.src[c.offset..(r.0.offset)]))
  {
    var (c1, text) := Run(c, NameClass, [ch]);
    (c1, Lexeme(LexLocation(start, Position(c1)), KeywordOrName(text)))
  }

  // ---------------------------------------------------------------------------
  // Operators and punctuation
  // ---------------------------------------------------------------------------

  /**
   * The operators with a one-character and a two-character form: the
   * character that selects the longer form, and the two kinds.
   */
  function OperatorPair(ch: char): Option<(char, LexType, LexType)> {
    match ch
    case '+' => Some(('=', Add, AddAssign))
    case '*' => Some(('=', Mul, MulAssign))
    case '/' => Some(('=', Div, DivAssign))
    case '%' => Some(('=', Mod, ModAssign))
    case '^' => Some(('=', Pow, PowAssign))
    case '=' => Some(('=', Assign, LexType.Equal))
    case '<' => Some(('=', LexType.Less, LessEqual))
    case '>' => Some(('=', LexType.Greater, GreaterEqual))
    case '~' => Some(('=', Not, NotEqual))
    case ':' => Some((':', Colon, DoubleColon))
    case _ => None
  }

  /** The punctuation that is always a single character. */
  function SinglePunctuation(ch: char): Option<LexType> {
    match ch
    case '(' => Some(LeftRoundBracket)
    case ')' => Some(RightRoundBracket)
    case '{' => Some(LeftCurlyBracket)
    case '}' => Some(RightCurlyBracket)
    case ']' => Some(RightSquareBracket)
    case ';' => Some(Semicolon)
    case ',' => Some(Comma)
    case '#' => Some(Sharp)
    case _ => None
  }

  /** The `-` branch of `read_next`: `->`, `-=`, a comment, or `-`. */
  function ReadMinus(c: Cursor, start: LexPosition): (r: (Cursor, Lexeme))
    ensures Follows(c, r.0)
  {
    if CurrentIs(c, '>') then (Consume(c), Lexeme(LineOffset(start, 2), SkinnyArrow))
    else if CurrentIs(c, '=') then (Consume(c), Lexeme(LineOffset(start, 2), SubAssign))
    else if CurrentIs(c, '-') then ReadCommentBodyAsWritten(Consume(c))
    else (c, Lexeme(LineOffset(start, 1), Sub))
  }

  /** The `[` branch of `read_next`: a raw string, `[`, or a broken string. */
  function ReadOpenBracket(c: Cursor, start: LexPosition): (r: (Cursor, Lexeme))
    ensures Follows(c, r.0)
  {
    var (c1, sep) := SkipLongSeparator(c, '[');
    if sep >= 0 then ReadLongString(c1, start, sep, RawStringForm, [])
    else if sep == -1 then (c1, Lexeme(LineOffset(start, 1), LeftSquareBracket))
    else (c1, Lexeme(LineOffset(start, 1), BrokenString))
  }

  /** The `.` branch of `read_next`: `...`, `..=`, `..`, a number, or `.`. */
  function ReadDot(c: Cursor, start: LexPosition): (r: (Cursor, Lexeme))
    ensures Follows(c, r.0)
  {
    if CurrentIs(c, '.') then
      var c1 := Consume(c);
      if CurrentIs(c1, '.') then (Consume(c1), Lexeme(LineOffset(start, 3), Dot3))
      else if CurrentIs(c1, '=') then (Consume(c1), Lexeme(LineOffset(start, 3), ConcatAssign))
      else (c1, Lexeme(LineOffset(start, 2), Dot2))
    else if !AtEnd(c) && IsDigit(c.src[c.offset]) then
      ReadNumberAsWritten(c, '.', start)
    else
      (c, Lexeme(LineOffset(start, 1), Dot))
  }

  /** The characters `read_next` starts a token with; any other character is consumed as a zero-width `Eof`. */
  predicate StartsToken(ch: char) {
    || ch == '-' || OperatorPair(ch).Some? || ch == '[' || ch == '\'' || ch == '"' || ch == '.'
    || SinglePunctuation(ch).Some? || IsDigit(ch) || IsAlphabetic(ch) || ch == '_'
  }

  /**
   * `read_next`: one token from the lookahead on, with `read_number`,
   * `read_name` and `read_comment_body` as written. At the end of input, and
   * for a character no token starts with (which is consumed), the answer is
   * a zero-width `Eof`.
   */
  function ReadToken(c: Cursor): (r: (Cursor, Lexeme))
    ensures Follows(c, r.0)
    ensures AtEnd(c) ==> r == (c, Lexeme(LineZero(Position(c)), Eof))
    ensures !AtEnd(c) && !StartsToken(c.src[c.offset]) ==> r == (Consume(c), Lexeme(LineZero(Position(c)), Eof))
    ensures !AtEnd(c) ==> r.0.offset > c.offset
  {
    var start := Position(c);
    if AtEnd(c) then
      (c, Lexeme(LineZero(start), Eof))
    else
      var ch := c.src[c.offset];
      var c1 := Consume(c);
      if ch == '-' then
        ReadMinus(c1, start)
      else if OperatorPair(ch).Some? then
        var (second, one, two) := OperatorPair(ch).value;
        if CurrentIs(c1, second) then (Consume(c1), Lexeme(LineOffset(start, 2), two))
        else (c1, Lexeme(LineOffset(start, 1), one))
      else if ch == '[' then
        ReadOpenBracket(c1, start)
      else if ch == '\'' || ch == '"' then
        ReadQuotedString(c1, ch)
      else if ch == '.' then
        ReadDot(c1, start)
      else if SinglePunctuation(ch).Some? then
        (c1, Lexeme(LineOffset(start, 1), SinglePunctuation(ch).value))
      else if IsDigit(ch) then
        ReadNumberAsWritten(c1, ch, start)
      else if IsAlphabetic(ch) || ch == '_' then
        ReadNameAsWritten(c1, ch, start)
      else
        (c1, Lexeme(LineZero(start), Eof))
  }

  /**
   * `read_next` with the corrected `ReadNumber`, `ReadName` and
   * `ReadCommentBody` in place of the readers as written; every other
   * character is read as `ReadToken` reads it.
   */
  function ReadTokenCorrected(c: Cursor): (r: (Cursor, Lexeme))
    ensures Follows(c, r.0)
    ensures AtEnd(c) || !StartsToken(c.src[c.offset]) ==> r == ReadToken(c)
  {
    var start := Position(c);
    if AtEnd(c) then
      ReadToken(c)
    else
      var ch := c.src[c.offset];
      var c1 := Consume(c);
      if ch == '-' && CurrentIs(c1, '-') then
        ReadCommentBody(Consume(c1))
      else if ch == '.' && !CurrentIs(c1, '.') && !AtEnd(c1) && IsDigit(c1.src[c1.offset]) then
        ReadNumber(c1, '.', start)
      else if IsDigit(ch) then
        ReadNumber(c1, ch, start)
      else if IsAlphabetic(ch) || ch == '_' then
        ReadName(c1, ch, start)
      else
        ReadToken(c)
  }

  // ---------------------------------------------------------------------------
  // The pull interface
  // ---------------------------------------------------------------------------

  /** The lexer: scan state, the last token produced, and the location of the one before it. */
  datatype LexerState = LexerState(cursor: Cursor, lexeme: Lexeme, prevLocation: LexLocation)

  /** `Lexer::new`. */
  function NewLexer(src: string): (r: LexerState)
    ensures r.cursor.src == src && r.cursor.offset == 0
    ensures r.lexeme.kind == Eof
  {
    LexerState(Start(src), Lexeme(ZeroLocation, Eof), ZeroLocation)
  }

  /**
   * `next`: skips blanks, reads one token, and with `skipComments` keeps going
   * past `Comment` tokens. The returned state's `lexeme` is the answer.
   */
  function Next(lx: LexerState, skipComments: bool): (r: LexerState)
    ensures Follows(lx.cursor, r.cursor)
    ensures skipComments ==> !IsComment(r.lexeme.kind)
    ensures !r.lexeme.kind.Eof? ==> r.cursor.offset > lx.cursor.offset
    ensures !skipComments ==> r.prevLocation == lx.lexeme.location
    decreases |lx.cursor.src| - lx.cursor.offset
  {
    var c := SkipSpace(lx.cursor);
    var (c1, lexeme) := ReadToken(c);
    var lx1 := LexerState(c1, lexeme, lx.lexeme.location);
    if skipComments && IsComment(lexeme.kind) then Next(lx1, skipComments) else lx1
  }
}
