# rua lexer core in Dafny

A model of the front end of `rua`, a Rust implementation of a Luau-style
language: the lexer that turns source text into tokens (`Lexeme`s carrying a
`LexType` and a `LexLocation`), the position and location types it reports,
the token-kind enumeration with its numeric codes and display names, AST
names with their ordering and hash, the name table the parser interns names
in, the expression/statement/type classifiers of AST node payloads, and the
parser's construction and token intake.

The lexer is modelled as a state-passing function over a `Cursor` (the
source text and the number of characters consumed). The line and column the
lexer keeps are computed from the consumed text, and `Cursor.ConsumePosition`
states that they move exactly as `consume` moves them. Every `read_*` routine
is a function from a cursor to the advanced cursor and the token read.

Modules, one per source unit:

- `Wrappers`: `Option`.
- `Location`: `LexPosition` and `LexLocation` with their comparisons.
- `LexType`: token kinds, `code`, `count` and `to_string`.
- `LexTypeText`: reading a `to_string` display back as a kind.
- `Cursor`: the scan state, `consume` and `position`.
- `Lexer`: every reader, `read_next`, `new` and `next`, and the corrected readers the findings below compare them with.
- `LexerProps`, `LexerForms`, `LexerSymbols`, `LexerOrder`: what each
  reader returns on each shape of input, and the order of the tokens.
- `LexerFindings`: where the readers as written and the corrected readers part ways, token by token.
- `LexerExamples`: first tokens of the inputs the lexer's unit tests list.
- `Name`: `AstName`, its UTF-8 ordering and its FNV-1a hash.
- `NameTable`: `add`, `get_or_add` and `get`.
- `Node`: the payload classifiers.
- `Parser`: `Parser::new` and `next_lexeme`.

Behaviour of the code that the model keeps as written:

- Escapes in a quoted string:
  - `\r` and `\n` both give a line feed.
  - A backslash before a line break keeps the line break.
  - `\\` gives a backslash.
  - There is no `\t` escape and no escape for the delimiter; either makes the string a `BrokenString`.
  - A backslash at the end of input also gives a `BrokenString`.
- A quoted string's location starts after its opening quote. A comment's location starts after its `--`.
- A long comment that closes gives `Comment(text)`; one that runs to the end of input gives `BrokenComment`. `BlockComment` is never produced.
- `[` followed by `=` signs and no second `[` gives a one-column `BrokenString`, although the `=` signs are consumed.
- A character that starts no token is consumed and yields a zero-width `Eof`.
- `read_long_string` never keeps a `]` in the text. A closing bracket at the wrong level is dropped together with its `=` signs, and reading goes on, so `[[a]b]]` is `RawString("ab")`.
- `read_name` and `read_number` append the lookahead before testing it, so the character after the first always joins the token: `x = 1` starts with `Name("x ")`, and `1 + 2` with `Number("1 ")`.
- `read_comment_body` opens every `--[` comment at level 0 just after its first `[`: `--[[t]]` is `Comment("[t")`, `--[ note` starts a long comment that runs to `]]`, and `--[==[x]==]` at the end of input is a `BrokenComment`.
- `next(true)` skips `Comment` and `BlockComment` but stops at a `BrokenComment`. `next_lexeme` with comment capture records and skips all three.
- `to_string` prints `RightRoundBracket` as `"RightSquareBracket"`.

The token stream (`Lexer.ReadToken`, `Lexer.Next` and the parser) uses the
readers as written, with the behaviour above. The corrected readers
(`Lexer.ReadName`, `Lexer.ReadNumber`, `Lexer.ReadCommentBody`) and the
corrected dispatch `Lexer.ReadTokenCorrected` are used only by the findings
at the end, which set each reading as written beside the corrected one.

## Model

| member | source | states |
|---|---|---|
| Location.PartialCmp | src/ast/location.rs:49-60 | always answers; `Equal` exactly for equal positions, `Less`/`Greater` exactly by line first, then column |
| Location.EqIsStructural | src/ast/location.rs:17-22 | position equality (and location equality, lines 98-103) holds exactly when all fields agree |
| Location.Trichotomy | src/ast/location.rs:25-44 | `gt` is `lt` with its arguments swapped; exactly one of `lt`, `eq`, `gt` holds |
| Location.LtTransitive | src/ast/location.rs:25-32 | `lt` is transitive |
| Location.LeTotalOrder | src/ast/location.rs:33-48 | `le` is reflexive, antisymmetric, transitive and total; `ge` is `le` swapped |
| Location.LineOffset | src/ast/location.rs:73-76 | the location starts at `begin` and ends on the same line `length` columns later, never before its start |
| Location.LineZero | src/ast/location.rs:77-80 | the empty location at `begin` contains no position |
| Location.EncloseReflexive | src/ast/location.rs:85-88 | every location encloses itself |
| Location.EncloseTransitive | src/ast/location.rs:85-88 | enclosure is transitive |
| Location.ContainsHalfOpen | src/ast/location.rs:89-92 | `contains` excludes the end and includes the begin exactly when the location is not empty |
| Location.ContainsImpliesClosed | src/ast/location.rs:89-96 | a contained position is contained in the closed location too |
| Location.EncloseContains | src/ast/location.rs:85-92 | a position inside an enclosed location is inside the enclosing one |
| LexType.Code | src/ast/lex_type.rs:76-153 | every code lies in `0 .. count()` |
| LexType.FromCodeInvertsCode | src/ast/lex_type.rs:76-149 | the code determines the kind up to its payload; keywords are exactly the codes 48 to 69 |
| LexType.CodeOfFromCode | src/ast/lex_type.rs:76-153 | every code below `count()` is the code of the kind rebuilt from it |
| LexType.CodeInjective | src/ast/lex_type.rs:76-149 | two kinds share a code exactly when they differ at most in payload |
| LexType.CodeOnto | src/ast/lex_type.rs:76-153 | every number below `count()` is some kind's code |
| LexType.CodeLandmarks | src/ast/lex_type.rs:151-153 | `count()` is 70; `Eof` is 0, `Begin` 48 and `While` 69 |
| LexType.ToString | src/ast/lex_type.rs:156-257 | a kind with text prints as its kind name, `: ` and the text |
| LexType.ToStringNotInjective | src/ast/lex_type.rs:171 | two different kinds, `RightRoundBracket` and `RightSquareBracket`, print the same |
| LexTypeText.ParseKindInvertsToString | src/ast/lex_type.rs:156-257 | every display string reads back as the kind it names, a kind with text by its label and the rest by name; `RightRoundBracket` reads back as `RightSquareBracket` |
| LexTypeText.ToStringCollision | src/ast/lex_type.rs:156-257 | two kinds print the same exactly when they are equal or are `RightRoundBracket` and `RightSquareBracket`: the one misprint is the only collision |
| Cursor.Start | src/ast/lexer.rs:21-36 | a fresh scan is at offset 0 and position line 0, column 0 |
| Cursor.Current | src/ast/lexer.rs:21-36 | the current character is absent exactly at the end of input, and otherwise is the next unread character |
| Cursor.Consume | src/ast/lexer.rs:57-67 | consuming moves one character on, and does nothing at the end of input |
| Cursor.ConsumePosition | src/ast/lexer.rs:57-71 | consuming a line feed moves to column 0 of the next line; any other character moves one column right |
| Cursor.PositionMonotone | src/ast/lexer.rs:69-71 | positions never move back while scanning, and move strictly forward once a character is consumed |
| Cursor.SameLine | src/ast/lexer.rs:57-71 | consuming text without a line feed stays on the line and adds its length to the column |
| Cursor.Advance | src/ast/lexer.rs:57-67 | `n` consumes move `n` characters on, stopping at the end of input |
| Lexer.SkipSpace | src/ast/lexer.rs:80-92 | consumes blanks only, and stops at the end of input or at a character that is not a blank |
| Lexer.Run | src/ast/lexer.rs:281-296 | appends the consumed text to the buffer; every consumed character is in the class and the next one is not |
| Lexer.CountEquals | src/ast/lexer.rs:94-117 | consumes a run of `=` and adds its length to the count; the next character is not `=` |
| Lexer.SkipLongSeparator | src/ast/lexer.rs:94-117 | the result is the number of `=` signs when they are followed by `ch`, which is consumed too; otherwise minus that number minus one, stopping at a character that is neither `ch` nor `=` |
| LexerProps.SeparatorCounts | src/ast/lexer.rs:94-117 | `n` equals signs then `ch` give `n` and consume all `n + 1` characters |
| LexerProps.SeparatorOpen | src/ast/lexer.rs:94-117 | `n` equals signs not followed by `ch` give `-n - 1` and consume the signs only |
| Lexer.ReadLongString | src/ast/lexer.rs:119-146 | the location runs from the start to where scanning stops; the broken kind comes only at the end of input; the text read extends the buffer |
| LexerProps.LongStringAtClose | src/ast/lexer.rs:132-138 | at `]`, `m` equals signs and `]`, the string closes exactly when `m` is the level, and otherwise reading goes on after them |
| LexerProps.LongStringCloses | src/ast/lexer.rs:119-146 | text without `]` followed by a closing bracket of the right level gives that text as the payload |
| LexerProps.LongStringSkipsClose | src/ast/lexer.rs:132-141 | a closing bracket of another level is passed over: the mismatched closing bracket is dropped, the text before it is kept, and reading goes on |
| LexerProps.LongStringUnclosed | src/ast/lexer.rs:142-144 | with no `]` before the end of input, the string is broken and ends at the end of input |
| LexerForms.ReadTokenOpenBracket | src/ast/lexer.rs:444-461 | `read_next` at `[` goes on with the long-bracket reader |
| LexerForms.RawStringRoundTrip | src/ast/lexer.rs:444-461 | `[`, `n` equals signs, `[`, a text without `]`, then the closing bracket of level `n` read back as `RawString` of that text, spanning exactly those characters |
| LexerForms.RawStringMismatch | src/ast/lexer.rs:444-461 | a raw string closed at another level gives `BrokenString` up to the end of input |
| LexerForms.RawStringUnclosed | src/ast/lexer.rs:444-461 | a raw string without a closing bracket gives `BrokenString` up to the end of input |
| LexerForms.OpenBracketAlone | src/ast/lexer.rs:444-461 | `[` not followed by `[` or `=` is `LeftSquareBracket`; after `=` signs without a second `[` it is a one-column `BrokenString` |
| LexerForms.EscapeChar | src/ast/lexer.rs:162-181 | the written form of a character ends with it and is escaped exactly for a backslash, `\r` or `\n`, and then reading the escape gives the character back |
| LexerForms.QuotedStep | src/ast/lexer.rs:162-181 | reading a character's written form appends the character to the buffer |
| LexerForms.LetterEscapeStep | src/ast/lexer.rs:171-172 | a backslash followed by the letter `r` or `n` appends a line feed, and reading goes on after the letter |
| Lexer.ReadQuotedBody | src/ast/lexer.rs:148-199 | the result is `QuotedString` or `BrokenString`, located from the start to where scanning stops; a `QuotedString` extends the buffer and ends just after the delimiter |
| Lexer.ReadQuotedString | src/ast/lexer.rs:148-199 | the result is `QuotedString` or `BrokenString`, located from the first character after the opening quote |
| LexerForms.ReadTokenQuote | src/ast/lexer.rs:462 | `read_next` at a quote reads the body starting after the quote |
| LexerForms.QuotedRoundTrip | src/ast/lexer.rs:148-199 | a delimiter, the written form of a text, and the delimiter read back as `QuotedString` of that text |
| LexerForms.QuotedUnterminated | src/ast/lexer.rs:192-197 | a quoted string cut off by the end of input gives `BrokenString` |
| LexerForms.QuotedBroken | src/ast/lexer.rs:162-188 | a bare line break, or a backslash before a character it cannot escape, ends the string as `BrokenString` right there |
| Lexer.ReadExponent | src/ast/lexer.rs:218-230 | without `e` or `E` nothing is consumed; with one, one or two characters are consumed and kept, two exactly when `+` or `-` follows the `e` or `E` |
| Lexer.NumberTail | src/ast/lexer.rs:218-239 | the consumed text is kept; when the next character is not a letter, digit or `_`, nothing is consumed; reading stops only at the end of input or before a character that is not a letter, digit or `_` |
| Lexer.ReadNumberAsWritten | src/ast/lexer.rs:201-245 | as written, consumes at least one character after the first before any check, its text is exactly the characters consumed, and it stops only at the end of input or before a character that is not a letter, digit or `_` |
| Lexer.ReadNumber | src/ast/lexer.rs:201-245 | corrected reader, not the code as written: the number's text is its first character followed by exactly the characters consumed, testing each before taking it, and it stops only at the end of input or before a character that is not a letter, digit or `_` |
| LexerProps.ExponentReads | src/ast/lexer.rs:218-230 | at `e` or `E`, optionally followed by a sign, the marker reader takes exactly the marker, and the sign exactly when one is written |
| LexerProps.NumberTailReads | src/ast/lexer.rs:218-239 | after the leading run, `read_number` takes exactly the exponent marker and the run of letters, digits and `_` after it |
| LexerProps.ReadNumberTailText | src/ast/lexer.rs:201-245 | `read_number` as written, over a leading run of two or more digits, `.` and `_` followed by an optional `e` or `E` with an optional sign and a run of letters, digits and `_`, gives `Number` of the whole text and stops right after it |
| LexerProps.NumberTailRoundTrip | src/ast/lexer.rs:201-245 | a leading run of two or more digits, `.` and `_`, starting with a digit or with `.` and a digit, then an optional `e` or `E` with an optional sign, then a run of letters, digits and `_`, reads back as one `Number` of the whole text, spanning it exactly |
| LexerProps.ReadNumberPlain | src/ast/lexer.rs:201-245 | corrected reader: a number-shaped text is read to its end as `Number` of that text |
| LexerProps.ReadTokenDigit | src/ast/lexer.rs:513-516 | `read_next` at a digit reads a number with `read_number` as written |
| LexerProps.ReadTokenDotDigit | src/ast/lexer.rs:463-489 | `read_next` at `.` before a digit reads a number starting with `.`, with `read_number` as written |
| LexerProps.NumberRoundTrip | src/ast/lexer.rs:201-245 | a number-shaped text of two or more characters, or one ending the input, starting with a digit or with `.` and a digit, reads back as `Number` of that text, spanning it exactly |
| LexerProps.NumberAsWrittenAgrees | src/ast/lexer.rs:201-216 | when the character after the first continues the number, or there is none, `read_number` as written and the corrected reader give the same token |
| Lexer.ReadLineComment | src/ast/lexer.rs:263-275 | the comment text is everything up to, not including, the next line break or the end of input |
| Lexer.ReadCommentBodyAsWritten | src/ast/lexer.rs:247-276 | as written, the result is `Comment` or `BrokenComment`, located from just after `--` |
| Lexer.ReadCommentBody | src/ast/lexer.rs:247-276 | corrected reader, not the code as written: the result is `Comment` or `BrokenComment`, located from just after `--` |
| LexerForms.ReadTokenComment | src/ast/lexer.rs:336-353 | `read_next` at `--` reads the comment body with `read_comment_body` as written |
| LexerForms.LineCommentRoundTrip | src/ast/lexer.rs:263-275 | `--` and a text on one line not starting with `[` read back as `Comment` of that text |
| LexerForms.LongCommentRoundTrip | src/ast/lexer.rs:247-260 | `--[`, a text without `]`, then `]]` read back as `Comment` of that text, spanning it exactly: every long comment opens at level 0 |
| LexerForms.LongCommentOpens | src/ast/lexer.rs:250-251 | as written, the comment reader at `[` opens a level-0 long comment just after that `[` |
| LexerForms.LongCommentBodyCloses | src/ast/lexer.rs:247-260 | the comment reader as written, at `[`, a text without `]` and `]]`, gives `Comment` of that text |
| LexerForms.LongCommentUnclosed | src/ast/lexer.rs:247-260 | `--[` and a text without `]` up to the end of input is a `BrokenComment` running to the end, even when the text is an ordinary line |
| Lexer.KeywordOf | src/ast/lexer.rs:301-325 | a recognised word is a keyword whose spelling is that word |
| LexerProps.KeywordRoundTrip | src/ast/lexer.rs:301-325 | every keyword's spelling is recognised as that keyword |
| Lexer.ReadNameAsWritten | src/ast/lexer.rs:278-327 | as written, consumes at least one character after the first before any check, and the token is the keyword or name of exactly the characters consumed |
| Lexer.ReadName | src/ast/lexer.rs:278-327 | corrected reader, not the code as written: consumes only name characters and stops before the next non-name character; the token is the keyword or name of the word read |
| LexerProps.ReadNameWord | src/ast/lexer.rs:278-327 | corrected reader: after the first character of a word it takes exactly the rest of the word |
| LexerProps.ReadTokenName | src/ast/lexer.rs:513-518 | `read_next` at a letter or `_` reads a name with `read_name` as written |
| LexerProps.NameRoundTrip | src/ast/lexer.rs:278-327 | a word of two or more name characters, or one ending the input, starting with a letter or `_`, reads back as its keyword or as `Name` of it, spanning it exactly |
| LexerProps.NameAsWrittenAgrees | src/ast/lexer.rs:278-296 | when the character after the first continues the name, or there is none, `read_name` as written and the corrected reader give the same token |
| LexerForms.ReadTokenMinus | src/ast/lexer.rs:336-353 | `read_next` at `-` goes on with the minus reader |
| LexerSymbols.MinusAlone | src/ast/lexer.rs:336-353 | `-` not followed by `>`, `=` or `-` is a one-column `Sub` |
| LexerSymbols.MinusPair | src/ast/lexer.rs:336-353 | `->` is `SkinnyArrow` and `-=` is `SubAssign`, two columns wide |
| LexerSymbols.OperatorBranch | src/ast/lexer.rs:354-443 | an operator character gives its two-character kind when its second character follows, and its one-character kind otherwise |
| LexerSymbols.PairShort | src/ast/lexer.rs:354-443 | an operator without its second character is its one-column kind |
| LexerSymbols.PairLong | src/ast/lexer.rs:354-443 | an operator with its second character is its two-column kind |
| LexerSymbols.DotAlone | src/ast/lexer.rs:463-489 | `.` not followed by `.` or a digit is a one-column `Dot` |
| LexerSymbols.DotTwo | src/ast/lexer.rs:463-489 | `..` not followed by `.` or `=` is `Dot2` |
| LexerSymbols.DotThree | src/ast/lexer.rs:463-489 | `...` is `Dot3` and `..=` is `ConcatAssign`, three columns wide |
| LexerSymbols.Punctuation | src/ast/lexer.rs:490-512 | each single punctuation character is its one-column kind |
| LexerSymbols.SymbolRoundTrip | src/ast/lexer.rs:336-512 | the spelling of any operator or punctuation kind, when the next character does not extend it, reads back as that kind, spanning the spelling on one line |
| Lexer.ReadToken | src/ast/lexer.rs:329-526 | never moves back; at the end of input gives a zero-width `Eof` and consumes nothing; a character that starts no token is consumed and answered with a zero-width `Eof`; otherwise consumes at least one character |
| LexerOrder.ReadTokenOrdered | src/ast/lexer.rs:329-526 | the token lies between the position before reading and the position after it, and begins no later than it ends |
| LexerOrder.ReadTokenEof | src/ast/lexer.rs:329-526 | `read_next` answers `Eof` exactly at the end of input and at a character that starts no token |
| Lexer.ReadTokenCorrected | src/ast/lexer.rs:329-526 | the corrected dispatch agrees with `read_next` at the end of input and at every character that starts no token |
| Lexer.NewLexer | src/ast/lexer.rs:21-36 | a fresh lexer is at offset 0 of its source with an `Eof` token |
| LexerOrder.NewLexerSettled | src/ast/lexer.rs:21-36 | a fresh lexer's token ends no later than its position |
| Lexer.Next | src/ast/lexer.rs:528-542 | never moves back; with skipping it never answers a comment; a token other than `Eof` consumes input; without skipping the previous location is the old token's |
| LexerOrder.NextOrdered | src/ast/lexer.rs:528-542 | successive tokens come in source order: each begins at or after the end of the one before |
| LexerFindings.OneCharNameAsWritten | src/ast/lexer.rs:278-296 | as written, a one-character name takes the following non-name character into its text; the corrected reader stops before it |
| LexerFindings.OneCharNameToken | src/ast/lexer.rs:278-296 | as written, a one-character word followed by a character that does not continue it is read as one two-character name; the corrected dispatch reads the word alone |
| LexerFindings.NameRoundTripCorrected | src/ast/lexer.rs:278-296 | the corrected dispatch reads every word back as its keyword or as `Name` of it, whatever follows |
| LexerFindings.NameLookaheadExample | src/ast/lexer.rs:281-286 | `x = 1` starts with `Name("x ")`; the corrected dispatch gives `Name("x")` |
| LexerFindings.OneDigitNumberAsWritten | src/ast/lexer.rs:201-216 | as written, a one-digit number takes the following non-number character into its text; the corrected reader stops before it |
| LexerFindings.OneDigitNumberToken | src/ast/lexer.rs:201-216 | as written, a digit followed by a character that does not continue it is read as one two-character number; the corrected dispatch reads the digit alone |
| LexerFindings.NumberRoundTripCorrected | src/ast/lexer.rs:201-216 | the corrected dispatch reads every number-shaped text back as `Number` of it, whatever follows |
| LexerFindings.NumberLookaheadExample | src/ast/lexer.rs:204-208 | `1 + 2` starts with `Number("1 ")`; the corrected dispatch gives `Number("1")` |
| LexerFindings.CommentLevelAsWritten | src/ast/lexer.rs:247-260 | as written, a long comment of level 1 or more at the end of input is a `BrokenComment` |
| LexerFindings.CommentLevelZeroAsWritten | src/ast/lexer.rs:247-260 | as written, `--[[t]]` is `Comment` of `[` followed by `t` |
| LexerFindings.CommentLevelToken | src/ast/lexer.rs:247-260 | as written, `--` and a long bracket of level 1 or more at the end of input is a `BrokenComment`; the corrected dispatch gives `Comment` of the bracketed text |
| LexerFindings.LongCommentRoundTripCorrected | src/ast/lexer.rs:247-260 | the corrected dispatch reads `--` and a long bracket of any level back as `Comment` of the bracketed text |
| LexerFindings.CommentLevelExample | src/ast/lexer.rs:250-251 | `--[[t]]` starts with `Comment("[t")`; the corrected dispatch gives `Comment("t")` |
| LexerExamples.RawStringFirst | src/ast/lexer.rs:549-554 | the first token of a raw string of any level is `RawString` of its text |
| LexerExamples.QuotedFirst | src/ast/lexer.rs:549-554 | the first token of a quoted string is `QuotedString` of the unescaped text |
| LexerExamples.LineCommentFirst | src/ast/lexer.rs:549-554 | the first token of a line comment is `Comment` of its text |
| LexerExamples.NameFirst | src/ast/lexer.rs:549-554 | the first token of an input starting with a word is its keyword or its name |
| LexerExamples.NumberFirst | src/ast/lexer.rs:549-554 | the first token of a number-shaped input is `Number` of it |
| LexerExamples.NameExample | src/ast/lexer.rs:584 | `_var1 _var2` starts with `Name("_var1")` |
| LexerExamples.NumberExample | src/ast/lexer.rs:586 | `123.456` starts with `Number("123.456")` |
| LexerExamples.DotNumberExample | src/ast/lexer.rs:587 | `.456` starts with `Number(".456")` |
| LexerExamples.LineCommentExample | src/ast/lexer.rs:593-596 | `--comment body` starts with `Comment("comment body")` |
| LexerExamples.OpenBracketExample | src/ast/lexer.rs:620 | `[` alone is `LeftSquareBracket` |
| LexerExamples.RawStringExample | src/ast/lexer.rs:621-624 | `[===[hello world]===]` is `RawString("hello world")` |
| LexerExamples.RawStringUnclosedExample | src/ast/lexer.rs:625 | `[===[hello world` is `BrokenString` |
| LexerExamples.RawStringMismatchExample | src/ast/lexer.rs:626 | `[===[hello world]====]` is `BrokenString` |
| LexerExamples.QuotedExample | src/ast/lexer.rs:627 | `'foobar'` is `QuotedString("foobar")` |
| LexerExamples.QuotedLineBreakExample | src/ast/lexer.rs:629-632 | a backslash before a line feed keeps the line feed in the string |
| LexerExamples.LetterEscapeExample | src/ast/lexer.rs:171-172 | `"a\rb\nc"`, with both escapes written as letters, is `QuotedString` of `a`, a line feed, `b`, a line feed and `c` |
| LexerExamples.ExponentExample | src/ast/lexer.rs:218-239 | `12e+5x` is `Number("12e+5x")`: the signed exponent and the suffix after it belong to the number |
| LexerExamples.UnknownCharExample | src/ast/lexer.rs:519 | `@` is consumed and answered with a zero-width `Eof` at line 0, column 0 |
| LexerSymbols.SymbolFirst | src/ast/lexer.rs:549-554 | the first token of an input starting with an operator or punctuation spelling that nothing extends is that kind |
| LexerSymbols.SubExample | src/ast/lexer.rs:590 | `-1` starts with `Sub` |
| LexerSymbols.AddExample | src/ast/lexer.rs:600 | `+.0` starts with `Add` |
| LexerSymbols.DotExample | src/ast/lexer.rs:633 | `.a` starts with `Dot` |
| Name.Utf8Char | src/ast/node/name.rs:15-36 | a character's UTF-8 encoding has 1 to 4 bytes, exactly one for ASCII, and then the byte is the character's value |
| Name.DecodeUtf8Char | src/ast/node/name.rs:15-36 | decoding a character's UTF-8 bytes gives the character back |
| Name.Utf8Injective | src/ast/node/name.rs:15-36 | two texts with the same UTF-8 bytes are the same text |
| Name.LtLengthFirst | src/ast/node/name.rs:15-36 | a name with fewer UTF-8 bytes sorts first; at equal byte length, the first differing byte decides |
| Name.LtIrreflexive | src/ast/node/name.rs:15-36 | no name sorts before itself |
| Name.LtTrichotomy | src/ast/node/name.rs:15-36 | of two different names exactly one sorts first |
| Name.LtTransitive | src/ast/node/name.rs:15-36 | the name order is transitive |
| Name.LtCountsBytes | src/ast/node/name.rs:15-36 | `ab` sorts before `é`: lengths are counted in bytes, not in characters |
| Name.Hash | src/ast/node/name.rs:38-47 | the empty name hashes to the FNV offset basis 2166136261 |
| Name.FnvAppend | src/ast/node/name.rs:38-47 | appending a character applies one more xor-then-multiply round |
| Name.FnvTestVector | src/ast/node/name.rs:38-47 | the name `a` hashes to the 32-bit FNV-1a value 0xe40c292c |
| Name.HashSelf | src/ast/node/name.rs:38-47 | the name `self` hashes to 0x645ba277 |
| Name.HashNumber | src/ast/node/name.rs:38-47 | the name `number` hashes to 0x1bd670a0 |
| Name.HashErrorId | src/ast/node/name.rs:38-47 | the name `%error-id%` hashes to 0x688dbed3 |
| Name.HashNil | src/ast/node/name.rs:38-47 | the name `nil` hashes to 0x0da3f8ec |
| Name.ComputeHash | src/ast/node/name.rs:38-47 | the hashing loop computes the hash |
| NameTable.Add | src/ast/name_table.rs:36-42 | the text's slot holds the new entry; every other slot is unchanged and no other slot appears |
| NameTable.GetOrAdd | src/ast/name_table.rs:43-55 | an occupied slot is answered and the table is unchanged; a free slot gets a `Name` entry for the text, which is answered |
| NameTable.Get | src/ast/name_table.rs:56-65 | an occupied slot's entry is answered; a free slot gives the empty name with kind `Name("")` |
| NameTable.AddThenGet | src/ast/name_table.rs:36-65 | a text just added is found with its kind |
| NameTable.GetOrAddKeepsRegisteredKind | src/ast/name_table.rs:43-55 | `get_or_add` after `add` returns the added kind and leaves the table alone |
| NameTable.GetOrAddIdempotent | src/ast/name_table.rs:43-55 | a second `get_or_add` of the same text changes nothing and answers the same |
| NameTable.GetOrAddThenGet | src/ast/name_table.rs:43-65 | `get` answers what `get_or_add` answered |
| NameTable.CollidingTextsShareSlot | src/ast/name_table.rs:36-65 | two texts with the same hash share one slot, so `get` of one finds the other |
| NameTable.AddPreservesOtherSlots | src/ast/name_table.rs:36-65 | adding a text does not change what `get` answers for a text in another slot |
| Node.IsExprByFamily | src/ast/node/mod.rs:91-112 | `is_expr` holds exactly for the expression variants except the constant string |
| Node.IsStatByFamily | src/ast/node/mod.rs:114-138 | `is_stat` holds exactly for the statement variants except the statement error, plus the expression error |
| Node.IsTypeByFamily | src/ast/node/mod.rs:140-153 | `is_type` holds exactly for the type variants |
| Node.ClassifierOverlap | src/ast/node/mod.rs:91-153 | no type is an expression or a statement; only the expression error is both an expression and a statement |
| Node.Unclassified | src/ast/node/mod.rs:91-153 | a payload is in no class exactly when it is the constant string, the statement error or a type pack |
| Parser.NextLexeme | src/ast/parse/parser.rs:52-67 | answers the lexer's new token; only the lexer and the comment list change; recorded comments are appended and of a comment kind; with capture the answer is never a comment; without capture it is `next(false)` |
| Parser.InitialTokenStep | src/ast/parse/parser.rs:41-45 | one counter per token kind: 1 for `Eof`, 0 for the rest |
| Parser.AddNames | src/ast/parse/parser.rs:25-28 | the four names hold the given texts; other slots are kept; each text is found with a `Name` kind unless a later text shares its slot |
| Parser.ParserNameSlots | src/ast/parse/parser.rs:25-28 | the four names the parser interns have four distinct slots |
| Parser.ParserNamesFound | src/ast/parse/parser.rs:25-28 | after the four `add` calls, each of the four names is found again with a `Name` kind |
| Parser.New | src/ast/parse/parser.rs:24-50 | the parser holds `self`, `number`, `%error-id%` and `nil`, the options and the initial counters; the table keeps every other slot; all four names are found with a `Name` kind; without capture the lexer has read one token with `next(false)`; with capture the answer is not a comment, and when no `BrokenComment` was recorded the lexer stands where `next(true)` stops |
| Parser.CaptureAgreesWithSkipping | src/ast/parse/parser.rs:52-67 | with capture, `next_lexeme` ends where `next(true)` ends unless it recorded a `BrokenComment` |
| Parser.CaptureRecordsSteps | src/ast/parse/parser.rs:52-67 | with capture, the recorded comments are exactly the tokens `next(false)` hands out before the first non-comment, in that order, and the lexer ends on that token |
| Parser.CapturedInSourceOrder | src/ast/parse/parser.rs:52-67 | with capture, each recorded comment ends no later than the next one begins, and the last ends no later than the answered token begins |

## Left out

- Character classes are ASCII only. Rust's Unicode `is_alphabetic` is not modelled, so a non-ASCII letter does not start or continue a name.
- The `u32` fields (offset, line, column and the `line_offset` length) are unbounded naturals. Overflow after 2^32 characters is not modelled.
- `set_read_names` (lexer.rs:38-40) only sets a flag that none of the modelled code reads. It is not modelled.
- The `Lexeme` type, the AST node structs and the rest of the parser are not part of this model. Node payloads appear as their variant tags only.
- Lexer.ReadMinus: its contract states only that scanning moves forward. What it reads is stated by `LexerForms.ReadTokenMinus`, `LexerSymbols.MinusAlone`, `LexerSymbols.MinusPair` and `LexerForms.ReadTokenComment`.
- Lexer.ReadOpenBracket: its contract states only that scanning moves forward. What it reads is stated by `LexerForms.RawStringRoundTrip` and its neighbours.
- Lexer.ReadDot: its contract states only that scanning moves forward. What it reads is stated by the `LexerSymbols.Dot*` lemmas and `LexerProps.ReadTokenDotDigit`.
- Name.EqStr: `eq_str` is plain text equality, so it has no contract of its own.
- Name.Hash: the multiplication of src/ast/node/name.rs:43 is modelled as the wrapping `u32` multiplication of a release build (`bv32` arithmetic in `Name.Round`). The overflow panic of a debug build is not modelled.
- Parser.AddNames: for arbitrary texts, each earlier name is found again only when no later name shares its slot. For the parser's own four names the slots are computed (`Parser.ParserNameSlots`). The contract does not state the table's key set, only what is kept and what is found.
- Parser.New: with capture, the lexer's final position is stated as that of `next(true)` only when no `BrokenComment` was recorded. `next(true)` stops at a broken comment and answers it, while the capture loop records it and reads on.
- LexerProps.NameRoundTrip: stated for words of two or more characters, or a word that ends the input. A one-character word followed by another character is the second finding, stated by `LexerFindings.OneCharNameToken`.
- LexerProps.NumberRoundTrip: stated for numbers of two or more characters, or a number that ends the input, made of digits, `.` and `_` only. A number with an exponent marker or a letter suffix is stated by `LexerProps.NumberTailRoundTrip`. A one-digit number followed by another character is stated by `LexerFindings.OneDigitNumberToken`.
- LexerProps.NumberTailRoundTrip: stated for a leading run of two or more characters. With a one-character run, the code as written takes the next character before testing it, which is the number finding.
- LexerForms.LongCommentRoundTrip: stated for the level-0 form `--[` text `]]` that the code reads. A level of 1 or more is stated only at the end of input, by `LexerFindings.CommentLevelToken`. What the code reads from such a comment followed by more text is not stated.
- LexerForms.LineCommentRoundTrip: stated for a text that does not start with `[`. `--[` always opens a long comment, which is stated by `LexerForms.LongCommentUnclosed`.
- Lexer.ReadTokenCorrected: its contract states only where it agrees with `read_next`. What it reads from words, numbers and comments is stated by `LexerFindings.NameRoundTripCorrected`, `LexerFindings.NumberRoundTripCorrected` and `LexerFindings.LongCommentRoundTripCorrected`.
- LexType.ToString: the contract states the output for the kinds that carry text. The fixed names of the other kinds are given by its body and read back by `LexTypeText.ParseKindInvertsToString`. Which kinds print the same is stated by `LexTypeText.ToStringCollision`.

## Findings

| source | as written | input that shows it | evidently intended | confidence | as-written member | corrected member |
|---|---|---|---|---|---|---|
| src/ast/lexer.rs:250-251 | `read_comment_body` calls `skip_long_separator('[')` while the current character is still the first `[`, so the separator count is always 0 | `--[==[x]==]` at the end of input gives `BrokenComment`; `--[[x]]` gives `Comment("[x")` | consume the first `[` and then count the `=` signs, as `read_next` does for raw strings (lexer.rs:444-461), giving `Comment("x")` in both cases | not executed; follows from the code | LexerFindings.CommentLevelToken | LexerFindings.LongCommentRoundTripCorrected |
| src/ast/lexer.rs:278-296 | `read_name` pushes the current character before testing it, so the character after the first always joins the name | `x = 1` starts with `Name("x ")` | test the character before pushing it, giving `Name("x")` | not executed; the unit tests use only names of two or more characters | LexerFindings.OneCharNameToken | LexerFindings.NameRoundTripCorrected |
| src/ast/lexer.rs:201-216 | `read_number` pushes the current character before testing it, so the character after the first always joins the number | `1 + 2` starts with `Number("1 ")` | test the character before pushing it, giving `Number("1")` | not executed; the unit tests use only numbers of two or more characters | LexerFindings.OneDigitNumberToken | LexerFindings.NumberRoundTripCorrected |

`Lexer.ReadToken`, and so `Lexer.Next` and the parser, use the readers as
written (`Lexer.ReadNameAsWritten`, `Lexer.ReadNumberAsWritten`,
`Lexer.ReadCommentBodyAsWritten`). The corrected readers (`Lexer.ReadName`,
`Lexer.ReadNumber`, `Lexer.ReadCommentBody`) are used by the corrected
dispatch `Lexer.ReadTokenCorrected`, of which the corrected members above
are stated. `LexerProps.NameAsWrittenAgrees` and
`LexerProps.NumberAsWrittenAgrees` show that the two readings agree whenever
the character after the first one belongs to the token, and the examples
`LexerFindings.NameLookaheadExample`, `LexerFindings.NumberLookaheadExample`
and `LexerFindings.CommentLevelExample` give one input for each finding.
