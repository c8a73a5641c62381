/**
 * The closed set of token kinds, their dense numeric codes and their
 * display strings.
 */
module LexType {

  /**
   * A token kind. Literal-bearing kinds carry their text; the `Broken*` kinds
   * stand for malformed input the lexer degraded to instead of failing.
   */
  datatype LexType =
    | Eof
    | CharEnd
    | Assign
    | Equal
    | Less
    | Greater
    | LessEqual
    | GreaterEqual
    | Colon
    | LeftSquareBracket
    | RightSquareBracket
    | LeftRoundBracket
    | RightRoundBracket
    | LeftCurlyBracket
    | RightCurlyBracket
    | Comma
    | Sharp
    | Semicolon
    | NotEqual
    | Dot
    | Dot2
    | Dot3
    | SkinnyArrow
    | DoubleColon
    | Add
    | Sub
    | Mul
    | Div
    | Mod
    | Pow
    | Concat
    | AddAssign
    | SubAssign
    | MulAssign
    | DivAssign
    | ModAssign
    | PowAssign
    | ConcatAssign
    | RawString(val: string)
    | QuotedString(val: string)
    | Number(val: string)
    | Name(val: string)
    | Comment(val: string)
    | BlockComment
    | BrokenString
    | BrokenComment
    | BrokenUnicode
    | Error
    | Begin
    | And
    | Break
    | Do
    | Else
    | ElseIf
    | End
    | False
    | For
    | Function
    | If
    | In
    | Local
    | Nil
    | Not
    | Or
    | Repeat
    | Return
    | Then
    | True
    | Until
    | While

  /** The number of token kinds; `Code` maps onto `[0, Count())`. */
  function Count(): int { 70 }

  /** The dense numeric code of a kind; the payload of a literal kind is ignored. */
  function Code(t: LexType): (r: int)
    ensures 0 <= r < Count()
  {
    match t
    case Eof => 0
    case CharEnd => 1
    case Assign => 2
    case Equal => 3
    case Less => 4
    case Greater => 5
    case LessEqual => 6
    case GreaterEqual => 7
    case Colon => 8
    case LeftSquareBracket => 9
    case RightSquareBracket => 10
    case LeftRoundBracket => 11
    case RightRoundBracket => 12
    case LeftCurlyBracket => 13
    case RightCurlyBracket => 14
    case Comma => 15
    case Sharp => 16
    case Semicolon => 17
    case NotEqual => 18
    case Dot => 19
    case Dot2 => 20
    case Dot3 => 21
    case SkinnyArrow => 22
    case DoubleColon => 23
    case Add => 24
    case Sub => 25
    case Mul => 26
    case Div => 27
    case Mod => 28
    case Pow => 29
    case Concat => 30
    case AddAssign => 31
    case SubAssign => 32
    case MulAssign => 33
    case DivAssign => 34
    case ModAssign => 35
    case PowAssign => 36
    case ConcatAssign => 37
    case RawString(_) => 38
    case QuotedString(_) => 39
    case Number(_) => 40
    case Name(_) => 41
    case Comment(_) => 42
    case BlockComment => 43
    case BrokenString => 44
    case BrokenComment => 45
    case BrokenUnicode => 46
    case Error => 47
    case Begin => 48
    case And => 49
    case Break => 50
    case Do => 51
    case Else => 52
    case ElseIf => 53
    case End => 54
    case False => 55
    case For => 56
    case Function => 57
    case If => 58
    case In => 59
    case Local => 60
    case Nil => 61
    case Not => 62
    case Or => 63
    case Repeat => 64
    case Return => 65
    case Then => 66
    case True => 67
    case Until => 68
    case While => 69
  }

  /** The kind with every literal payload replaced by the empty string. */
  function Erase(t: LexType): (r: LexType)
    ensures Code(r) == Code(t)
  {
    match t
    case RawString(_) => RawString("")
    case QuotedString(_) => QuotedString("")
    case Number(_) => Number("")
    case Name(_) => Name("")
    case Comment(_) => Comment("")
    case _ => t
  }

  /** The inverse of `Code`: the kind with code `k`, literal payloads left empty. */
  function FromCode(k: int): LexType
    requires 0 <= k < Count()
  {
    match k
    case 0 => Eof
    case 1 => CharEnd
    case 2 => Assign
    case 3 => Equal
    case 4 => Less
    case 5 => Greater
    case 6 => LessEqual
    case 7 => GreaterEqual
    case 8 => Colon
    case 9 => LeftSquareBracket
    case 10 => RightSquareBracket
    case 11 => LeftRoundBracket
    case 12 => RightRoundBracket
    case 13 => LeftCurlyBracket
    case 14 => RightCurlyBracket
    case 15 => Comma
    case 16 => Sharp
    case 17 => Semicolon
    case 18 => NotEqual
    case 19 => Dot
    case 20 => Dot2
    case 21 => Dot3
    case 22 => SkinnyArrow
    case 23 => DoubleColon
    case 24 => Add
    case 25 => Sub
    case 26 => Mul
    case 27 => Div
    case 28 => Mod
    case 29 => Pow
    case 30 => Concat
    case 31 => AddAssign
    case 32 => SubAssign
    case 33 => MulAssign
    case 34 => DivAssign
    case 35 => ModAssign
    case 36 => PowAssign
    case 37 => ConcatAssign
    case 38 => RawString("")
    case 39 => QuotedString("")
    case 40 => Number("")
    case 41 => Name("")
    case 42 => Comment("")
    case 43 => BlockComment
    case 44 => BrokenString
    case 45 => BrokenComment
    case 46 => BrokenUnicode
    case 47 => Error
    case 48 => Begin
    case 49 => And
    case 50 => Break
    case 51 => Do
    case 52 => Else
    case 53 => ElseIf
    case 54 => End
    case 55 => False
    case 56 => For
    case 57 => Function
    case 58 => If
    case 59 => In
    case 60 => Local
    case 61 => Nil
    case 62 => Not
    case 63 => Or
    case 64 => Repeat
    case 65 => Return
    case 66 => Then
    case 67 => True
    case 68 => Until
    case 69 => While
    case _ => Eof
  }

  /** Reserved-word kinds: `Begin` through `While`. */
  predicate IsKeyword(t: LexType) {
    match t
    case Begin | And | Break | Do | Else | ElseIf | End | False | For | Function | If | In | Local | Nil | Not | Or | Repeat | Return | Then | True | Until | While => true
    case _ => false
  }

  /** The display string of a kind, as `to_string` produces it. */
  function ToString(t: LexType): (r: string)
    ensures t.RawString? ==> r == "RawString: " + t.val
    ensures t.QuotedString? ==> r == "QuotedString: " + t.val
    ensures t.Number? ==> r == "Number: " + t.val
    ensures t.Name? ==> r == "Name: " + t.val
    ensures t.Comment? ==> r == "Comment: " + t.val
  {
    match t
    case Eof => "Eof"
    case CharEnd => "CharEnd"
    case Assign => "Assign"
    case Equal => "Equal"
    case Less => "Less"
    case Greater => "Greater"
    case LessEqual => "LessEqual"
    case GreaterEqual => "GreaterEqual"
    case Colon => "Colon"
    case LeftSquareBracket => "LeftSquareBracket"
    case RightSquareBracket => "RightSquareBracket"
    case LeftRoundBracket => "LeftRoundBracket"
    case RightRoundBracket => "RightSquareBracket"
    case LeftCurlyBracket => "LeftCurlyBracket"
    case RightCurlyBracket => "RightCurlyBracket"
    case Comma => "Comma"
    case Sharp => "Sharp"
    case Semicolon => "Semicolon"
    case NotEqual => "NotEqual"
    case Dot => "Dot"
    case Dot2 => "Dot2"
    case Dot3 => "Dot3"
    case SkinnyArrow => "SkinnyArrow"
    case DoubleColon => "DoubleColon"
    case Add => "Add"
    case Sub => "Sub"
    case Mul => "Mul"
    case Div => "Div"
    case Mod => "Mod"
    case Pow => "Pow"
    case Concat => "Concat"
    case AddAssign => "AddAssign"
    case SubAssign => "SubAssign"
    case MulAssign => "MulAssign"
    case DivAssign => "DivAssign"
    case ModAssign => "ModAssign"
    case PowAssign => "PowAssign"
    case ConcatAssign => "ConcatAssign"
    case RawString(val) => "RawString: " + val
    case QuotedString(val) => "QuotedString: " + val
    case Number(val) => "Number: " + val
    case Name(val) => "Name: " + val
    case Comment(val) => "Comment: " + val
    case BlockComment => "BlockComment"
    case BrokenString => "BrokenString"
    case BrokenComment => "BrokenComment"
    case BrokenUnicode => "BrokenUnicode"
    case Error => "Error"
    case Begin => "Begin"
    case And => "And"
    case Break => "Break"
    case Do => "Do"
    case Else => "Else"
    case ElseIf => "ElseIf"
    case End => "End"
    case False => "False"
    case For => "For"
    case Function => "Function"
    case If => "If"
    case In => "In"
    case Local => "Local"
    case Nil => "Nil"
    case Not => "Not"
    case Or => "Or"
    case Repeat => "Repeat"
    case Return => "Return"
    case Then => "Then"
    case True => "True"
    case Until => "Until"
    case While => "While"
  }

  // ---------------------------------------------------------------------------
  // Properties of the code map
  // ---------------------------------------------------------------------------

  /** `FromCode` inverts `Code` up to payloads, and the keyword kinds are the codes 48..69. */
  lemma FromCodeInvertsCode(t: LexType)
    ensures FromCode(Code(t)) == Erase(t)
    ensures IsKeyword(t) <==> 48 <= Code(t) <= 69
  {
    match t
    case Eof | CharEnd | Assign | Equal | Less | Greater | LessEqual => CodeFacts1(t);
    case GreaterEqual | Colon | LeftSquareBracket | RightSquareBracket | LeftRoundBracket | RightRoundBracket | LeftCurlyBracket => CodeFacts2(t);
    case RightCurlyBracket | Comma | Sharp | Semicolon | NotEqual | Dot | Dot2 => CodeFacts3(t);
    case Dot3 | SkinnyArrow | DoubleColon | Add | Sub | Mul | Div => CodeFacts4(t);
    case Mod | Pow | Concat | AddAssign | SubAssign | MulAssign | DivAssign => CodeFacts5(t);
    case ModAssign | PowAssign | ConcatAssign | RawString(_) | QuotedString(_) | Number(_) | Name(_) => CodeFacts6(t);
    case Comment(_) | BlockComment | BrokenString | BrokenComment | BrokenUnicode | Error | Begin => CodeFacts7(t);
    case And | Break | Do | Else | ElseIf | End | False => CodeFacts8(t);
    case For | Function | If | In | Local | Nil | Not => CodeFacts9(t);
    case Or | Repeat | Return | Then | True | Until | While => CodeFacts10(t);
  }

  /** The codes 0 to 6, one kind at a time. */
  lemma CodeFacts1(t: LexType)
    requires t.Eof? || t.CharEnd? || t.Assign? || t.Equal? || t.Less? || t.Greater? || t.LessEqual?
    ensures FromCode(Code(t)) == Erase(t)
    ensures IsKeyword(t) <==> 48 <= Code(t) <= 69
  {
    match t
    case Eof => assert Code(t) == 0;
    case CharEnd => assert Code(t) == 1;
    case Assign => assert Code(t) == 2;
    case Equal => assert Code(t) == 3;
    case Less => assert Code(t) == 4;
    case Greater => assert Code(t) == 5;
    case LessEqual => assert Code(t) == 6;
    case _ => assert false;
  }

  /** The codes 7 to 13, one kind at a time. */
  lemma CodeFacts2(t: LexType)
    requires t.GreaterEqual? || t.Colon? || t.LeftSquareBracket? || t.RightSquareBracket? || t.LeftRoundBracket? || t.RightRoundBracket? || t.LeftCurlyBracket?
    ensures FromCode(Code(t)) == Erase(t)
    ensures IsKeyword(t) <==> 48 <= Code(t) <= 69
  {
    match t
    case GreaterEqual => assert Code(t) == 7;
    case Colon => assert Code(t) == 8;
    case LeftSquareBracket => assert Code(t) == 9;
    case RightSquareBracket => assert Code(t) == 10;
    case LeftRoundBracket => assert Code(t) == 11;
    case RightRoundBracket => assert Code(t) == 12;
    case LeftCurlyBracket => assert Code(t) == 13;
    case _ => assert false;
  }

  /** The codes 14 to 20, one kind at a time. */
  lemma CodeFacts3(t: LexType)
    requires t.RightCurlyBracket? || t.Comma? || t.Sharp? || t.Semicolon? || t.NotEqual? || t.Dot? || t.Dot2?
    ensures FromCode(Code(t)) == Erase(t)
    ensures IsKeyword(t) <==> 48 <= Code(t) <= 69
  {
    match t
    case RightCurlyBracket => assert Code(t) == 14;
    case Comma => assert Code(t) == 15;
    case Sharp => assert Code(t) == 16;
    case Semicolon => assert Code(t) == 17;
    case NotEqual => assert Code(t) == 18;
    case Dot => assert Code(t) == 19;
    case Dot2 => assert Code(t) == 20;
    case _ => assert false;
  }

  /** The codes 21 to 27, one kind at a time. */
  lemma CodeFacts4(t: LexType)
    requires t.Dot3? || t.SkinnyArrow? || t.DoubleColon? || t.Add? || t.Sub? || t.Mul? || t.Div?
    ensures FromCode(Code(t)) == Erase(t)
    ensures IsKeyword(t) <==> 48 <= Code(t) <= 69
  {
    match t
    case Dot3 => assert Code(t) == 21;
    case SkinnyArrow => assert Code(t) == 22;
    case DoubleColon => assert Code(t) == 23;
    case Add => assert Code(t) == 24;
    case Sub => assert Code(t) == 25;
    case Mul => assert Code(t) == 26;
    case Div => assert Code(t) == 27;
    case _ => assert false;
  }

  /** The codes 28 to 34, one kind at a time. */
  lemma CodeFacts5(t: LexType)
    requires t.Mod? || t.Pow? || t.Concat? || t.AddAssign? || t.SubAssign? || t.MulAssign? || t.DivAssign?
    ensures FromCode(Code(t)) == Erase(t)
    ensures IsKeyword(t) <==> 48 <= Code(t) <= 69
  {
    match t
    case Mod => assert Code(t) == 28;
    case Pow => assert Code(t) == 29;
    case Concat => assert Code(t) == 30;
    case AddAssign => assert Code(t) == 31;
    case SubAssign => assert Code(t) == 32;
    case MulAssign => assert Code(t) == 33;
    case DivAssign => assert Code(t) == 34;
    case _ => assert false;
  }

  /** The codes 35 to 41, one kind at a time. */
  lemma CodeFacts6(t: LexType)
    requires t.ModAssign? || t.PowAssign? || t.ConcatAssign? || t.RawString? || t.QuotedString? || t.Number? || t.Name?
    ensures FromCode(Code(t)) == Erase(t)
    ensures IsKeyword(t) <==> 48 <= Code(t) <= 69
  {
    match t
    case ModAssign => assert Code(t) == 35;
    case PowAssign => assert Code(t) == 36;
    case ConcatAssign => assert Code(t) == 37;
    case RawString(_) => assert Code(t) == 38;
    case QuotedString(_) => assert Code(t) == 39;
    case Number(_) => assert Code(t) == 40;
    case Name(_) => assert Code(t) == 41;
    case _ => assert false;
  }

  /** The codes 42 to 48, one kind at a time. */
  lemma CodeFacts7(t: LexType)
    requires t.Comment? || t.BlockComment? || t.BrokenString? || t.BrokenComment? || t.BrokenUnicode? || t.Error? || t.Begin?
    ensures FromCode(Code(t)) == Erase(t)
    ensures IsKeyword(t) <==> 48 <= Code(t) <= 69
  {
    match t
    case Comment(_) => assert Code(t) == 42;
    case BlockComment => assert Code(t) == 43;
    case BrokenString => assert Code(t) == 44;
    case BrokenComment => assert Code(t) == 45;
    case BrokenUnicode => assert Code(t) == 46;
    case Error => assert Code(t) == 47;
    case Begin => assert Code(t) == 48;
    case _ => assert false;
  }

  /** The codes 49 to 55, one kind at a time. */
  lemma CodeFacts8(t: LexType)
    requires t.And? || t.Break? || t.Do? || t.Else? || t.ElseIf? || t.End? || t.False?
    ensures FromCode(Code(t)) == Erase(t)
    ensures IsKeyword(t) <==> 48 <= Code(t) <= 69
  {
    match t
    case And => assert Code(t) == 49;
    case Break => assert Code(t) == 50;
    case Do => assert Code(t) == 51;
    case Else => assert Code(t) == 52;
    case ElseIf => assert Code(t) == 53;
    case End => assert Code(t) == 54;
    case False => assert Code(t) == 55;
    case _ => assert false;
  }

  /** The codes 56 to 62, one kind at a time. */
  lemma CodeFacts9(t: LexType)
    requires t.For? || t.Function? || t.If? || t.In? || t.Local? || t.Nil? || t.Not?
    ensures FromCode(Code(t)) == Erase(t)
    ensures IsKeyword(t) <==> 48 <= Code(t) <= 69
  {
    match t
    case For => assert Code(t) == 56;
    case Function => assert Code(t) == 57;
    case If => assert Code(t) == 58;
    case In => assert Code(t) == 59;
    case Local => assert Code(t) == 60;
    case Nil => assert Code(t) == 61;
    case Not => assert Code(t) == 62;
    case _ => assert false;
  }

  /** The codes 63 to 69, one kind at a time. */
  lemma CodeFacts10(t: LexType)
    requires t.Or? || t.Repeat? || t.Return? || t.Then? || t.True? || t.Until? || t.While?
    ensures FromCode(Code(t)) == Erase(t)
    ensures IsKeyword(t) <==> 48 <= Code(t) <= 69
  {
    match t
    case Or => assert Code(t) == 63;
    case Repeat => assert Code(t) == 64;
    case Return => assert Code(t) == 65;
    case Then => assert Code(t) == 66;
    case True => assert Code(t) == 67;
    case Until => assert Code(t) == 68;
    case While => assert Code(t) == 69;
    case _ => assert false;
  }

  /** Every code in range is the code of the kind `FromCode` lists for it. */
  lemma CodeOfFromCode(k: int)
    requires 0 <= k < Count()
    ensures Code(FromCode(k)) == k
  {
    if k < 7 {
      CodeOfFromCode1(k);
    } else if k < 14 {
      CodeOfFromCode2(k);
    } else if k < 21 {
      CodeOfFromCode3(k);
    } else if k < 28 {
      CodeOfFromCode4(k);
    } else if k < 35 {
      CodeOfFromCode5(k);
    } else if k < 42 {
      CodeOfFromCode6(k);
    } else if k < 49 {
      CodeOfFromCode7(k);
    } else if k < 56 {
      CodeOfFromCode8(k);
    } else if k < 63 {
      CodeOfFromCode9(k);
    } else {
      CodeOfFromCode10(k);
    }
  }

  lemma CodeOfFromCode1(k: int)
    requires 0 <= k < 7
    ensures Code(FromCode(k)) == k
  {
  }

  lemma CodeOfFromCode2(k: int)
    requires 7 <= k < 14
    ensures Code(FromCode(k)) == k
  {
  }

  lemma CodeOfFromCode3(k: int)
    requires 14 <= k < 21
    ensures Code(FromCode(k)) == k
  {
  }

  lemma CodeOfFromCode4(k: int)
    requires 21 <= k < 28
    ensures Code(FromCode(k)) == k
  {
  }

  lemma CodeOfFromCode5(k: int)
    requires 28 <= k < 35
    ensures Code(FromCode(k)) == k
  {
  }

  lemma CodeOfFromCode6(k: int)
    requires 35 <= k < 42
    ensures Code(FromCode(k)) == k
  {
  }

  lemma CodeOfFromCode7(k: int)
    requires 42 <= k < 49
    ensures Code(FromCode(k)) == k
  {
  }

  lemma CodeOfFromCode8(k: int)
    requires 49 <= k < 56
    ensures Code(FromCode(k)) == k
  {
  }

  lemma CodeOfFromCode9(k: int)
    requires 56 <= k < 63
    ensures Code(FromCode(k)) == k
  {
  }

  lemma CodeOfFromCode10(k: int)
    requires 63 <= k < 70
    ensures Code(FromCode(k)) == k
  {
  }

  /**
   * `Code` is injective on variant tags: two kinds share a code exactly when
   * they differ at most in their payload.
   */
  lemma CodeInjective(a: LexType, b: LexType)
    ensures Code(a) == Code(b) <==> Erase(a) == Erase(b)
  {
    FromCodeInvertsCode(a);
    FromCodeInvertsCode(b);
  }

  /** `Code` is onto `[0, Count())`. */
  lemma CodeOnto(k: int)
    requires 0 <= k < Count()
    ensures exists t :: Code(t) == k
  {
    CodeOfFromCode(k);
  }

  /** End of input has code 0 and the keyword codes run from `Begin` (48) to `While` (69) of 70. */
  lemma CodeLandmarks()
    ensures Code(Eof) == 0
    ensures Code(Begin) == 48 && Code(While) == 69 && Count() == 70
  {
  }

  /** `to_string` is not injective: two bracket kinds print the same text. */
  lemma ToStringNotInjective()
    ensures RightRoundBracket != RightSquareBracket
    ensures ToString(RightRoundBracket) == ToString(RightSquareBracket) == "RightSquareBracket"
  {
  }
}
