/**
 * Reading a display string back: the kind each string `to_string` produces
 * names. `to_string` spells `RightRoundBracket` as `RightSquareBracket`, so
 * that string reads back as `RightSquareBracket`, and those two kinds are the
 * only ones that print alike.
 */
module LexTypeText {
  import opened Wrappers
  import opened LexType

  /** `s` starts with `tag` followed by a colon and a blank. */
  predicate Labelled(s: string, tag: string) {
    |tag| + 2 <= |s| && s[..|tag| + 2] == tag + ": "
  }

  /** The kind whose display string `s` is, if any: a payload kind by its label, or a payload-free kind by its name. */
  function ParseKind(s: string): Option<LexType> {
    if Labelled(s, "RawString") then Some(RawString(s[11..]))
    else if Labelled(s, "QuotedString") then Some(QuotedString(s[14..]))
    else if Labelled(s, "Number") then Some(Number(s[8..]))
    else if Labelled(s, "Name") then Some(Name(s[6..]))
    else if Labelled(s, "Comment") then Some(Comment(s[9..]))
    else FixedKind(s)
  }

  /** The payload-free kind named `s`, if any; the table is split by the length of the name. */
  function FixedKind(s: string): Option<LexType> {
    if |s| == 2 then KindOfLength2(s)
    else if |s| == 3 then KindOfLength3(s)
    else if |s| == 4 then KindOfLength4(s)
    else if |s| == 5 then KindOfLength5(s)
    else if |s| == 6 then KindOfLength6(s)
    else if |s| == 7 then KindOfLength7(s)
    else if |s| == 8 then KindOfLength8(s)
    else if |s| == 9 then KindOfLength9(s)
    else if |s| == 11 then KindOfLength11(s)
    else if |s| == 12 then KindOfLength12(s)
    else if |s| == 13 then KindOfLength13(s)
    else if |s| == 16 then KindOfLength16(s)
    else if |s| == 17 then KindOfLength17(s)
    else if |s| == 18 then KindOfLength18(s)
    else None
  }

  function KindOfLength2(s: string): Option<LexType>
    requires |s| == 2
  {
    match s
    case "Do" => Some(Do)
    case "If" => Some(If)
    case "In" => Some(In)
    case "Or" => Some(Or)
    case _ => None
  }

  function KindOfLength3(s: string): Option<LexType>
    requires |s| == 3
  {
    match s
    case "Eof" => Some(Eof)
    case "Dot" => Some(Dot)
    case "Add" => Some(Add)
    case "Sub" => Some(Sub)
    case "Mul" => Some(Mul)
    case "Div" => Some(Div)
    case "Mod" => Some(Mod)
    case "Pow" => Some(Pow)
    case "And" => Some(And)
    case "End" => Some(End)
    case "For" => Some(For)
    case "Nil" => Some(Nil)
    case "Not" => Some(Not)
    case _ => None
  }

  function KindOfLength4(s: string): Option<LexType>
    requires |s| == 4
  {
    match s
    case "Less" => Some(LexType.Less)
    case "Dot2" => Some(Dot2)
    case "Dot3" => Some(Dot3)
    case "Else" => Some(Else)
    case "Then" => Some(Then)
    case "True" => Some(True)
    case _ => None
  }

  function KindOfLength5(s: string): Option<LexType>
    requires |s| == 5
  {
    match s
    case "Equal" => Some(LexType.Equal)
    case "Colon" => Some(Colon)
    case "Comma" => Some(Comma)
    case "Sharp" => Some(Sharp)
    case "Error" => Some(Error)
    case "Begin" => Some(Begin)
    case "Break" => Some(Break)
    case "False" => Some(False)
    case "Local" => Some(Local)
    case "Until" => Some(Until)
    case "While" => Some(While)
    case _ => None
  }

  function KindOfLength6(s: string): Option<LexType>
    requires |s| == 6
  {
    match s
    case "Assign" => Some(Assign)
    case "Concat" => Some(Concat)
    case "ElseIf" => Some(ElseIf)
    case "Repeat" => Some(Repeat)
    case "Return" => Some(Return)
    case _ => None
  }

  function KindOfLength7(s: string): Option<LexType>
    requires |s| == 7
  {
    match s
    case "CharEnd" => Some(CharEnd)
    case "Greater" => Some(LexType.Greater)
    case _ => None
  }

  function KindOfLength8(s: string): Option<LexType>
    requires |s| == 8
  {
    match s
    case "NotEqual" => Some(NotEqual)
    case "Function" => Some(Function)
    case _ => None
  }

  function KindOfLength9(s: string): Option<LexType>
    requires |s| == 9
  {
    match s
    case "LessEqual" => Some(LessEqual)
    case "Semicolon" => Some(Semicolon)
    case "AddAssign" => Some(AddAssign)
    case "SubAssign" => Some(SubAssign)
    case "MulAssign" => Some(MulAssign)
    case "DivAssign" => Some(DivAssign)
    case "ModAssign" => Some(ModAssign)
    case "PowAssign" => Some(PowAssign)
    case _ => None
  }

  function KindOfLength11(s: string): Option<LexType>
    requires |s| == 11
  {
    match s
    case "SkinnyArrow" => Some(SkinnyArrow)
    case "DoubleColon" => Some(DoubleColon)
    case _ => None
  }

  function KindOfLength12(s: string): Option<LexType>
    requires |s| == 12
  {
    match s
    case "GreaterEqual" => Some(GreaterEqual)
    case "ConcatAssign" => Some(ConcatAssign)
    case "BlockComment" => Some(BlockComment)
    case "BrokenString" => Some(BrokenString)
    case _ => None
  }

  function KindOfLength13(s: string): Option<LexType>
    requires |s| == 13
  {
    match s
    case "BrokenComment" => Some(BrokenComment)
    case "BrokenUnicode" => Some(BrokenUnicode)
    case _ => None
  }

  function KindOfLength16(s: string): Option<LexType>
    requires |s| == 16
  {
    match s
    case "LeftRoundBracket" => Some(LeftRoundBracket)
    case "LeftCurlyBracket" => Some(LeftCurlyBracket)
    case _ => None
  }

  function KindOfLength17(s: string): Option<LexType>
    requires |s| == 17
  {
    match s
    case "LeftSquareBracket" => Some(LeftSquareBracket)
    case "RightCurlyBracket" => Some(RightCurlyBracket)
    case _ => None
  }

  function KindOfLength18(s: string): Option<LexType>
    requires |s| == 18
  {
    match s
    case "RightSquareBracket" => Some(RightSquareBracket)
    case _ => None
  }

  /** The kind whose name `to_string` prints for `t`: `t` itself, except that `RightRoundBracket` prints as `RightSquareBracket`. */
  function DisplayKind(t: LexType): LexType {
    if t.RightRoundBracket? then RightSquareBracket else t
  }

  // ---------------------------------------------------------------------------
  // Reading back what to_string prints
  // ---------------------------------------------------------------------------

  /** Every display string reads back as the kind it names. */
  lemma ParseKindInvertsToString(t: LexType)
    ensures ParseKind(ToString(t)) == Some(DisplayKind(t))
  {
    match t
    case Eof | CharEnd | Assign | Equal => TextFacts1(t);
    case Less | Greater | LessEqual => TextFacts2(t);
    case GreaterEqual | Colon => TextFacts3(t);
    case LeftSquareBracket => TextFacts4(t);
    case RightSquareBracket => TextFacts5(t);
    case LeftRoundBracket => TextFacts6(t);
    case RightRoundBracket => TextFacts7(t);
    case LeftCurlyBracket => TextFacts8(t);
    case RightCurlyBracket | Comma => TextFacts9(t);
    case Sharp | Semicolon | NotEqual => TextFacts10(t);
    case Dot | Dot2 | Dot3 | SkinnyArrow => TextFacts11(t);
    case DoubleColon | Add | Sub | Mul => TextFacts12(t);
    case Div | Mod | Pow | Concat => TextFacts13(t);
    case AddAssign | SubAssign => TextFacts14(t);
    case MulAssign | DivAssign => TextFacts15(t);
    case ModAssign | PowAssign => TextFacts16(t);
    case ConcatAssign => TextFacts17(t);
    case BlockComment => TextFacts18(t);
    case BrokenString => TextFacts19(t);
    case BrokenComment => TextFacts20(t);
    case BrokenUnicode | Error | Begin => TextFacts21(t);
    case And | Break | Do | Else | ElseIf => TextFacts22(t);
    case End | False | For | Function | If => TextFacts23(t);
    case In | Local | Nil | Not | Or => TextFacts24(t);
    case Repeat | Return | Then | True => TextFacts25(t);
    case Until | While => TextFacts26(t);
    case RawString(v) => RawStringReadsBack(v);
    case QuotedString(v) => QuotedStringReadsBack(v);
    case Number(v) => NumberReadsBack(v);
    case Name(v) => NameReadsBack(v);
    case Comment(v) => CommentReadsBack(v);
  }

  /** The payload-free kinds, a few at a time: each name has no colon and is found in the table for its length. */
  lemma TextFacts1(t: LexType)
    requires t.Eof? || t.CharEnd? || t.Assign? || t.Equal?
    ensures ParseKind(ToString(t)) == Some(DisplayKind(t))
  {
    match t
    case Eof => assert ToString(t) == "Eof";
    case CharEnd => assert ToString(t) == "CharEnd"; PlainName("CharEnd");
    case Assign => assert ToString(t) == "Assign"; PlainName("Assign");
    case Equal => assert ToString(t) == "Equal";
    case _ => assert false;
  }

  lemma TextFacts2(t: LexType)
    requires t.Less? || t.Greater? || t.LessEqual?
    ensures ParseKind(ToString(t)) == Some(DisplayKind(t))
  {
    match t
    case Less => assert ToString(t) == "Less";
    case Greater => assert ToString(t) == "Greater"; PlainName("Greater");
    case LessEqual => assert ToString(t) == "LessEqual"; PlainName("LessEqual");
    case _ => assert false;
  }

  lemma TextFacts3(t: LexType)
    requires t.GreaterEqual? || t.Colon?
    ensures ParseKind(ToString(t)) == Some(DisplayKind(t))
  {
    match t
    case GreaterEqual => assert ToString(t) == "GreaterEqual"; PlainName("GreaterEqual");
    case Colon => assert ToString(t) == "Colon";
    case _ => assert false;
  }

  lemma TextFacts4(t: LexType)
    requires t.LeftSquareBracket?
    ensures ParseKind(ToString(t)) == Some(DisplayKind(t))
  {
    match t
    case LeftSquareBracket => assert ToString(t) == "LeftSquareBracket"; PlainName("LeftSquareBracket");
    case _ => assert false;
  }

  lemma TextFacts5(t: LexType)
    requires t.RightSquareBracket?
    ensures ParseKind(ToString(t)) == Some(DisplayKind(t))
  {
    match t
    case RightSquareBracket => assert ToString(t) == "RightSquareBracket"; PlainName("RightSquareBracket");
    case _ => assert false;
  }

  lemma TextFacts6(t: LexType)
    requires t.LeftRoundBracket?
    ensures ParseKind(ToString(t)) == Some(DisplayKind(t))
  {
    match t
    case LeftRoundBracket => assert ToString(t) == "LeftRoundBracket"; PlainName("LeftRoundBracket");
    case _ => assert false;
  }

  lemma TextFacts7(t: LexType)
    requires t.RightRoundBracket?
    ensures ParseKind(ToString(t)) == Some(DisplayKind(t))
  {
    match t
    case RightRoundBracket => assert ToString(t) == "RightSquareBracket"; PlainName("RightSquareBracket");
    case _ => assert false;
  }

  lemma TextFacts8(t: LexType)
    requires t.LeftCurlyBracket?
    ensures ParseKind(ToString(t)) == Some(DisplayKind(t))
  {
    match t
    case LeftCurlyBracket => assert ToString(t) == "LeftCurlyBracket"; PlainName("LeftCurlyBracket");
    case _ => assert false;
  }

  lemma TextFacts9(t: LexType)
    requires t.RightCurlyBracket? || t.Comma?
    ensures ParseKind(ToString(t)) == Some(DisplayKind(t))
  {
    match t
    case RightCurlyBracket => assert ToString(t) == "RightCurlyBracket"; PlainName("RightCurlyBracket");
    case Comma => assert ToString(t) == "Comma";
    case _ => assert false;
  }

  lemma TextFacts10(t: LexType)
    requires t.Sharp? || t.Semicolon? || t.NotEqual?
    ensures ParseKind(ToString(t)) == Some(DisplayKind(t))
  {
    match t
    case Sharp => assert ToString(t) == "Sharp";
    case Semicolon => assert ToString(t) == "Semicolon"; PlainName("Semicolon");
    case NotEqual => assert ToString(t) == "NotEqual"; PlainName("NotEqual");
    case _ => assert false;
  }

  lemma TextFacts11(t: LexType)
    requires t.Dot? || t.Dot2? || t.Dot3? || t.SkinnyArrow?
    ensures ParseKind(ToString(t)) == Some(DisplayKind(t))
  {
    match t
    case Dot => assert ToString(t) == "Dot";
    case Dot2 => assert ToString(t) == "Dot2";
    case Dot3 => assert ToString(t) == "Dot3";
    case SkinnyArrow => assert ToString(t) == "SkinnyArrow"; PlainName("SkinnyArrow");
    case _ => assert false;
  }

  lemma TextFacts12(t: LexType)
    requires t.DoubleColon? || t.Add? || t.Sub? || t.Mul?
    ensures ParseKind(ToString(t)) == Some(DisplayKind(t))
  {
    match t
    case DoubleColon => assert ToString(t) == "DoubleColon"; PlainName("DoubleColon");
    case Add => assert ToString(t) == "Add";
    case Sub => assert ToString(t) == "Sub";
    case Mul => assert ToString(t) == "Mul";
    case _ => assert false;
  }

  lemma TextFacts13(t: LexType)
    requires t.Div? || t.Mod? || t.Pow? || t.Concat?
    ensures ParseKind(ToString(t)) == Some(DisplayKind(t))
  {
    match t
    case Div => assert ToString(t) == "Div";
    case Mod => assert ToString(t) == "Mod";
    case Pow => assert ToString(t) == "Pow";
    case Concat => assert ToString(t) == "Concat"; PlainName("Concat");
    case _ => assert false;
  }

  lemma TextFacts14(t: LexType)
    requires t.AddAssign? || t.SubAssign?
    ensures ParseKind(ToString(t)) == Some(DisplayKind(t))
  {
    match t
    case AddAssign => assert ToString(t) == "AddAssign"; PlainName("AddAssign");
    case SubAssign => assert ToString(t) == "SubAssign"; PlainName("SubAssign");
    case _ => assert false;
  }

  lemma TextFacts15(t: LexType)
    requires t.MulAssign? || t.DivAssign?
    ensures ParseKind(ToString(t)) == Some(DisplayKind(t))
  {
    match t
    case MulAssign => assert ToString(t) == "MulAssign"; PlainName("MulAssign");
    case DivAssign => assert ToString(t) == "DivAssign"; PlainName("DivAssign");
    case _ => assert false;
  }

  lemma TextFacts16(t: LexType)
    requires t.ModAssign? || t.PowAssign?
    ensures ParseKind(ToString(t)) == Some(DisplayKind(t))
  {
    match t
    case ModAssign => assert ToString(t) == "ModAssign"; PlainName("ModAssign");
    case PowAssign => assert ToString(t) == "PowAssign"; PlainName("PowAssign");
    case _ => assert false;
  }

  lemma TextFacts17(t: LexType)
    requires t.ConcatAssign?
    ensures ParseKind(ToString(t)) == Some(DisplayKind(t))
  {
    match t
    case ConcatAssign => assert ToString(t) == "ConcatAssign"; PlainName("ConcatAssign");
    case _ => assert false;
  }

  lemma TextFacts18(t: LexType)
    requires t.BlockComment?
    ensures ParseKind(ToString(t)) == Some(DisplayKind(t))
  {
    match t
    case BlockComment => assert ToString(t) == "BlockComment"; PlainName("BlockComment");
    case _ => assert false;
  }

  lemma TextFacts19(t: LexType)
    requires t.BrokenString?
    ensures ParseKind(ToString(t)) == Some(DisplayKind(t))
  {
    match t
    case BrokenString => assert ToString(t) == "BrokenString"; PlainName("BrokenString");
    case _ => assert false;
  }

  lemma TextFacts20(t: LexType)
    requires t.BrokenComment?
    ensures ParseKind(ToString(t)) == Some(DisplayKind(t))
  {
    match t
    case BrokenComment => assert ToString(t) == "BrokenComment"; PlainName("BrokenComment");
    case _ => assert false;
  }

  lemma TextFacts21(t: LexType)
    requires t.BrokenUnicode? || t.Error? || t.Begin?
    ensures ParseKind(ToString(t)) == Some(DisplayKind(t))
  {
    match t
    case BrokenUnicode => assert ToString(t) == "BrokenUnicode"; PlainName("BrokenUnicode");
    case Error => assert ToString(t) == "Error";
    case Begin => assert ToString(t) == "Begin";
    case _ => assert false;
  }

  lemma TextFacts22(t: LexType)
    requires t.And? || t.Break? || t.Do? || t.Else? || t.ElseIf?
    ensures ParseKind(ToString(t)) == Some(DisplayKind(t))
  {
    match t
    case And => assert ToString(t) == "And";
    case Break => assert ToString(t) == "Break";
    case Do => assert ToString(t) == "Do";
    case Else => assert ToString(t) == "Else";
    case ElseIf => assert ToString(t) == "ElseIf"; PlainName("ElseIf");
    case _ => assert false;
  }

  lemma TextFacts23(t: LexType)
    requires t.End? || t.False? || t.For? || t.Function? || t.If?
    ensures ParseKind(ToString(t)) == Some(DisplayKind(t))
  {
    match t
    case End => assert ToString(t) == "End";
    case False => assert ToString(t) == "False";
    case For => assert ToString(t) == "For";
    case Function => assert ToString(t) == "Function"; PlainName("Function");
    case If => assert ToString(t) == "If";
    case _ => assert false;
  }

  lemma TextFacts24(t: LexType)
    requires t.In? || t.Local? || t.Nil? || t.Not? || t.Or?
    ensures ParseKind(ToString(t)) == Some(DisplayKind(t))
  {
    match t
    case In => assert ToString(t) == "In";
    case Local => assert ToString(t) == "Local";
    case Nil => assert ToString(t) == "Nil";
    case Not => assert ToString(t) == "Not";
    case Or => assert ToString(t) == "Or";
    case _ => assert false;
  }

  lemma TextFacts25(t: LexType)
    requires t.Repeat? || t.Return? || t.Then? || t.True?
    ensures ParseKind(ToString(t)) == Some(DisplayKind(t))
  {
    match t
    case Repeat => assert ToString(t) == "Repeat"; PlainName("Repeat");
    case Return => assert ToString(t) == "Return"; PlainName("Return");
    case Then => assert ToString(t) == "Then";
    case True => assert ToString(t) == "True";
    case _ => assert false;
  }

  lemma TextFacts26(t: LexType)
    requires t.Until? || t.While?
    ensures ParseKind(ToString(t)) == Some(DisplayKind(t))
  {
    match t
    case Until => assert ToString(t) == "Until";
    case While => assert ToString(t) == "While";
    case _ => assert false;
  }

  lemma RawStringReadsBack(v: string)
    ensures ParseKind(ToString(RawString(v))) == Some(RawString(v))
  {
    var s := "RawString: " + v;
    assert s[..11] == "RawString: ";
    assert s[11..] == v;
  }

  lemma QuotedStringReadsBack(v: string)
    ensures ParseKind(ToString(QuotedString(v))) == Some(QuotedString(v))
  {
    var s := "QuotedString: " + v;
    assert s[..14] == "QuotedString: ";
    OtherTag(s, "RawString");
    assert s[14..] == v;
  }

  lemma NumberReadsBack(v: string)
    ensures ParseKind(ToString(Number(v))) == Some(Number(v))
  {
    var s := "Number: " + v;
    assert s[..8] == "Number: ";
    OtherTag(s, "RawString");
    OtherTag(s, "QuotedString");
    assert s[8..] == v;
  }

  lemma NameReadsBack(v: string)
    ensures ParseKind(ToString(Name(v))) == Some(Name(v))
  {
    var s := "Name: " + v;
    assert s[..6] == "Name: ";
    OtherTag(s, "RawString");
    OtherTag(s, "QuotedString");
    OtherTag(s, "Number");
    assert s[6..] == v;
  }

  lemma CommentReadsBack(v: string)
    ensures ParseKind(ToString(Comment(v))) == Some(Comment(v))
  {
    var s := "Comment: " + v;
    assert s[..9] == "Comment: ";
    OtherTag(s, "RawString");
    OtherTag(s, "QuotedString");
    OtherTag(s, "Number");
    OtherTag(s, "Name");
    assert s[9..] == v;
  }

  /** A string whose `k`-th character differs from the tag's is not labelled with it. */
  lemma NotLabelledAt(s: string, tag: string, k: nat)
    requires k < |tag| && k < |s| && s[k] != tag[k]
    ensures !Labelled(s, tag)
  {
    if |tag| + 2 <= |s| {
      assert s[..|tag| + 2][k] == s[k] && (tag + ": ")[k] == tag[k];
    }
  }

  /** The payload labels differ from one another in their first two characters. */
  lemma OtherTag(s: string, tag: string)
    requires |s| >= 2 && |tag| >= 2 && (s[0] != tag[0] || s[1] != tag[1])
    ensures !Labelled(s, tag)
  {
    if s[0] != tag[0] {
      NotLabelledAt(s, tag, 0);
    } else {
      NotLabelledAt(s, tag, 1);
    }
  }

  /** A name without a colon is read from the table of payload-free kinds. */
  lemma PlainName(s: string)
    requires forall k :: 0 <= k < |s| ==> s[k] != ':'
    ensures ParseKind(s) == FixedKind(s)
  {
    forall tag | |tag| < |s|
      ensures !Labelled(s, tag)
    {
      if |tag| + 2 <= |s| {
        assert s[..|tag| + 2][|tag|] == s[|tag|] && (tag + ": ")[|tag|] == ':';
      }
    }
  }

  // ---------------------------------------------------------------------------
  // Which kinds print alike
  // ---------------------------------------------------------------------------

  /**
   * Two kinds print the same string exactly when they are equal or are
   * `RightRoundBracket` and `RightSquareBracket`.
   */
  lemma ToStringCollision(a: LexType, b: LexType)
    ensures ToString(a) == ToString(b) <==>
            a == b || (a.RightRoundBracket? && b.RightSquareBracket?) || (a.RightSquareBracket? && b.RightRoundBracket?)
  {
    ParseKindInvertsToString(a);
    ParseKindInvertsToString(b);
  }
}
