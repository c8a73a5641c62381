/**
 * The AST node payload, reduced to its variant tags, and the three
 * classifiers that sort a payload into expressions, statements and types.
 */
module Node {

  /**
   * The variant tag of an AST node payload, in declaration order: 18
   * expression, 20 statement, 9 type and 3 type-pack variants.
   */
  datatype PayloadKind =
    | ExprGroup
    | ExprConstantNil
    | ExprConstantBool
    | ExprConstantNumber
    | ExprConstantString
    | ExprLocal
    | ExprGlobal
    | ExprVarargs
    | ExprCall
    | ExprIndexName
    | ExprIndexExpr
    | ExprBinary
    | ExprFunction
    | ExprIfElse
    | ExprTable
    | ExprTypeAssertion
    | ExprUnary
    | ExprError
    | StatAssign
    | StatBlock
    | StatCompoundAssign
    | StatDeclareClass
    | StatDeclareFunction
    | StatDeclareGlobal
    | StatExpr
    | StatForIn
    | StatFunction
    | StatLocal
    | StatLocalFunction
    | StatBreak
    | StatContinue
    | StatFor
    | StatIf
    | StatRepeat
    | StatReturn
    | StatWhile
    | StatTypeAlias
    | StatError
    | TypeError
    | TypeFunction
    | TypeIntersection
    | TypeReference
    | TypeSingletonBool
    | TypeSingletonString
    | TypeTable
    | TypeTypeof
    | TypeUnion
    | TypePackExplicit
    | TypePackGeneric
    | TypePackVariadic

  /** The family a variant is declared in, read off its position in the declaration. */
  datatype Family = ExprFamily | StatFamily | TypeFamily | TypePackFamily

  function FamilyOf(p: PayloadKind): Family {
    match p
    case ExprGroup | ExprConstantNil | ExprConstantBool | ExprConstantNumber |
         ExprConstantString | ExprLocal | ExprGlobal | ExprVarargs | ExprCall | ExprIndexName |
         ExprIndexExpr | ExprBinary | ExprFunction | ExprIfElse | ExprTable |
         ExprTypeAssertion | ExprUnary | ExprError => ExprFamily
    case StatAssign | StatBlock | StatCompoundAssign | StatDeclareClass | StatDeclareFunction |
         StatDeclareGlobal | StatExpr | StatForIn | StatFunction | StatLocal |
         StatLocalFunction | StatBreak | StatContinue | StatFor | StatIf | StatRepeat |
         StatReturn | StatWhile | StatTypeAlias | StatError => StatFamily
    case TypeError | TypeFunction | TypeIntersection | TypeReference | TypeSingletonBool |
         TypeSingletonString | TypeTable | TypeTypeof | TypeUnion => TypeFamily
    case TypePackExplicit | TypePackGeneric | TypePackVariadic => TypePackFamily
  }

  /** `is_expr`: the 17 expression variants it lists. */
  predicate IsExpr(p: PayloadKind) {
    match p
    case ExprError | ExprGroup | ExprConstantNil | ExprConstantBool | ExprConstantNumber |
         ExprLocal | ExprGlobal | ExprVarargs | ExprCall | ExprIndexName | ExprIndexExpr |
         ExprBinary | ExprFunction | ExprIfElse | ExprTable | ExprTypeAssertion |
         ExprUnary => true
    case _ => false
  }

  /** `is_stat`: the 19 statement variants it lists, plus `ExprError`. */
  predicate IsStat(p: PayloadKind) {
    match p
    case StatAssign | StatBlock | StatCompoundAssign | StatDeclareClass | StatDeclareFunction |
         StatDeclareGlobal | StatExpr | StatForIn | StatFunction | StatLocal |
         StatLocalFunction | StatBreak | StatContinue | StatFor | StatIf | StatRepeat |
         StatReturn | StatWhile | StatTypeAlias | ExprError => true
    case _ => false
  }

  /** `is_type`: the 9 type variants. */
  predicate IsType(p: PayloadKind) {
    match p
    case TypeError | TypeFunction | TypeIntersection | TypeReference | TypeSingletonBool |
         TypeSingletonString | TypeTable | TypeTypeof | TypeUnion => true
    case _ => false
  }

  // ---------------------------------------------------------------------------
  // Properties
  // ---------------------------------------------------------------------------

  /** `is_expr` holds for every expression variant except `ExprConstantString`, and for nothing else. */
  lemma IsExprByFamily(p: PayloadKind)
    ensures IsExpr(p) <==> FamilyOf(p) == ExprFamily && p != ExprConstantString
  {
  }

  /** `is_stat` holds for every statement variant except `StatError`, and otherwise only for `ExprError`. */
  lemma IsStatByFamily(p: PayloadKind)
    ensures IsStat(p) <==> (FamilyOf(p) == StatFamily && p != StatError) || p == ExprError
  {
  }

  /** `is_type` holds exactly for the type variants, never for a type-pack variant. */
  lemma IsTypeByFamily(p: PayloadKind)
    ensures IsType(p) <==> FamilyOf(p) == TypeFamily
  {
  }

  /** The classifiers overlap only in `ExprError`, and `is_type` overlaps neither of the others. */
  lemma ClassifierOverlap(p: PayloadKind)
    ensures !(IsType(p) && IsExpr(p)) && !(IsType(p) && IsStat(p))
    ensures IsExpr(p) && IsStat(p) <==> p == ExprError
  {
  }

  /** Exactly five variants are unclassified: `ExprConstantString`, `StatError` and the three type packs. */
  lemma Unclassified(p: PayloadKind)
    ensures !IsExpr(p) && !IsStat(p) && !IsType(p) <==>
            p == ExprConstantString || p == StatError || FamilyOf(p) == TypePackFamily
  {
  }
}
