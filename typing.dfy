/**
 * The static rules the analyzer enforces, stated over phrases rather than
 * tokens. A phrase's type is computed against a table that maps names to their
 * declared type and class; `None` means the phrase is rejected.
 *
 * The rules thread types the way the analyzer does: an operator chain passes
 * the type to its left into the rest of the chain, `/` turns it into float,
 * and a chain's own type is void when it is empty (void is a wildcard for
 * compatibility). The lemmas after the definitions characterise each rule in
 * closed form.
 */
module Typing {
  import opened Wrappers
  import opened TokenTypes
  import opened Semantic
  import opened Scope
  import opened Grammar

  // Operator and operand decisions.

  /** compatibleTypes: void matches anything, otherwise the types must agree. */
  predicate Compatible(t1: Type, t2: Type)
  {
    t1 == VoidType || t2 == VoidType || t1 == t2
  }

  /** `+` takes equal non-boolean operands, `-` equal numeric-or-void ones, `||` two booleans. */
  predicate AddOperands(op: AddOp, left: Type, right: Type)
  {
    left == right &&
    match op
    case Add => left != BooleanType
    case Sub => left != BooleanType && left != StringType
    case Or => left == BooleanType
  }

  /** `*` and `/` take equal operands that are neither boolean nor string, `&&` two booleans. */
  predicate MulOperands(op: MulOp, left: Type, right: Type)
  {
    left == right &&
    match op
    case Mul => left != BooleanType && left != StringType
    case Div => left != BooleanType && left != StringType
    case And => left == BooleanType
  }

  /** The type an accepted multiplicative operator passes on: float after `/`, otherwise its left type. */
  function MulResult(op: MulOp, left: Type): Type
  {
    if op == Div then FloatType else left
  }

  /** The ordering operators `<`, `>`, `<=`, `>=`. */
  predicate IsOrdering(op: RelOp)
  {
    op == Lower || op == Greater || op == LowerEqual || op == GreaterEqual
  }

  /** A name may be used as a value when it is declared and its class is variable. */
  predicate IsVariable(env: Table, x: string)
  {
    IsDeclared(env, x) && GetClass(env, x) == Some(Variable)
  }

  /** The types a constant, a variable or a comparison can have. */
  predicate Concrete(t: Type)
  {
    t == IntType || t == FloatType || t == StringType || t == BooleanType
  }

  /** Every variable of the table has one of the three declarable types. */
  predicate VariablesTyped(env: Table)
  {
    forall x :: x in env && IsVariable(env, x) ==>
      GetType(env, x).Some? && GetType(env, x).value in {IntType, FloatType, StringType}
  }

  // Phrase types.

  function FactorType(env: Table, f: Factor): Option<Type>
    decreases f
  {
    match f
    case Ident(x) => if IsVariable(env, x) then GetType(env, x) else None
    case IntLit(_) => Some(IntType)
    case StrLit(_) => Some(StringType)
    case RealLit(_) => Some(FloatType)
    case Paren(e) => ExprType(env, e)
  }

  function FactorAType(env: Table, a: FactorA): Option<Type>
    decreases a
  {
    match a
    case Plain(f) => FactorType(env, f)
    case LogicalNot(f) =>
      var t := FactorType(env, f);
      if t == Some(BooleanType) then t else None
    case UnaryMinus(f) =>
      var t := FactorType(env, f);
      if t == Some(FloatType) || t == Some(IntType) then t else None
  }

  /** A term's type: its chain's type, or its first operand's when the chain is void. */
  function TermType(env: Table, t: Term): Option<Type>
    decreases t
  {
    var a := FactorAType(env, t.first);
    if a.None? then None
    else
      var m := MulTailType(env, a.value, t.tail);
      if m.None? then None
      else if m.value == VoidType then a
      else m
  }

  /** The type of a multiplicative chain whose left operand has type `left`. */
  function MulTailType(env: Table, left: Type, m: MulTail): Option<Type>
    decreases m
  {
    match m
    case MulEnd => Some(VoidType)
    case MulMore(op, a, rest) =>
      var t := FactorAType(env, a);
      if t.None? || !MulOperands(op, left, t.value) then None
      else
        var r := MulResult(op, left);
        var tail := MulTailType(env, r, rest);
        if tail.None? then None
        else if op == And then
          (if r == BooleanType && (tail.value == BooleanType || tail.value == VoidType) then Some(BooleanType) else None)
        else if Compatible(r, tail.value) then Some(r)
        else None
  }

  /** A simple expression's type: its first term's, provided the chain is compatible with it. */
  function SimpleExprType(env: Table, e: SimpleExpr): Option<Type>
    decreases e
  {
    var t := TermType(env, e.first);
    if t.None? then None
    else
      var a := AddTailType(env, t.value, e.tail);
      if a.Some? && Compatible(t.value, a.value) then t else None
  }

  /** The type of an additive chain whose left operand has type `left`. */
  function AddTailType(env: Table, left: Type, m: AddTail): Option<Type>
    decreases m
  {
    match m
    case AddEnd => Some(VoidType)
    case AddMore(op, t, rest) =>
      var tt := TermType(env, t);
      if tt.None? || !AddOperands(op, left, tt.value) then None
      else
        var tail := AddTailType(env, left, rest);
        if tail.Some? && Compatible(left, tail.value) then Some(left) else None
  }

  /** An expression's type: a comparison is boolean when both sides agree. */
  function ExprType(env: Table, e: Expr): Option<Type>
    decreases e
  {
    var s := SimpleExprType(env, e.left);
    var r := RelTailType(env, e.rel);
    if s.None? || r.None? then None
    else if r.value == VoidType then s
    else if s.value == r.value then Some(BooleanType)
    else None
  }

  /** The right-hand side's type after a relational operator (void when there is none). */
  function RelTailType(env: Table, r: RelTail): Option<Type>
    decreases r
  {
    match r
    case NoRel => Some(VoidType)
    case Rel(op, right) =>
      var t := SimpleExprType(env, right);
      if t.None? then None
      else if IsOrdering(op) && (t.value == StringType || t.value == BooleanType) then None
      else t
  }

  // Statements.

  predicate StmtOk(env: Table, s: Stmt)
    decreases s
  {
    match s
    case AssignStmt(x, e) =>
      IsVariable(env, x) && GetType(env, x).Some? && SimpleExprType(env, e) == GetType(env, x)
    case IfStmt(c, t, e) =>
      ExprType(env, c) == Some(BooleanType) && StmtsOk(env, t) && StmtsOk(env, e)
    case DoStmt(b, c) => StmtsOk(env, b) && ExprType(env, c) == Some(BooleanType)
    case ReadStmt(x) => IsVariable(env, x)
    case WriteStmt(e) => SimpleExprType(env, e).Some?
  }

  predicate StmtsOk(env: Table, ss: seq<Stmt>)
    decreases ss
  {
    forall i :: 0 <= i < |ss| ==> StmtOk(env, ss[i])
  }

  // Declarations.

  /** The row a declaration writes: both columns filled. */
  function Declare(env: Table, x: string, t: Type, c: Class): Table
  {
    env[x := Row(Some(t), Some(c))]
  }

  /** type(): the type a type keyword stands for. */
  function KeywordType(k: TypeKeyword): Type
  {
    match k
    case Int => IntType
    case Float => FloatType
    case String => StringType
  }

  /** Declares the names in order as variables of type `t`; a name already declared is rejected. */
  function DeclareNames(env: Table, names: seq<string>, t: Type): Option<Table>
    decreases names
  {
    if names == [] then Some(env)
    else if IsDeclared(env, names[0]) then None
    else DeclareNames(Declare(env, names[0], t, Variable), names[1..], t)
  }

  function DeclsEnv(env: Table, ds: seq<Decl>): Option<Table>
    decreases ds
  {
    if ds == [] then Some(env)
    else
      match DeclareNames(env, [ds[0].first] + ds[0].more, KeywordType(ds[0].ty))
      case None => None
      case Some(e) => DeclsEnv(e, ds[1..])
  }

  /** The table the body is checked against: the class name, then every declared variable. */
  function ProgramEnv(p: Program): Option<Table>
  {
    DeclsEnv(Declare(map[], p.name, VoidType, ClassName), p.decls)
  }

  /** A program is accepted when its declarations are unique and its body is well typed. */
  predicate ProgramOk(p: Program)
  {
    ProgramEnv(p).Some? && WellFormedStmts(p.body) && StmtsOk(ProgramEnv(p).value, p.body)
  }
}
