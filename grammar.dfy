/**
 * The phrase structure the analyzer recognises, one datatype per nonterminal
 * of its LL(1) grammar, and the token sequence each phrase is written as.
 *
 *   program     ::= "class" identifier [decl-list] body
 *   decl-list   ::= decl ";" { decl ";" }
 *   decl        ::= type ident-list
 *   ident-list  ::= identifier { "," identifier }
 *   body        ::= "{" stmt-list "}"
 *   stmt-list   ::= stmt ";" { stmt ";" }
 *   stmt        ::= assign-stmt | if-stmt | do-stmt | read-stmt | write-stmt
 *   expression  ::= simple-expr expr-prime
 *   expr-prime  ::= relop simple-expr | (empty)
 *   simple-expr ::= term simple-expr-prime
 *   simple-expr-prime ::= addop term simple-expr-prime | (empty)
 *   term        ::= factor-a term-prime
 *   term-prime  ::= mulop factor-a term-prime | (empty)
 *   factor-a    ::= factor | "!" factor | "-" factor
 *   factor      ::= identifier | constant | "(" expression ")"
 */
module Grammar {
  import opened Wrappers
  import opened TokenTypes
  import opened Tokens

  type RelOp = k: TokenType | k == Greater || k == GreaterEqual || k == Lower || k == LowerEqual || k == NotEquals || k == Equals
    witness Equals
  type AddOp = k: TokenType | k == Add || k == Sub || k == Or witness Add
  type MulOp = k: TokenType | k == Mul || k == Div || k == And witness Mul
  /** The three type keywords a declaration may start with. */
  type TypeKeyword = k: TokenType | k == Int || k == Float || k == String witness Int

  datatype Factor =
    | Ident(x: string)
    | IntLit(value: Int32)
    | StrLit(text: string)
    | RealLit(lexeme: string)
    | Paren(inner: Expr)

  datatype FactorA = Plain(f: Factor) | LogicalNot(f: Factor) | UnaryMinus(f: Factor)

  datatype Term = Term(first: FactorA, tail: MulTail)
  datatype MulTail = MulEnd | MulMore(op: MulOp, operand: FactorA, rest: MulTail)

  datatype SimpleExpr = SimpleExpr(first: Term, tail: AddTail)
  datatype AddTail = AddEnd | AddMore(op: AddOp, operand: Term, rest: AddTail)

  datatype Expr = Expr(left: SimpleExpr, rel: RelTail)
  datatype RelTail = NoRel | Rel(op: RelOp, right: SimpleExpr)

  datatype Stmt =
    | AssignStmt(target: string, value: SimpleExpr)
    | IfStmt(cond: Expr, thenPart: seq<Stmt>, elsePart: seq<Stmt>) // an empty else part: no else branch
    | DoStmt(body: seq<Stmt>, cond: Expr)
    | ReadStmt(target: string)
    | WriteStmt(value: SimpleExpr)

  /** A declaration: a type keyword and one or more names. */
  datatype Decl = Decl(ty: TypeKeyword, first: string, more: seq<string>)

  datatype Program = Program(name: string, decls: seq<Decl>, body: seq<Stmt>)

  /** Statement lists are never empty, at any depth. */
  predicate WellFormedStmts(ss: seq<Stmt>)
  {
    |ss| > 0 && forall i :: 0 <= i < |ss| ==> WellFormedStmt(ss[i])
  }

  predicate WellFormedStmt(s: Stmt)
  {
    match s
    case IfStmt(_, t, e) => WellFormedStmts(t) && (e != [] ==> WellFormedStmts(e))
    case DoStmt(b, _) => WellFormedStmts(b)
    case _ => true
  }

  function IdentToken(x: string): Token
  {
    WordToken(Identifier, x)
  }

  // The tokens each phrase is written as.

  function FactorTokens(f: Factor): seq<Token>
  {
    match f
    case Ident(x) => [IdentToken(x)]
    case IntLit(v) => [IntegerToken(v)]
    case StrLit(s) => [WordToken(Literal, s)]
    case RealLit(t) => [FloatToken(t)]
    case Paren(e) => [Token(OpenPar)] + ExprTokens(e) + [Token(ClosePar)]
  }

  function FactorATokens(a: FactorA): seq<Token>
  {
    match a
    case Plain(f) => FactorTokens(f)
    case LogicalNot(f) => [Token(Not)] + FactorTokens(f)
    case UnaryMinus(f) => [Token(Sub)] + FactorTokens(f)
  }

  function TermTokens(t: Term): seq<Token>
  {
    FactorATokens(t.first) + MulTailTokens(t.tail)
  }

  function MulTailTokens(m: MulTail): seq<Token>
  {
    match m
    case MulEnd => []
    case MulMore(op, a, rest) => [Token(op)] + FactorATokens(a) + MulTailTokens(rest)
  }

  function SimpleExprTokens(e: SimpleExpr): seq<Token>
  {
    TermTokens(e.first) + AddTailTokens(e.tail)
  }

  function AddTailTokens(m: AddTail): seq<Token>
  {
    match m
    case AddEnd => []
    case AddMore(op, t, rest) => [Token(op)] + TermTokens(t) + AddTailTokens(rest)
  }

  function ExprTokens(e: Expr): seq<Token>
  {
    SimpleExprTokens(e.left) + RelTailTokens(e.rel)
  }

  function RelTailTokens(r: RelTail): seq<Token>
  {
    match r
    case NoRel => []
    case Rel(op, right) => [Token(op)] + SimpleExprTokens(right)
  }

  function StmtTokens(s: Stmt): seq<Token>
    decreases s, 0
  {
    match s
    case AssignStmt(x, e) => [IdentToken(x), Token(Assign)] + SimpleExprTokens(e)
    case IfStmt(c, t, e) =>
      [Token(If), Token(OpenPar)] + ExprTokens(c) + [Token(ClosePar), Token(OpenCur)] +
      StmtListTokens(t) + [Token(CloseCur)] + ElseTokens(e)
    case DoStmt(b, c) =>
      [Token(Do), Token(OpenCur)] + StmtListTokens(b) + [Token(CloseCur), Token(While), Token(OpenPar)] +
      ExprTokens(c) + [Token(ClosePar)]
    case ReadStmt(x) => [Token(Read), Token(OpenPar), IdentToken(x), Token(ClosePar)]
    case WriteStmt(e) => [Token(Write), Token(OpenPar)] + SimpleExprTokens(e) + [Token(ClosePar)]
  }

  /** The else branch: nothing when it is empty. */
  function ElseTokens(e: seq<Stmt>): seq<Token>
    decreases e, 1
  {
    if e == [] then [] else [Token(Else), Token(OpenCur)] + StmtListTokens(e) + [Token(CloseCur)]
  }

  /** Each statement followed by its semicolon. */
  function StmtListTokens(ss: seq<Stmt>): seq<Token>
    decreases ss, 0
  {
    if ss == [] then [] else StmtTokens(ss[0]) + [Token(SemiColon)] + StmtListTokens(ss[1..])
  }

  /** The names after the first, each preceded by a comma. */
  function MoreNamesTokens(names: seq<string>): seq<Token>
  {
    if names == [] then [] else [Token(Comma), IdentToken(names[0])] + MoreNamesTokens(names[1..])
  }

  function DeclTokens(d: Decl): seq<Token>
  {
    [Token(d.ty), IdentToken(d.first)] + MoreNamesTokens(d.more)
  }

  /** Each declaration followed by its semicolon. */
  function DeclListTokens(ds: seq<Decl>): seq<Token>
  {
    if ds == [] then [] else DeclTokens(ds[0]) + [Token(SemiColon)] + DeclListTokens(ds[1..])
  }

  function ProgramTokens(p: Program): seq<Token>
  {
    [Token(Class), IdentToken(p.name)] + DeclListTokens(p.decls) +
    [Token(OpenCur)] + StmtListTokens(p.body) + [Token(CloseCur)]
  }
}
