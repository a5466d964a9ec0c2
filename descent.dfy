/**
 * The analyzer's recursive descent as pure functions over the tokens still to
 * be seen, one function per production and with the same decisions, in the
 * same order, as the analyzer's methods: which alternative the lookahead
 * selects, which token is demanded next, which semantic check fails first.
 *
 * A production either reads a phrase, with its type and the tokens left after
 * it, or stops with the reason and the tokens that were left when it stopped
 * (the lookahead first). The module DescentFacts proves each production
 * sound: the tokens it read are exactly the phrase's tokens (Grammar) and the
 * type it returns is the phrase's type (Typing). It also proves each one
 * complete: on the tokens of any phrase, followed by a token that may legally
 * follow it, the production reads that phrase exactly when the phrase is well
 * typed, and otherwise stops with a semantic error, naming the rule the
 * phrase breaks.
 */
module Descent {
  import opened Wrappers
  import opened TokenTypes
  import opened Tokens
  import opened Semantic
  import opened Scope
  import opened Grammar
  import opened Typing
  import opened ParseFacts

  /** The reasons `error(String)` is called with. */
  datatype Fault =
    | TypeIsError                           // updateIdentifier given the error type
    | ClassIsError                          // updateIdentifier given the error class
    | AlreadyDefined(x: string)             // checkDeclarationUniqueness
    | NotDefined(x: string)                 // checkUsageUniqueness
    | NotA(x: string, cls: Class)           // checkClassCompatibility
    | CannotAssign(value: Type, target: Type)
    | NotBoolean                            // condition
    | BadRelational(left: Type, right: Type)
    | BadRelationalOperand(t: Type)
    | BadOperands(op: TokenType, left: Type, right: Type)
    | Incompatible(left: Type, right: Type)
    | BadAnd
    | BadUnaryOperand(op: TokenType, t: Type)

  /** Why a production stops: the lexer fails, a token is out of place, or a semantic check fails. */
  datatype Failure =
    | Lexical
    | Unexpected(expected: Option<TokenType>, got: TokenType)
    | Semantic(fault: Fault)

  /** Token sequences as the lexer hands them out: every token has the shape its kind calls for. */
  type Lexemes = ts: seq<Token> | forall i :: 0 <= i < |ts| ==> Shaped(ts[i])

  /** The tokens still to see while the analyzer holds a lookahead: never empty. */
  type Pending = ts: Lexemes | ts != [] witness [Token(EndOfFile)]

  /**
   * The outcome of a production: the phrase read, its type (void for
   * statements and declarations) and the tokens after it; or the tokens left
   * when it stopped (none when the lexer failed) and why.
   */
  datatype Parsed<T> = Done(phrase: T, t: Type, rest: Pending) | Fail(at: seq<Token>, why: Failure)

  /** A failure passed straight up to the caller. */
  function Forward<A, B>(p: Parsed<A>): (q: Parsed<B>)
    requires p.Fail?
    ensures q.Fail? && q.at == p.at && q.why == p.why
  {
    Fail(p.at, p.why)
  }

  /** The lookahead's kind. */
  function Kind(ts: Pending): TokenType
  {
    ts[0].GetType()
  }

  /**
   * advance: the lookahead is consumed and the next token becomes the
   * lookahead. End-of-file stays the lookahead for good; any other last token
   * means the lexer failed on the request for the next one.
   */
  function Advance(ts: Pending): (p: Parsed<Token>)
    ensures p.Fail? <==> ts[0] != Token(EndOfFile) && |ts| == 1
    ensures p.Fail? ==> p == Fail([], Lexical)
    ensures p.Done? ==> p.phrase == ts[0] && |p.rest| <= |ts|
    ensures p.Done? && ts[0] != Token(EndOfFile) ==> p.rest == ts[1..]
  {
    if ts[0] == Token(EndOfFile) then Done(ts[0], VoidType, ts)
    else if |ts| == 1 then Fail([], Lexical)
    else Done(ts[0], VoidType, ts[1..])
  }

  /** error(): the lookahead fits no alternative. */
  function NoAlternative<T>(ts: Pending): (p: Parsed<T>)
    ensures p.Fail? && p.at == ts && p.why.Unexpected? && p.why.expected.None?
  {
    Fail(ts, Unexpected(None, Kind(ts)))
  }

  /** eat: consume a lookahead of kind `k`; any other lookahead is unexpected. */
  function Eat(ts: Pending, k: TokenType): (p: Parsed<Token>)
    ensures Kind(ts) != k ==> p == Fail(ts, Unexpected(Some(k), Kind(ts)))
    ensures Kind(ts) == k ==> p == Advance(ts)
  {
    if Kind(ts) != k then Fail(ts, Unexpected(Some(k), Kind(ts))) else Advance(ts)
  }

  /** relop: consume a relational operator. */
  function Relop(ts: Pending): (p: Parsed<Token>)
    ensures IsRelOp(Kind(ts)) ==> p == Advance(ts)
    ensures !IsRelOp(Kind(ts)) ==> p == NoAlternative(ts)
  {
    if IsRelOp(Kind(ts)) then Advance(ts) else NoAlternative(ts)
  }

  /** addop: consume an additive operator. */
  function Addop(ts: Pending): (p: Parsed<Token>)
    ensures IsAddOp(Kind(ts)) ==> p == Advance(ts)
    ensures !IsAddOp(Kind(ts)) ==> p == NoAlternative(ts)
  {
    if IsAddOp(Kind(ts)) then Advance(ts) else NoAlternative(ts)
  }

  /** mulop: consume a multiplicative operator. */
  function Mulop(ts: Pending): (p: Parsed<Token>)
    ensures IsMulOp(Kind(ts)) ==> p == Advance(ts)
    ensures !IsMulOp(Kind(ts)) ==> p == NoAlternative(ts)
  {
    if IsMulOp(Kind(ts)) then Advance(ts) else NoAlternative(ts)
  }

  // The table checks.

  /**
   * checkUsageUniqueness, then checkClassCompatibility(VARIABLE): a name used
   * as a value must be declared, and declared a variable; its type is the
   * row's type.
   */
  function VariableUse(env: Table, x: string): (r: Result<Type, Fault>)
    requires Paired(env)
    ensures r.Ok? <==> IsVariable(env, x)
    ensures r.Ok? ==> GetType(env, x) == Some(r.value)
    ensures !IsDeclared(env, x) ==> r == Err(NotDefined(x))
    ensures IsDeclared(env, x) && !IsVariable(env, x) ==> r == Err(NotA(x, Variable))
  {
    if !IsDeclared(env, x) then Err(NotDefined(x))
    else if GetClass(env, x) != Some(Variable) then Err(NotA(x, Variable))
    else Ok(GetType(env, x).value)
  }

  /**
   * checkDeclarationUniqueness, then updateIdentifier: a name being declared
   * must not be declared yet, and is given a type and a class that are not
   * the error ones.
   */
  function Declaration(env: Table, x: string, idType: Type, idClass: Class): (r: Result<Table, Fault>)
    ensures r.Ok? <==> !IsDeclared(env, x) && idType != ErrorType && idClass != ErrorClass
    ensures r.Ok? ==> r.value == Declare(env, x, idType, idClass)
    ensures IsDeclared(env, x) ==> r == Err(AlreadyDefined(x))
  {
    if IsDeclared(env, x) then Err(AlreadyDefined(x))
    else if idType == ErrorType then Err(TypeIsError)
    else if idClass == ErrorClass then Err(ClassIsError)
    else Ok(Declare(env, x, idType, idClass))
  }

  // Expressions.

  /** expression ::= simple-expr expr-prime; a comparison of two equal types is boolean. */
  function ParseExpression(ts: Pending, env: Table): (p: Parsed<Expr>)
    requires Paired(env)
    ensures p.Done? ==> |p.rest| < |ts|
    decreases |ts|, 6
  {
    var s := ParseSimpleExpr(ts, env);
    if s.Fail? then Forward(s)
    else
      var rel := ParseExprPrime(s.rest, env);
      if rel.Fail? then Forward(rel)
      else if rel.t == VoidType then Done(Expr(s.phrase, rel.phrase), s.t, rel.rest)
      else if s.t == rel.t then Done(Expr(s.phrase, rel.phrase), BooleanType, rel.rest)
      else Fail(rel.rest, Semantic(BadRelational(s.t, rel.t)))
  }

  /** expr-prime ::= relop simple-expr | (empty) */
  function ParseExprPrime(ts: Pending, env: Table): (p: Parsed<RelTail>)
    requires Paired(env)
    ensures p.Done? ==> |p.rest| <= |ts|
    decreases |ts|, 5
  {
    if IsRelOp(Kind(ts)) then ParseComparison(ts, env) else Done(NoRel, VoidType, ts)
  }

  /** A relational operator and its right operand; `<`, `>`, `<=`, `>=` refuse strings and booleans. */
  function ParseComparison(ts: Pending, env: Table): (p: Parsed<RelTail>)
    requires Paired(env) && IsRelOp(Kind(ts))
    ensures p.Done? ==> |p.rest| < |ts|
    decreases |ts|, 4
  {
    var k := Kind(ts);
    var op := Relop(ts);
    if op.Fail? then Forward(op)
    else
      var s := ParseSimpleExpr(op.rest, env);
      if s.Fail? then Forward(s)
      else if IsOrdering(k) && (s.t == StringType || s.t == BooleanType) then
        Fail(s.rest, Semantic(BadRelationalOperand(s.t)))
      else Done(Rel(k, s.phrase), s.t, s.rest)
  }

  /** simple-expr ::= term simple-expr-prime; the chain must be compatible with the first term. */
  function ParseSimpleExpr(ts: Pending, env: Table): (p: Parsed<SimpleExpr>)
    requires Paired(env)
    ensures p.Done? ==> |p.rest| < |ts|
    decreases |ts|, 5
  {
    var t := ParseTerm(ts, env);
    if t.Fail? then Forward(t)
    else
      var m := ParseSimpleExprPrime(t.rest, env, t.t);
      if m.Fail? then Forward(m)
      else if Compatible(t.t, m.t) then Done(SimpleExpr(t.phrase, m.phrase), t.t, m.rest)
      else Fail(m.rest, Semantic(Incompatible(t.t, m.t)))
  }

  /** simple-expr-prime ::= addop term simple-expr-prime | (empty), after an operand of type `left`. */
  function ParseSimpleExprPrime(ts: Pending, env: Table, left: Type): (p: Parsed<AddTail>)
    requires Paired(env)
    ensures p.Done? ==> |p.rest| <= |ts|
    decreases |ts|, 4
  {
    var k := Kind(ts);
    if IsAddOp(k) then
      var t := ParseAddOperand(ts, env, left);
      if t.Fail? then Forward(t)
      else
        var m := ParseSimpleExprPrime(t.rest, env, left);
        if m.Fail? then Forward(m)
        else if Compatible(left, m.t) then Done(AddMore(k, t.phrase, m.phrase), left, m.rest)
        else Fail(m.rest, Semantic(Incompatible(left, m.t)))
    else Done(AddEnd, VoidType, ts)
  }

  /**
   * addop term, after an operand of type `left`: both operands must have the
   * same type; `||` wants booleans, `+` and `-` refuse them, and `-` refuses
   * strings too.
   */
  function ParseAddOperand(ts: Pending, env: Table, left: Type): (p: Parsed<Term>)
    requires Paired(env) && IsAddOp(Kind(ts))
    ensures p.Done? ==> |p.rest| < |ts|
    decreases |ts|, 3
  {
    var k := Kind(ts);
    var op := Addop(ts);
    if op.Fail? then Forward(op)
    else
      var t := ParseTerm(op.rest, env);
      if t.Fail? then Forward(t)
      else if left != t.t || (left == BooleanType) != (k == Or) || (k == Sub && left == StringType) then
        Fail(t.rest, Semantic(BadOperands(k, left, t.t)))
      else t
  }

  /** term ::= factor-a term-prime; a term whose chain is void has its first operand's type. */
  function ParseTerm(ts: Pending, env: Table): (p: Parsed<Term>)
    requires Paired(env)
    ensures p.Done? ==> |p.rest| < |ts|
    decreases |ts|, 4
  {
    var a := ParseFactorA(ts, env);
    if a.Fail? then Forward(a)
    else
      var m := ParseTermPrime(a.rest, env, a.t);
      if m.Fail? then Forward(m)
      else Done(Term(a.phrase, m.phrase), if m.t == VoidType then a.t else m.t, m.rest)
  }

  /** term-prime ::= mulop factor-a term-prime | (empty), after an operand of type `left`. */
  function ParseTermPrime(ts: Pending, env: Table, left: Type): (p: Parsed<MulTail>)
    requires Paired(env)
    ensures p.Done? ==> |p.rest| <= |ts|
    decreases |ts|, 3
  {
    var k := Kind(ts);
    if IsMulOp(k) then
      var a := ParseMulOperand(ts, env, left);
      if a.Fail? then Forward(a)
      else
        var result := if k == Div then FloatType else left;
        var m := ParseTermPrime(a.rest, env, result);
        if m.Fail? then Forward(m)
        else
          match MulStepType(k, result, m.t)
          case Ok(t) => Done(MulMore(k, a.phrase, m.phrase), t, m.rest)
          case Err(fault) => Fail(m.rest, Semantic(fault))
    else Done(MulEnd, VoidType, ts)
  }

  /**
   * The type of a multiplicative step whose operator `k` gave `result`, given
   * the type of the chain after it: `&&` wants a boolean chain or none, the
   * others a compatible one.
   */
  function MulStepType(k: TokenType, result: Type, tail: Type): Result<Type, Fault>
  {
    if k == And then
      if result == BooleanType && (tail == BooleanType || tail == VoidType) then Ok(BooleanType) else Err(BadAnd)
    else if Compatible(result, tail) then Ok(result)
    else Err(Incompatible(result, tail))
  }

  /**
   * mulop factor-a, after an operand of type `left`: both operands must have
   * the same type; `&&` wants booleans, `*` and `/` refuse booleans and strings.
   */
  function ParseMulOperand(ts: Pending, env: Table, left: Type): (p: Parsed<FactorA>)
    requires Paired(env) && IsMulOp(Kind(ts))
    ensures p.Done? ==> |p.rest| < |ts|
    decreases |ts|, 2
  {
    var k := Kind(ts);
    var op := Mulop(ts);
    if op.Fail? then Forward(op)
    else
      var a := ParseFactorA(op.rest, env);
      if a.Fail? then Forward(a)
      else if left != a.t || (left == BooleanType) != (k == And) || (k != And && left == StringType) then
        Fail(a.rest, Semantic(BadOperands(k, left, a.t)))
      else a
  }

  /** factor-a ::= factor | "!" factor | "-" factor; `!` wants a boolean, `-` a number. */
  function ParseFactorA(ts: Pending, env: Table): (p: Parsed<FactorA>)
    requires Paired(env)
    ensures p.Done? ==> |p.rest| < |ts|
    decreases |ts|, 3
  {
    var k := Kind(ts);
    if k == Not || k == Sub then ParseUnaryFactor(ts, env)
    else if k == Identifier || k == OpenPar || k == IntegerConst || k == Literal || k == RealConst then
      var f := ParseFactor(ts, env);
      if f.Fail? then Forward(f) else Done(Plain(f.phrase), f.t, f.rest)
    else NoAlternative(ts)
  }

  /** "!" factor | "-" factor: `!` wants a boolean, `-` a number. */
  function ParseUnaryFactor(ts: Pending, env: Table): (p: Parsed<FactorA>)
    requires Paired(env) && (Kind(ts) == Not || Kind(ts) == Sub)
    ensures p.Done? ==> |p.rest| < |ts|
    decreases |ts|, 2
  {
    var k := Kind(ts);
    var op := Advance(ts);
    if op.Fail? then Forward(op)
    else
      var f := ParseFactor(op.rest, env);
      if f.Fail? then Forward(f)
      else if k == Not then
        if f.t == BooleanType then Done(LogicalNot(f.phrase), f.t, f.rest)
        else Fail(f.rest, Semantic(BadUnaryOperand(Not, f.t)))
      else if f.t == FloatType || f.t == IntType then Done(UnaryMinus(f.phrase), f.t, f.rest)
      else Fail(f.rest, Semantic(BadUnaryOperand(Sub, f.t)))
  }

  /** factor ::= identifier | constant | "(" expression ")" */
  function ParseFactor(ts: Pending, env: Table): (p: Parsed<Factor>)
    requires Paired(env)
    ensures p.Done? ==> |p.rest| < |ts|
    decreases |ts|, 2
  {
    var k := Kind(ts);
    if k == Identifier then ParseVariableFactor(ts, env)
    else if k == IntegerConst || k == Literal || k == RealConst then ParseConstant(ts)
    else if k == OpenPar then ParseParenFactor(ts, env)
    else NoAlternative(ts)
  }

  /** A name used as a value: it must be a declared variable, and has its declared type. */
  function ParseVariableFactor(ts: Pending, env: Table): (p: Parsed<Factor>)
    requires Paired(env) && Kind(ts) == Identifier
    ensures p.Done? ==> |p.rest| < |ts|
  {
    var u := ParseUsedName(ts, env);
    if u.Fail? then Forward(u) else Done(Ident(u.phrase), u.t, u.rest)
  }

  /** An identifier used as a value: it must be a declared variable; its type is the variable's. */
  function ParseUsedName(ts: Pending, env: Table): (p: Parsed<string>)
    requires Paired(env)
    ensures p.Done? ==> |p.rest| < |ts|
  {
    var id := Eat(ts, Identifier);
    if id.Fail? then Forward(id)
    else
      var x := ts[0].lexeme;
      match VariableUse(env, x)
      case Err(fault) => Fail(id.rest, Semantic(fault))
      case Ok(t) => Done(x, t, id.rest)
  }

  /** A constant: int for an integer, string for a literal, float for a real. */
  function ParseConstant(ts: Pending): (p: Parsed<Factor>)
    requires Kind(ts) == IntegerConst || Kind(ts) == Literal || Kind(ts) == RealConst
    ensures p.Done? ==> |p.rest| < |ts|
  {
    var k := Kind(ts);
    var c := Advance(ts);
    if c.Fail? then Forward(c)
    else if k == IntegerConst then Done(IntLit(ts[0].value), IntType, c.rest)
    else if k == Literal then Done(StrLit(ts[0].lexeme), StringType, c.rest)
    else Done(RealLit(ts[0].text), FloatType, c.rest)
  }

  /** "(" expression ")" */
  function ParseParenFactor(ts: Pending, env: Table): (p: Parsed<Factor>)
    requires Paired(env) && Kind(ts) == OpenPar
    ensures p.Done? ==> |p.rest| < |ts|
    decreases |ts|, 1
  {
    var open := Advance(ts);
    if open.Fail? then Forward(open)
    else
      var e := ParseParenRest(open.rest, env);
      if e.Fail? then Forward(e) else Done(Paren(e.phrase), e.t, e.rest)
  }

  /** The expression inside parentheses and the closing parenthesis. */
  function ParseParenRest(ts: Pending, env: Table): (p: Parsed<Expr>)
    requires Paired(env)
    ensures p.Done? ==> |p.rest| < |ts|
    decreases |ts|, 7
  {
    var e := ParseExpression(ts, env);
    if e.Fail? then Forward(e)
    else
      var close := Eat(e.rest, ClosePar);
      if close.Fail? then Forward(close) else Done(e.phrase, e.t, close.rest)
  }

  // Statements.

  /** body ::= "{" stmt-list "}" */
  function ParseBody(ts: Pending, env: Table): (p: Parsed<seq<Stmt>>)
    requires Paired(env)
    ensures p.Done? ==> |p.rest| < |ts|
    decreases |ts|, 6
  {
    var open := Eat(ts, OpenCur);
    if open.Fail? then Forward(open)
    else
      var ss := ParseStmtList(open.rest, env);
      if ss.Fail? then Forward(ss)
      else
        var close := Eat(ss.rest, CloseCur);
        if close.Fail? then Forward(close) else Done(ss.phrase, VoidType, close.rest)
  }

  /** stmt-list ::= stmt ";" { stmt ";" } */
  function ParseStmtList(ts: Pending, env: Table): (p: Parsed<seq<Stmt>>)
    requires Paired(env)
    ensures p.Done? ==> |p.rest| < |ts|
    decreases |ts|, 5
  {
    var s := ParseTerminated(ts, env);
    if s.Fail? then Forward(s) else Prepend([s.phrase], ParseMoreStmts(s.rest, env))
  }

  /** The statements after the first, read while the lookahead can start one. */
  function ParseMoreStmts(ts: Pending, env: Table): (p: Parsed<seq<Stmt>>)
    requires Paired(env)
    ensures p.Done? ==> |p.rest| <= |ts|
    decreases |ts|, 4
  {
    if StartsStmt(Kind(ts)) then
      var s := ParseTerminated(ts, env);
      if s.Fail? then Forward(s) else Prepend([s.phrase], ParseMoreStmts(s.rest, env))
    else Done([], VoidType, ts)
  }

  /** A list read in two stretches: the first stretch in front of whatever the second yields. */
  function Prepend<T>(xs: seq<T>, p: Parsed<seq<T>>): (q: Parsed<seq<T>>)
    ensures q.Done? <==> p.Done?
    ensures q.Done? ==> q.phrase == xs + p.phrase && q.t == p.t && q.rest == p.rest
    ensures q.Fail? ==> q == Forward(p)
  {
    if p.Fail? then Forward(p) else Done(xs + p.phrase, p.t, p.rest)
  }

  /** Prepending in two stretches is prepending both at once. */
  lemma PrependTwice<T>(xs: seq<T>, ys: seq<T>, p: Parsed<seq<T>>)
    ensures Prepend(xs, Prepend(ys, p)) == Prepend(xs + ys, p)
  {
    if p.Done? {
      assert xs + (ys + p.phrase) == xs + ys + p.phrase;
    }
  }

  /** A statement and the semicolon after it. */
  function ParseTerminated(ts: Pending, env: Table): (p: Parsed<Stmt>)
    requires Paired(env)
    ensures p.Done? ==> |p.rest| < |ts|
    decreases |ts|, 3
  {
    var s := ParseStmt(ts, env);
    if s.Fail? then Forward(s)
    else
      var semi := Eat(s.rest, SemiColon);
      if semi.Fail? then Forward(semi) else Done(s.phrase, VoidType, semi.rest)
  }

  /** stmt ::= assign-stmt | if-stmt | do-stmt | read-stmt | write-stmt, chosen by the lookahead. */
  function ParseStmt(ts: Pending, env: Table): (p: Parsed<Stmt>)
    requires Paired(env)
    ensures p.Done? ==> |p.rest| < |ts|
    decreases |ts|, 2
  {
    var k := Kind(ts);
    if k == Identifier then ParseAssignStmt(ts, env)
    else if k == If then ParseIfStmt(ts, env)
    else if k == Do then ParseDoStmt(ts, env)
    else if k == Read then ParseReadStmt(ts, env)
    else if k == Write then ParseWriteStmt(ts, env)
    else NoAlternative(ts)
  }

  /** assign-stmt ::= identifier "=" simple-expr; the value's type must be the variable's. */
  function ParseAssignStmt(ts: Pending, env: Table): (p: Parsed<Stmt>)
    requires Paired(env)
    ensures p.Done? ==> |p.rest| < |ts|
  {
    var x := ParseUsedName(ts, env);
    if x.Fail? then Forward(x)
    else
      var e := ParseAssignedValue(x.rest, env, x.t);
      if e.Fail? then Forward(e) else Done(AssignStmt(x.phrase, e.phrase), VoidType, e.rest)
  }

  /** "=" simple-expr, assigned to a variable of type `idType`: the value must have that type. */
  function ParseAssignedValue(ts: Pending, env: Table, idType: Type): (p: Parsed<SimpleExpr>)
    requires Paired(env)
    ensures p.Done? ==> |p.rest| < |ts|
  {
    var assign := Eat(ts, Assign);
    if assign.Fail? then Forward(assign)
    else
      var e := ParseSimpleExpr(assign.rest, env);
      if e.Fail? then Forward(e)
      else if idType != e.t then Fail(e.rest, Semantic(CannotAssign(e.t, idType)))
      else e
  }

  /** if-stmt ::= "if" "(" condition ")" "{" stmt-list "}" else-stmt */
  function ParseIfStmt(ts: Pending, env: Table): (p: Parsed<Stmt>)
    requires Paired(env)
    ensures p.Done? ==> |p.rest| < |ts|
    decreases |ts|, 1
  {
    var kw := Eat(ts, If);
    if kw.Fail? then Forward(kw)
    else
      var c := ParseGuard(kw.rest, env);
      if c.Fail? then Forward(c)
      else
        var t := ParseBody(c.rest, env);
        if t.Fail? then Forward(t)
        else
          var e := ParseElseStmt(t.rest, env);
          if e.Fail? then Forward(e) else Done(IfStmt(c.phrase, t.phrase, e.phrase), VoidType, e.rest)
  }

  /** else-stmt ::= "else" "{" stmt-list "}" | (empty) */
  function ParseElseStmt(ts: Pending, env: Table): (p: Parsed<seq<Stmt>>)
    requires Paired(env)
    ensures p.Done? ==> |p.rest| <= |ts|
    decreases |ts|, 0
  {
    if Kind(ts) != Else then Done([], VoidType, ts)
    else
      var kw := Eat(ts, Else);
      if kw.Fail? then Forward(kw) else ParseBody(kw.rest, env)
  }

  /** "(" condition ")", the guard of an if-stmt and of a do-suffix. */
  function ParseGuard(ts: Pending, env: Table): (p: Parsed<Expr>)
    requires Paired(env)
    ensures p.Done? ==> |p.rest| < |ts|
  {
    var open := Eat(ts, OpenPar);
    if open.Fail? then Forward(open)
    else
      var c := ParseCondition(open.rest, env);
      if c.Fail? then Forward(c)
      else
        var close := Eat(c.rest, ClosePar);
        if close.Fail? then Forward(close) else Done(c.phrase, VoidType, close.rest)
  }

  /** condition ::= expression, which must be boolean. */
  function ParseCondition(ts: Pending, env: Table): (p: Parsed<Expr>)
    requires Paired(env)
    ensures p.Done? ==> |p.rest| < |ts|
  {
    var e := ParseExpression(ts, env);
    if e.Fail? then Forward(e)
    else if e.t != BooleanType then Fail(e.rest, Semantic(NotBoolean))
    else Done(e.phrase, VoidType, e.rest)
  }

  /** do-stmt ::= "do" "{" stmt-list "}" do-suffix */
  function ParseDoStmt(ts: Pending, env: Table): (p: Parsed<Stmt>)
    requires Paired(env)
    ensures p.Done? ==> |p.rest| < |ts|
    decreases |ts|, 1
  {
    var kw := Eat(ts, Do);
    if kw.Fail? then Forward(kw)
    else
      var b := ParseBody(kw.rest, env);
      if b.Fail? then Forward(b)
      else
        var c := ParseDoSuffix(b.rest, env);
        if c.Fail? then Forward(c) else Done(DoStmt(b.phrase, c.phrase), VoidType, c.rest)
  }

  /** do-suffix ::= "while" "(" condition ")" */
  function ParseDoSuffix(ts: Pending, env: Table): (p: Parsed<Expr>)
    requires Paired(env)
    ensures p.Done? ==> |p.rest| < |ts|
  {
    var kw := Eat(ts, While);
    if kw.Fail? then Forward(kw) else ParseGuard(kw.rest, env)
  }

  /** read-stmt ::= "read" "(" identifier ")"; the name must be a declared variable. */
  function ParseReadStmt(ts: Pending, env: Table): (p: Parsed<Stmt>)
    requires Paired(env)
    ensures p.Done? ==> |p.rest| < |ts|
  {
    var kw := Eat(ts, Read);
    if kw.Fail? then Forward(kw)
    else
      var open := Eat(kw.rest, OpenPar);
      if open.Fail? then Forward(open)
      else
        var x := ParseUsedName(open.rest, env);
        if x.Fail? then Forward(x)
        else
          var close := Eat(x.rest, ClosePar);
          if close.Fail? then Forward(close) else Done(ReadStmt(x.phrase), VoidType, close.rest)
  }

  /** write-stmt ::= "write" "(" writable ")", where writable is a simple expression of any type. */
  function ParseWriteStmt(ts: Pending, env: Table): (p: Parsed<Stmt>)
    requires Paired(env)
    ensures p.Done? ==> |p.rest| < |ts|
  {
    var kw := Eat(ts, Write);
    if kw.Fail? then Forward(kw)
    else
      var open := Eat(kw.rest, OpenPar);
      if open.Fail? then Forward(open)
      else
        var e := ParseSimpleExpr(open.rest, env);
        if e.Fail? then Forward(e)
        else
          var close := Eat(e.rest, ClosePar);
          if close.Fail? then Forward(close) else Done(WriteStmt(e.phrase), VoidType, close.rest)
  }

  // Declarations. Their phrase comes with the table after the declaration.

  /** type ::= "int" | "string" | "float" */
  function ParseDeclType(ts: Pending): (p: Parsed<TypeKeyword>)
    ensures p.Done? ==> |p.rest| < |ts| && p.t == KeywordType(p.phrase)
  {
    if Kind(ts) == Int || Kind(ts) == String || Kind(ts) == Float then
      var k: TypeKeyword := Kind(ts);
      var kw := Advance(ts);
      if kw.Fail? then Forward(kw) else Done(k, KeywordType(k), kw.rest)
    else NoAlternative(ts)
  }

  /**
   * A name being declared with type `idType` and class `idClass`: one name of
   * an ident-list, or the class name after "class".
   */
  function ParseDeclaredName(ts: Pending, env: Table, idType: Type, idClass: Class): (p: Parsed<(string, Table)>)
    ensures p.Done? && Paired(env) ==> Paired(p.phrase.1)
    ensures p.Done? ==> |p.rest| < |ts|
  {
    var id := Eat(ts, Identifier);
    if id.Fail? then Forward(id)
    else
      var x := ts[0].lexeme;
      match Declaration(env, x, idType, idClass)
      case Err(fault) => Fail(id.rest, Semantic(fault))
      case Ok(env') => Done((x, env'), VoidType, id.rest)
  }

  /** ident-list ::= identifier { "," identifier }; each name becomes a variable of type `t`. */
  function ParseIdentList(ts: Pending, env: Table, t: Type): (p: Parsed<(seq<string>, Table)>)
    ensures p.Done? && Paired(env) ==> Paired(p.phrase.1)
    ensures p.Done? ==> |p.rest| < |ts| && p.phrase.0 != []
  {
    var first := ParseDeclaredName(ts, env, t, Variable);
    if first.Fail? then Forward(first)
    else PrependDeclared([first.phrase.0], ParseMoreNames(first.rest, first.phrase.1, t))
  }

  /** The names after the first, each after a comma, read while the lookahead is a comma. */
  function ParseMoreNames(ts: Pending, env: Table, t: Type): (p: Parsed<(seq<string>, Table)>)
    ensures p.Done? && Paired(env) ==> Paired(p.phrase.1)
    ensures p.Done? ==> |p.rest| <= |ts|
    decreases |ts|
  {
    if Kind(ts) == Comma then
      var comma := Eat(ts, Comma);
      if comma.Fail? then Forward(comma)
      else
        var x := ParseDeclaredName(comma.rest, env, t, Variable);
        if x.Fail? then Forward(x)
        else PrependDeclared([x.phrase.0], ParseMoreNames(x.rest, x.phrase.1, t))
    else Done(([], env), VoidType, ts)
  }

  /** A list of declared things read in two stretches; the table is the one after the second. */
  function PrependDeclared<T>(xs: seq<T>, p: Parsed<(seq<T>, Table)>): (q: Parsed<(seq<T>, Table)>)
    ensures q.Done? <==> p.Done?
    ensures q.Done? ==> q.phrase == (xs + p.phrase.0, p.phrase.1) && q.t == p.t && q.rest == p.rest
    ensures q.Fail? ==> q == Forward(p)
  {
    if p.Fail? then Forward(p) else Done((xs + p.phrase.0, p.phrase.1), p.t, p.rest)
  }

  /** Prepending declared things in two stretches is prepending both at once. */
  lemma PrependDeclaredTwice<T>(xs: seq<T>, ys: seq<T>, p: Parsed<(seq<T>, Table)>)
    ensures PrependDeclared(xs, PrependDeclared(ys, p)) == PrependDeclared(xs + ys, p)
  {
    if p.Done? {
      assert xs + (ys + p.phrase.0) == xs + ys + p.phrase.0;
    }
  }

  /** decl ::= type ident-list */
  function ParseDecl(ts: Pending, env: Table): (p: Parsed<(Decl, Table)>)
    ensures p.Done? && Paired(env) ==> Paired(p.phrase.1)
    ensures p.Done? ==> |p.rest| < |ts|
  {
    var ty := ParseDeclType(ts);
    if ty.Fail? then Forward(ty)
    else
      var names := ParseIdentList(ty.rest, env, ty.t);
      if names.Fail? then Forward(names)
      else Done((Decl(ty.phrase, names.phrase.0[0], names.phrase.0[1..]), names.phrase.1), VoidType, names.rest)
  }

  /** A declaration and the semicolon after it. */
  function ParseTerminatedDecl(ts: Pending, env: Table): (p: Parsed<(Decl, Table)>)
    ensures p.Done? && Paired(env) ==> Paired(p.phrase.1)
    ensures p.Done? ==> |p.rest| < |ts|
  {
    var d := ParseDecl(ts, env);
    if d.Fail? then Forward(d)
    else
      var semi := Eat(d.rest, SemiColon);
      if semi.Fail? then Forward(semi) else Done(d.phrase, VoidType, semi.rest)
  }

  /** decl-list ::= decl ";" { decl ";" } */
  function ParseDeclList(ts: Pending, env: Table): (p: Parsed<(seq<Decl>, Table)>)
    ensures p.Done? && Paired(env) ==> Paired(p.phrase.1)
    ensures p.Done? ==> |p.rest| < |ts|
  {
    var d := ParseTerminatedDecl(ts, env);
    if d.Fail? then Forward(d)
    else PrependDeclared([d.phrase.0], ParseMoreDecls(d.rest, d.phrase.1))
  }

  /** The declarations after the first, read while the lookahead is a type keyword. */
  function ParseMoreDecls(ts: Pending, env: Table): (p: Parsed<(seq<Decl>, Table)>)
    ensures p.Done? && Paired(env) ==> Paired(p.phrase.1)
    ensures p.Done? ==> |p.rest| <= |ts|
    decreases |ts|
  {
    var k := Kind(ts);
    if k == Int || k == Float || k == String then
      var d := ParseTerminatedDecl(ts, env);
      if d.Fail? then Forward(d)
      else PrependDeclared([d.phrase.0], ParseMoreDecls(d.rest, d.phrase.1))
    else Done(([], env), VoidType, ts)
  }

  /** The optional decl-list of a program, present when the lookahead is a type keyword. */
  function ParseOptionalDeclList(ts: Pending, env: Table): (p: Parsed<(seq<Decl>, Table)>)
    ensures p.Done? && Paired(env) ==> Paired(p.phrase.1)
    ensures p.Done? ==> |p.rest| <= |ts|
  {
    var k := Kind(ts);
    if k == Int || k == Float || k == String then ParseDeclList(ts, env) else Done(([], env), VoidType, ts)
  }

  // The whole program.

  /** "class" identifier: the class name is declared with type void and class CLASS. */
  function ParseClassHeader(ts: Pending, env: Table): (p: Parsed<(string, Table)>)
    ensures p.Done? && Paired(env) ==> Paired(p.phrase.1)
    ensures p.Done? ==> |p.rest| < |ts|
  {
    if Kind(ts) != TokenType.Class then NoAlternative(ts)
    else
      var kw := Advance(ts);
      if kw.Fail? then Forward(kw) else ParseDeclaredName(kw.rest, env, VoidType, ClassName)
  }

  /** program ::= "class" identifier [decl-list] body, read against an empty table. */
  function ParseProgram(ts: Pending): (p: Parsed<(Program, Table)>)
    ensures p.Done? ==> |p.rest| < |ts|
  {
    var head := ParseClassHeader(ts, map[]);
    if head.Fail? then Forward(head)
    else
      var decls := ParseOptionalDeclList(head.rest, head.phrase.1);
      if decls.Fail? then Forward(decls)
      else
        var body := ParseBody(decls.rest, decls.phrase.1);
        if body.Fail? then Forward(body)
        else Done((Program(head.phrase.0, decls.phrase.0, body.phrase), decls.phrase.1), VoidType, body.rest)
  }

  /**
   * start: a program over the whole token stream, then end-of-file. An empty
   * stream means the lexer failed on the very first request.
   */
  function Analyze(ts: Lexemes): (p: Parsed<(Program, Table)>)
  {
    if ts == [] then Fail([], Lexical)
    else
      var prog := ParseProgram(ts);
      if prog.Fail? then prog
      else
        var eof := Eat(prog.rest, EndOfFile);
        if eof.Fail? then Forward(eof) else Done(prog.phrase, VoidType, eof.rest)
  }
}
