/**
 * Bookkeeping facts the analyzer's proofs rely on: how the token sequences of
 * lists grow by one element, how the declaration rules grow by one name, and
 * how a token's kind determines the token.
 */
module ParseFacts {
  import opened Wrappers
  import opened TokenTypes
  import opened Tokens
  import opened Semantic
  import opened Scope
  import opened Grammar
  import opened Typing

  /** What a token's kind says about its shape: only identifiers and literals carry text. */
  predicate Shaped(t: Token)
  {
    match t
    case Token(k) => k != Identifier && k != Literal && k != IntegerConst && k != RealConst
    case WordToken(k, _) => k == Identifier || k == Literal
    case _ => true
  }

  lemma WellFormedIsShaped(t: Token)
    requires t.WellFormed()
    ensures Shaped(t)
  {
    if t.Token? {
      assert Lexeme(Identifier) == "" && Lexeme(Literal) == "";
      assert Lexeme(IntegerConst) == "" && Lexeme(RealConst) == "";
    }
  }

  /** A token of a known shape is determined by its kind, apart from the text or value it carries. */
  lemma TokenOfKind(t: Token)
    requires Shaped(t)
    ensures t.GetType() == Identifier ==> t == IdentToken(t.lexeme)
    ensures t.GetType() == Literal ==> t == WordToken(Literal, t.lexeme)
    ensures t.GetType() == IntegerConst ==> t == IntegerToken(t.value)
    ensures t.GetType() == RealConst ==> t == FloatToken(t.text)
    ensures t.GetType() !in {Identifier, Literal, IntegerConst, RealConst} ==> t == Token(t.GetType())
  {
  }

  /** Lookups through the declared part of a table agree with lookups in the table. */
  lemma DeclaredLookups(st: Table, x: string)
    ensures IsDeclared(Declared(st), x) == IsDeclared(st, x)
    ensures IsVariable(Declared(st), x) == (IsDeclared(st, x) && GetClass(st, x) == Some(Variable))
    ensures IsDeclared(st, x) ==> GetType(Declared(st), x) == GetType(st, x)
  {
  }

  lemma {:induction false} StmtListTokensSnoc(ss: seq<Stmt>, s: Stmt)
    ensures StmtListTokens(ss + [s]) == StmtListTokens(ss) + StmtTokens(s) + [Token(SemiColon)]
    decreases |ss|
  {
    if ss == [] {
      assert (ss + [s])[1..] == [];
    } else {
      assert (ss + [s])[1..] == ss[1..] + [s];
      StmtListTokensSnoc(ss[1..], s);
    }
  }

  lemma {:induction false} MoreNamesTokensSnoc(names: seq<string>, x: string)
    ensures MoreNamesTokens(names + [x]) == MoreNamesTokens(names) + [Token(Comma), IdentToken(x)]
    decreases |names|
  {
    if names == [] {
      assert (names + [x])[1..] == [];
    } else {
      assert (names + [x])[1..] == names[1..] + [x];
      MoreNamesTokensSnoc(names[1..], x);
    }
  }

  lemma {:induction false} DeclListTokensSnoc(ds: seq<Decl>, d: Decl)
    ensures DeclListTokens(ds + [d]) == DeclListTokens(ds) + DeclTokens(d) + [Token(SemiColon)]
    decreases |ds|
  {
    if ds == [] {
      assert (ds + [d])[1..] == [];
    } else {
      assert (ds + [d])[1..] == ds[1..] + [d];
      DeclListTokensSnoc(ds[1..], d);
    }
  }

  /** Declaring one more name extends the table by that name, unless it is already declared. */
  lemma {:induction false} DeclareNamesSnoc(env: Table, names: seq<string>, x: string, t: Type)
    requires DeclareNames(env, names, t).Some?
    ensures var e := DeclareNames(env, names, t).value;
      DeclareNames(env, names + [x], t) == if IsDeclared(e, x) then None else Some(Declare(e, x, t, Variable))
    decreases |names|
  {
    if names == [] {
      assert (names + [x])[1..] == [];
    } else {
      assert (names + [x])[1..] == names[1..] + [x];
      DeclareNamesSnoc(Declare(env, names[0], t, Variable), names[1..], x, t);
    }
  }

  /** One more declaration runs its names against the table the earlier ones built. */
  lemma {:induction false} DeclsEnvSnoc(env: Table, ds: seq<Decl>, d: Decl)
    requires DeclsEnv(env, ds).Some?
    ensures DeclsEnv(env, ds + [d]) == DeclareNames(DeclsEnv(env, ds).value, [d.first] + d.more, KeywordType(d.ty))
    decreases |ds|
  {
    if ds == [] {
      assert (ds + [d])[1..] == [];
    } else {
      assert (ds + [d])[0] == ds[0];
      assert (ds + [d])[1..] == ds[1..] + [d];
      var e := DeclareNames(env, [ds[0].first] + ds[0].more, KeywordType(ds[0].ty));
      DeclsEnvSnoc(e.value, ds[1..], d);
    }
  }

  // What may follow a phrase: the analyzer decides by the lookahead alone.

  predicate IsRelOp(k: TokenType)
  {
    k == Greater || k == GreaterEqual || k == Lower || k == LowerEqual || k == NotEquals || k == Equals
  }

  predicate IsAddOp(k: TokenType)
  {
    k == Add || k == Sub || k == Or
  }

  predicate IsMulOp(k: TokenType)
  {
    k == Mul || k == Div || k == And
  }

  /** The kinds a statement can start with. */
  predicate StartsStmt(k: TokenType)
  {
    k == Identifier || k == If || k == Do || k == Read || k == Write
  }

  /** Tokens that may follow a term: a first token that does not continue it. */
  predicate EndsTerm(after: seq<Token>)
  {
    after != [] && !IsMulOp(after[0].GetType())
  }

  /** Tokens that may follow a simple expression. */
  predicate EndsSimple(after: seq<Token>)
  {
    EndsTerm(after) && !IsAddOp(after[0].GetType())
  }

  /** Tokens that may follow an expression. */
  predicate EndsExpr(after: seq<Token>)
  {
    EndsSimple(after) && !IsRelOp(after[0].GetType())
  }

  /** `after` starts with the plain token of kind `k`. */
  predicate StartsWith(after: seq<Token>, k: TokenType)
  {
    after != [] && after[0] == Token(k)
  }

  // The tokens of each phrase followed by `r`, split the way the analyzer reads them.

  /** A factor's first token tells its alternative. */
  lemma FactorHead(f: Factor)
    ensures FactorTokens(f) != []
    ensures var k := FactorTokens(f)[0].GetType();
      (f.Ident? <==> k == Identifier) && (f.IntLit? <==> k == IntegerConst) && (f.StrLit? <==> k == Literal) &&
      (f.RealLit? <==> k == RealConst) && (f.Paren? <==> k == OpenPar)
  {
  }

  lemma FactorASplit(a: FactorA, r: seq<Token>)
    ensures a.Plain? ==> FactorATokens(a) + r == FactorTokens(a.f) + r
    ensures a.LogicalNot? ==> FactorATokens(a) + r == [Token(Not)] + (FactorTokens(a.f) + r)
    ensures a.UnaryMinus? ==> FactorATokens(a) + r == [Token(Sub)] + (FactorTokens(a.f) + r)
  {
  }

  lemma ParenSplit(e: Expr, r: seq<Token>)
    ensures FactorTokens(Paren(e)) + r == [Token(OpenPar)] + (ExprTokens(e) + ([Token(ClosePar)] + r))
  {
  }

  lemma TermSplit(t: Term, r: seq<Token>)
    ensures TermTokens(t) + r == FactorATokens(t.first) + (MulTailTokens(t.tail) + r)
  {
  }

  lemma MulTailSplit(m: MulTail, r: seq<Token>)
    ensures m.MulEnd? ==> MulTailTokens(m) + r == r
    ensures m.MulMore? ==> MulTailTokens(m) + r == [Token(m.op)] + (FactorATokens(m.operand) + (MulTailTokens(m.rest) + r))
  {
  }

  lemma SimpleExprSplit(e: SimpleExpr, r: seq<Token>)
    ensures SimpleExprTokens(e) + r == TermTokens(e.first) + (AddTailTokens(e.tail) + r)
  {
  }

  lemma AddTailSplit(m: AddTail, r: seq<Token>)
    ensures m.AddEnd? ==> AddTailTokens(m) + r == r
    ensures m.AddMore? ==> AddTailTokens(m) + r == [Token(m.op)] + (TermTokens(m.operand) + (AddTailTokens(m.rest) + r))
  {
  }

  lemma ExprSplit(e: Expr, r: seq<Token>)
    ensures ExprTokens(e) + r == SimpleExprTokens(e.left) + (RelTailTokens(e.rel) + r)
  {
  }

  lemma RelTailSplit(rel: RelTail, r: seq<Token>)
    ensures rel.NoRel? ==> RelTailTokens(rel) + r == r
    ensures rel.Rel? ==> RelTailTokens(rel) + r == [Token(rel.op)] + (SimpleExprTokens(rel.right) + r)
  {
  }

  /** An additive chain, followed by what may follow a simple expression, is what may follow a term. */
  lemma AddTailEndsTerm(m: AddTail, r: seq<Token>)
    ensures EndsSimple(r) ==> EndsTerm(AddTailTokens(m) + r)
  {
  }

  /** A relational tail, followed by what may follow an expression, is what may follow a simple expression. */
  lemma RelTailEndsSimple(rel: RelTail, r: seq<Token>)
    ensures EndsExpr(r) ==> EndsSimple(RelTailTokens(rel) + r)
  {
  }

  /** A statement's first token tells its alternative. */
  lemma StmtHead(s: Stmt)
    ensures StmtTokens(s) != []
    ensures var k := StmtTokens(s)[0].GetType();
      (s.AssignStmt? <==> k == Identifier) && (s.IfStmt? <==> k == If) && (s.DoStmt? <==> k == Do) &&
      (s.ReadStmt? <==> k == Read) && (s.WriteStmt? <==> k == Write)
  {
  }

  lemma AssignSplit(s: Stmt, r: seq<Token>)
    ensures s.AssignStmt? ==>
      StmtTokens(s) + r == [IdentToken(s.target)] + ([Token(Assign)] + (SimpleExprTokens(s.value) + r))
  {
  }

  lemma IfSplit(s: Stmt, r: seq<Token>)
    ensures s.IfStmt? ==>
      StmtTokens(s) + r ==
        [Token(If)] + ([Token(OpenPar)] + (ExprTokens(s.cond) + ([Token(ClosePar)] + ([Token(OpenCur)] +
        (StmtListTokens(s.thenPart) + ([Token(CloseCur)] + (ElseTokens(s.elsePart) + r)))))))
  {
  }

  lemma ElseSplit(e: seq<Stmt>, r: seq<Token>)
    ensures e == [] ==> ElseTokens(e) + r == r
    ensures e != [] ==> ElseTokens(e) + r == [Token(Else)] + ([Token(OpenCur)] + (StmtListTokens(e) + ([Token(CloseCur)] + r)))
  {
  }

  /** The tokens of do-suffix: "while" "(" condition ")". */
  function WhileTokens(c: Expr): seq<Token>
  {
    [Token(While), Token(OpenPar)] + ExprTokens(c) + [Token(ClosePar)]
  }

  lemma WhileSplit(c: Expr, r: seq<Token>)
    ensures WhileTokens(c) + r == [Token(While)] + ([Token(OpenPar)] + (ExprTokens(c) + ([Token(ClosePar)] + r)))
  {
  }

  lemma DoSplit(s: Stmt, r: seq<Token>)
    ensures s.DoStmt? ==>
      StmtTokens(s) + r == [Token(Do)] + ([Token(OpenCur)] + (StmtListTokens(s.body) + ([Token(CloseCur)] + (WhileTokens(s.cond) + r))))
  {
  }

  lemma ReadSplit(s: Stmt, r: seq<Token>)
    ensures s.ReadStmt? ==>
      StmtTokens(s) + r == [Token(Read)] + ([Token(OpenPar)] + ([IdentToken(s.target)] + ([Token(ClosePar)] + r)))
  {
  }

  lemma WriteSplit(s: Stmt, r: seq<Token>)
    ensures s.WriteStmt? ==>
      StmtTokens(s) + r == [Token(Write)] + ([Token(OpenPar)] + (SimpleExprTokens(s.value) + ([Token(ClosePar)] + r)))
  {
  }

  lemma BodySplit(ss: seq<Stmt>, r: seq<Token>)
    ensures [Token(OpenCur)] + StmtListTokens(ss) + [Token(CloseCur)] + r ==
      [Token(OpenCur)] + (StmtListTokens(ss) + ([Token(CloseCur)] + r))
  {
  }

  /** The statements from the `i`-th on: the `i`-th, its semicolon, then the rest. */
  lemma StmtListAt(ss: seq<Stmt>, i: nat, r: seq<Token>)
    ensures i < |ss| ==>
      StmtListTokens(ss[i..]) + r == StmtTokens(ss[i]) + ([Token(SemiColon)] + (StmtListTokens(ss[i + 1..]) + r))
  {
    if i < |ss| {
      assert ss[i..][0] == ss[i] && ss[i..][1..] == ss[i + 1..];
    }
  }

  lemma StmtListStep(ss: seq<Stmt>, s: Stmt, r: seq<Token>)
    ensures StmtListTokens(ss + [s]) + r == StmtListTokens(ss) + (StmtTokens(s) + ([Token(SemiColon)] + r))
  {
    StmtListTokensSnoc(ss, s);
  }

  /** The names from the `i`-th on, each after its comma. */
  lemma MoreNamesAt(names: seq<string>, i: nat, r: seq<Token>)
    ensures i < |names| ==>
      MoreNamesTokens(names[i..]) + r == [Token(Comma)] + ([IdentToken(names[i])] + (MoreNamesTokens(names[i + 1..]) + r))
  {
    if i < |names| {
      assert names[i..][0] == names[i] && names[i..][1..] == names[i + 1..];
    }
  }

  lemma MoreNamesStep(x0: string, more: seq<string>, x: string, r: seq<Token>)
    ensures [IdentToken(x0)] + MoreNamesTokens(more + [x]) + r ==
      [IdentToken(x0)] + MoreNamesTokens(more) + ([Token(Comma)] + ([IdentToken(x)] + r))
  {
    MoreNamesTokensSnoc(more, x);
  }

  lemma DeclSplit(d: Decl, r: seq<Token>)
    ensures DeclTokens(d) + r == [Token(d.ty)] + ([IdentToken(d.first)] + MoreNamesTokens(d.more) + r)
  {
  }

  /** The declarations from the `i`-th on: the `i`-th, its semicolon, then the rest. */
  lemma DeclListAt(ds: seq<Decl>, i: nat, r: seq<Token>)
    ensures i < |ds| ==>
      DeclListTokens(ds[i..]) + r == DeclTokens(ds[i]) + ([Token(SemiColon)] + (DeclListTokens(ds[i + 1..]) + r))
  {
    if i < |ds| {
      assert ds[i..][0] == ds[i] && ds[i..][1..] == ds[i + 1..];
    }
  }

  lemma DeclListStep(ds: seq<Decl>, d: Decl, r: seq<Token>)
    ensures DeclListTokens(ds + [d]) + r == DeclListTokens(ds) + (DeclTokens(d) + ([Token(SemiColon)] + r))
  {
    DeclListTokensSnoc(ds, d);
  }

  lemma ProgramSplit(p: Program, r: seq<Token>)
    ensures ProgramTokens(p) + r ==
      [Token(TokenType.Class)] + ([IdentToken(p.name)] + (DeclListTokens(p.decls) +
      ([Token(OpenCur)] + (StmtListTokens(p.body) + ([Token(CloseCur)] + r)))))
  {
  }

  /** Appending a well-formed, well-typed statement keeps a list well-formed and well-typed. */
  lemma StmtsSnoc(env: Table, ss: seq<Stmt>, s: Stmt)
    requires (ss == [] || WellFormedStmts(ss)) && StmtsOk(env, ss) && WellFormedStmt(s) && StmtOk(env, s)
    ensures WellFormedStmts(ss + [s]) && StmtsOk(env, ss + [s])
  {
    forall i | 0 <= i < |ss + [s]|
      ensures WellFormedStmt((ss + [s])[i]) && StmtOk(env, (ss + [s])[i])
    {
      if i < |ss| {
        assert (ss + [s])[i] == ss[i];
      }
    }
  }

  /** The type of a multiplicative chain whose first step is accepted, in terms of its parts. */
  lemma MulMoreType(env: Table, op: MulOp, left: Type, a: FactorA, rest: MulTail, ta: Type, tr: Type)
    requires FactorAType(env, a) == Some(ta) && MulOperands(op, left, ta)
    requires MulTailType(env, MulResult(op, left), rest) == Some(tr)
    ensures MulTailType(env, left, MulMore(op, a, rest)) ==
      if op == And then (if MulResult(op, left) == BooleanType && (tr == BooleanType || tr == VoidType) then Some(BooleanType) else None)
      else if Compatible(MulResult(op, left), tr) then Some(MulResult(op, left))
      else None
  {
  }

  /** The type of an additive chain whose first step is accepted, in terms of its parts. */
  lemma AddMoreType(env: Table, op: AddOp, left: Type, t: Term, rest: AddTail, tt: Type, tr: Type)
    requires TermType(env, t) == Some(tt) && AddOperands(op, left, tt)
    requires AddTailType(env, left, rest) == Some(tr)
    ensures AddTailType(env, left, AddMore(op, t, rest)) == if Compatible(left, tr) then Some(left) else None
  {
  }

  /** Declaring a single name. */
  lemma DeclareNamesOne(env: Table, x: string, t: Type)
    ensures DeclareNames(env, [x], t) == if IsDeclared(env, x) then None else Some(Declare(env, x, t, Variable))
  {
    assert [x][1..] == [];
  }

  /** Declaring one more name after the first and the ones already declared. */
  lemma DeclareNamesStep(env: Table, first: string, more: seq<string>, x: string, t: Type)
    requires DeclareNames(env, [first] + more, t).Some?
    ensures var e := DeclareNames(env, [first] + more, t).value;
      DeclareNames(env, [first] + (more + [x]), t) == if IsDeclared(e, x) then None else Some(Declare(e, x, t, Variable))
  {
    assert [first] + (more + [x]) == ([first] + more) + [x];
    DeclareNamesSnoc(env, [first] + more, x, t);
  }

  /** A single declaration's table. */
  lemma DeclsEnvOne(env: Table, d: Decl)
    ensures DeclsEnv(env, [d]) == DeclareNames(env, [d.first] + d.more, KeywordType(d.ty))
  {
    assert [d][1..] == [];
  }

  /** Declaring names in two stretches: the second runs against the table the first built. */
  lemma {:induction false} DeclareNamesAppend(env: Table, a: seq<string>, b: seq<string>, t: Type)
    ensures DeclareNames(env, a + b, t) ==
      if DeclareNames(env, a, t).None? then None else DeclareNames(DeclareNames(env, a, t).value, b, t)
    decreases |a|
  {
    if a != [] {
      assert (a + b)[0] == a[0] && (a + b)[1..] == a[1..] + b;
      DeclareNamesAppend(Declare(env, a[0], t, Variable), a[1..], b, t);
    } else {
      assert a + b == b;
    }
  }

  /** A name already declared by the time it comes up rejects the whole list. */
  lemma DeclareNamesBlocked(env: Table, done: seq<string>, names: seq<string>, i: nat, t: Type)
    requires i < |names| && DeclareNames(env, done + names[..i], t).Some?
    requires IsDeclared(DeclareNames(env, done + names[..i], t).value, names[i])
    ensures DeclareNames(env, done + names, t).None?
  {
    assert done + names == (done + names[..i]) + names[i..];
    DeclareNamesAppend(env, done + names[..i], names[i..], t);
    assert names[i..][0] == names[i];
  }

  /** Running declarations in two stretches: the second runs against the table the first built. */
  lemma {:induction false} DeclsEnvAppend(env: Table, a: seq<Decl>, b: seq<Decl>)
    ensures DeclsEnv(env, a + b) == if DeclsEnv(env, a).None? then None else DeclsEnv(DeclsEnv(env, a).value, b)
    decreases |a|
  {
    if a != [] {
      assert (a + b)[0] == a[0] && (a + b)[1..] == a[1..] + b;
      var e := DeclareNames(env, [a[0].first] + a[0].more, KeywordType(a[0].ty));
      if e.Some? {
        DeclsEnvAppend(e.value, a[1..], b);
      }
    } else {
      assert a + b == b;
    }
  }

  /** A declaration that the table built so far rejects rejects the whole list. */
  lemma DeclsEnvBlocked(env: Table, ds: seq<Decl>, i: nat)
    requires i < |ds| && DeclsEnv(env, ds[..i]).Some?
    requires DeclareNames(DeclsEnv(env, ds[..i]).value, [ds[i].first] + ds[i].more, KeywordType(ds[i].ty)).None?
    ensures DeclsEnv(env, ds).None?
  {
    assert ds == ds[..i] + ds[i..];
    DeclsEnvAppend(env, ds[..i], ds[i..]);
    assert ds[i..][0] == ds[i];
  }
}
