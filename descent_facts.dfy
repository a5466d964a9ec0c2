/**
 * What the recursive descent accepts, stated against the grammar and the
 * typing rules.
 *
 * Soundness (the `Sound` lemmas): when a production reads a phrase, the tokens
 * it consumed are exactly the phrase's tokens, and the type it returns is the
 * phrase's type; statements it reads are well formed and well typed, and
 * declarations leave the table the declaration rules build.
 *
 * Completeness (the `Complete` lemmas): on the tokens of any phrase, followed
 * by a token that may legally follow it, the production reads that very phrase
 * when the phrase is well typed, and otherwise stops with a semantic error;
 * where the production's own check is the one that fails, the lemma names the
 * error it reports.
 */
module DescentFacts {
  import opened Wrappers
  import opened TokenTypes
  import opened Tokens
  import opened Semantic
  import opened Scope
  import opened Grammar
  import opened Typing
  import opened ParseFacts
  import opened Descent

  /** A non-empty sequence is its first element followed by the rest. */
  lemma HeadTail(ts: seq<Token>)
    requires ts != []
    ensures ts == [ts[0]] + ts[1..]
  {
  }

  // Soundness of the expression productions.

  lemma {:induction false} ExpressionSound(ts: Pending, env: Table)
    requires Paired(env)
    ensures var p := ParseExpression(ts, env);
      p.Done? ==> ts == ExprTokens(p.phrase) + p.rest && ExprType(env, p.phrase) == Some(p.t)
    decreases |ts|, 6
  {
    var s := ParseSimpleExpr(ts, env);
    SimpleExprSound(ts, env);
    if s.Done? {
      var rel := ParseExprPrime(s.rest, env);
      ExprPrimeSound(s.rest, env);
      if rel.Done? {
        var e := Expr(s.phrase, rel.phrase);
        ExprSplit(e, rel.rest);
        if rel.t == VoidType {
          assert ParseExpression(ts, env) == Done(e, s.t, rel.rest);
        } else if s.t == rel.t {
          assert ParseExpression(ts, env) == Done(e, BooleanType, rel.rest);
        }
      }
    }
  }

  lemma {:induction false} ExprPrimeSound(ts: Pending, env: Table)
    requires Paired(env)
    ensures var p := ParseExprPrime(ts, env);
      p.Done? ==> ts == RelTailTokens(p.phrase) + p.rest && RelTailType(env, p.phrase) == Some(p.t)
    decreases |ts|, 5
  {
    if IsRelOp(Kind(ts)) {
      ComparisonSound(ts, env);
    } else {
      RelTailSplit(NoRel, ts);
    }
  }

  lemma {:induction false} ComparisonSound(ts: Pending, env: Table)
    requires Paired(env) && IsRelOp(Kind(ts))
    ensures var p := ParseComparison(ts, env);
      p.Done? ==> ts == RelTailTokens(p.phrase) + p.rest && RelTailType(env, p.phrase) == Some(p.t)
    decreases |ts|, 4
  {
    var k: RelOp := Kind(ts);
    TokenOfKind(ts[0]);
    HeadTail(ts);
    var op := Relop(ts);
    if op.Done? {
      var s := ParseSimpleExpr(op.rest, env);
      SimpleExprSound(op.rest, env);
      if s.Done? {
        RelTailSplit(Rel(k, s.phrase), s.rest);
      }
    }
  }

  lemma {:induction false} SimpleExprSound(ts: Pending, env: Table)
    requires Paired(env)
    ensures var p := ParseSimpleExpr(ts, env);
      p.Done? ==> ts == SimpleExprTokens(p.phrase) + p.rest && SimpleExprType(env, p.phrase) == Some(p.t)
    decreases |ts|, 5
  {
    var t := ParseTerm(ts, env);
    TermSound(ts, env);
    if t.Done? {
      var m := ParseSimpleExprPrime(t.rest, env, t.t);
      SimpleExprPrimeSound(t.rest, env, t.t);
      if m.Done? && Compatible(t.t, m.t) {
        assert ParseSimpleExpr(ts, env) == Done(SimpleExpr(t.phrase, m.phrase), t.t, m.rest);
        SimpleExprSplit(SimpleExpr(t.phrase, m.phrase), m.rest);
      }
    }
  }

  lemma {:induction false} SimpleExprPrimeSound(ts: Pending, env: Table, left: Type)
    requires Paired(env)
    ensures var p := ParseSimpleExprPrime(ts, env, left);
      p.Done? ==> ts == AddTailTokens(p.phrase) + p.rest && AddTailType(env, left, p.phrase) == Some(p.t)
    decreases |ts|, 4
  {
    var k := Kind(ts);
    if IsAddOp(k) {
      var t := ParseAddOperand(ts, env, left);
      AddOperandSound(ts, env, left);
      if t.Done? {
        var m := ParseSimpleExprPrime(t.rest, env, left);
        SimpleExprPrimeSound(t.rest, env, left);
        if m.Done? && Compatible(left, m.t) {
          var phrase := AddMore(k, t.phrase, m.phrase);
          assert ParseSimpleExprPrime(ts, env, left) == Done(phrase, left, m.rest);
          AddTailSplit(phrase, m.rest);
          AddMoreType(env, k, left, t.phrase, m.phrase, t.t, m.t);
        }
      }
    } else {
      AddTailSplit(AddEnd, ts);
    }
  }

  lemma {:induction false} AddOperandSound(ts: Pending, env: Table, left: Type)
    requires Paired(env) && IsAddOp(Kind(ts))
    ensures var p := ParseAddOperand(ts, env, left);
      p.Done? ==>
        ts == [Token(Kind(ts))] + (TermTokens(p.phrase) + p.rest) && TermType(env, p.phrase) == Some(p.t) &&
        AddOperands(Kind(ts), left, p.t)
    decreases |ts|, 3
  {
    TokenOfKind(ts[0]);
    HeadTail(ts);
    var op := Addop(ts);
    if op.Done? {
      var t := ParseTerm(op.rest, env);
      TermSound(op.rest, env);
      if t.Done? {
        var k: AddOp := Kind(ts);
        AddCheck(k, left, t.t);
      }
    }
  }

  lemma {:induction false} TermSound(ts: Pending, env: Table)
    requires Paired(env)
    ensures var p := ParseTerm(ts, env);
      p.Done? ==> ts == TermTokens(p.phrase) + p.rest && TermType(env, p.phrase) == Some(p.t)
    decreases |ts|, 4
  {
    var a := ParseFactorA(ts, env);
    FactorASound(ts, env);
    if a.Done? {
      var m := ParseTermPrime(a.rest, env, a.t);
      TermPrimeSound(a.rest, env, a.t);
      if m.Done? {
        TermSplit(Term(a.phrase, m.phrase), m.rest);
      }
    }
  }

  lemma {:induction false} TermPrimeSound(ts: Pending, env: Table, left: Type)
    requires Paired(env)
    ensures var p := ParseTermPrime(ts, env, left);
      p.Done? ==> ts == MulTailTokens(p.phrase) + p.rest && MulTailType(env, left, p.phrase) == Some(p.t)
    decreases |ts|, 3
  {
    var k := Kind(ts);
    if IsMulOp(k) {
      var a := ParseMulOperand(ts, env, left);
      MulOperandSound(ts, env, left);
      if a.Done? {
        var result := MulResult(k, left);
        var m := ParseTermPrime(a.rest, env, result);
        TermPrimeSound(a.rest, env, result);
        if m.Done? && MulStepType(k, result, m.t).Ok? {
          var phrase := MulMore(k, a.phrase, m.phrase);
          assert ParseTermPrime(ts, env, left) == Done(phrase, MulStepType(k, result, m.t).value, m.rest);
          MulTailSplit(phrase, m.rest);
          MulMoreType(env, k, left, a.phrase, m.phrase, a.t, m.t);
        }
      }
    } else {
      MulTailSplit(MulEnd, ts);
    }
  }

  lemma {:induction false} MulOperandSound(ts: Pending, env: Table, left: Type)
    requires Paired(env) && IsMulOp(Kind(ts))
    ensures var p := ParseMulOperand(ts, env, left);
      p.Done? ==>
        ts == [Token(Kind(ts))] + (FactorATokens(p.phrase) + p.rest) && FactorAType(env, p.phrase) == Some(p.t) &&
        MulOperands(Kind(ts), left, p.t)
    decreases |ts|, 2
  {
    TokenOfKind(ts[0]);
    HeadTail(ts);
    var op := Mulop(ts);
    if op.Done? {
      var a := ParseFactorA(op.rest, env);
      FactorASound(op.rest, env);
      if a.Done? {
        var k: MulOp := Kind(ts);
        MulCheck(k, left, a.t);
      }
    }
  }

  lemma {:induction false} FactorASound(ts: Pending, env: Table)
    requires Paired(env)
    ensures var p := ParseFactorA(ts, env);
      p.Done? ==> ts == FactorATokens(p.phrase) + p.rest && FactorAType(env, p.phrase) == Some(p.t)
    decreases |ts|, 3
  {
    var k := Kind(ts);
    if k == Not || k == Sub {
      UnaryFactorSound(ts, env);
    } else {
      var f := ParseFactor(ts, env);
      FactorSound(ts, env);
      if f.Done? {
        FactorASplit(Plain(f.phrase), f.rest);
      }
    }
  }

  lemma {:induction false} UnaryFactorSound(ts: Pending, env: Table)
    requires Paired(env) && (Kind(ts) == Not || Kind(ts) == Sub)
    ensures var p := ParseUnaryFactor(ts, env);
      p.Done? ==> ts == FactorATokens(p.phrase) + p.rest && FactorAType(env, p.phrase) == Some(p.t)
    decreases |ts|, 2
  {
    TokenOfKind(ts[0]);
    HeadTail(ts);
    var op := Advance(ts);
    if op.Done? {
      var f := ParseFactor(op.rest, env);
      FactorSound(op.rest, env);
      if f.Done? {
        FactorASplit(LogicalNot(f.phrase), f.rest);
        FactorASplit(UnaryMinus(f.phrase), f.rest);
      }
    }
  }

  lemma {:induction false} FactorSound(ts: Pending, env: Table)
    requires Paired(env)
    ensures var p := ParseFactor(ts, env);
      p.Done? ==> ts == FactorTokens(p.phrase) + p.rest && FactorType(env, p.phrase) == Some(p.t)
    decreases |ts|, 2
  {
    var k := Kind(ts);
    if k == Identifier {
      VariableFactorSound(ts, env);
    } else if k == IntegerConst || k == Literal || k == RealConst {
      ConstantSound(ts, env);
    } else if k == OpenPar {
      ParenFactorSound(ts, env);
    }
  }

  lemma VariableFactorSound(ts: Pending, env: Table)
    requires Paired(env) && Kind(ts) == Identifier
    ensures var p := ParseVariableFactor(ts, env);
      p.Done? ==> ts == FactorTokens(p.phrase) + p.rest && FactorType(env, p.phrase) == Some(p.t)
  {
    UsedNameSound(ts, env);
  }

  /** A constant's type does not depend on the table. */
  lemma ConstantSound(ts: Pending, env: Table)
    requires Kind(ts) == IntegerConst || Kind(ts) == Literal || Kind(ts) == RealConst
    ensures var p := ParseConstant(ts);
      p.Done? ==> ts == FactorTokens(p.phrase) + p.rest && FactorType(env, p.phrase) == Some(p.t)
  {
    HeadTail(ts);
    var k := Kind(ts);
    if |ts| > 1 {
      if k == IntegerConst {
        assert ts[0] == IntegerToken(ts[0].value);
      } else if k == Literal {
        assert ts[0] == WordToken(Literal, ts[0].lexeme);
      } else {
        assert ts[0] == FloatToken(ts[0].text);
      }
    }
  }

  lemma UsedNameSound(ts: Pending, env: Table)
    requires Paired(env)
    ensures var p := ParseUsedName(ts, env);
      p.Done? ==> ts == [IdentToken(p.phrase)] + p.rest && IsVariable(env, p.phrase) && GetType(env, p.phrase) == Some(p.t)
  {
    TokenOfKind(ts[0]);
    HeadTail(ts);
  }

  lemma {:induction false} ParenFactorSound(ts: Pending, env: Table)
    requires Paired(env) && Kind(ts) == OpenPar
    ensures var p := ParseParenFactor(ts, env);
      p.Done? ==> ts == FactorTokens(p.phrase) + p.rest && FactorType(env, p.phrase) == Some(p.t)
    decreases |ts|, 1
  {
    TokenOfKind(ts[0]);
    HeadTail(ts);
    var open := Advance(ts);
    if open.Done? {
      var e := ParseParenRest(open.rest, env);
      ParenRestSound(open.rest, env);
      if e.Done? {
        assert ParseParenFactor(ts, env) == Done(Paren(e.phrase), e.t, e.rest);
        ParenSplit(e.phrase, e.rest);
      }
    }
  }

  lemma {:induction false} ParenRestSound(ts: Pending, env: Table)
    requires Paired(env)
    ensures var p := ParseParenRest(ts, env);
      p.Done? ==> ts == ExprTokens(p.phrase) + ([Token(ClosePar)] + p.rest) && ExprType(env, p.phrase) == Some(p.t)
    decreases |ts|, 7
  {
    var e := ParseExpression(ts, env);
    ExpressionSound(ts, env);
    if e.Done? {
      var close := Eat(e.rest, ClosePar);
      EatSplit(e.rest, ClosePar);
      if close.Done? {
        assert ParseParenRest(ts, env) == Done(e.phrase, e.t, close.rest);
      }
    }
  }

  /** Four stretches of tokens, grouped from the left or from the right. */
  lemma Regroup(a: seq<Token>, b: seq<Token>, c: seq<Token>, d: seq<Token>)
    ensures a + b + c + d == a + (b + (c + d))
  {
  }

  /** A consumed plain token of kind `k` is the token `k` itself. */
  lemma EatSplit(ts: Pending, k: TokenType)
    requires k != EndOfFile && k != Identifier && k != Literal && k != IntegerConst && k != RealConst
    ensures var p := Eat(ts, k); p.Done? ==> ts == [Token(k)] + p.rest
  {
    TokenOfKind(ts[0]);
    HeadTail(ts);
  }

  // Soundness of the statement productions.

  /** A statement in front of a list: the tokens, the shape and the typing of the longer list. */
  lemma ConsStmts(env: Table, s: Stmt, more: seq<Stmt>, r: seq<Token>)
    requires WellFormedStmt(s) && StmtOk(env, s) && (more == [] || WellFormedStmts(more)) && StmtsOk(env, more)
    ensures StmtListTokens([s] + more) + r == StmtTokens(s) + ([Token(SemiColon)] + (StmtListTokens(more) + r))
    ensures WellFormedStmts([s] + more) && StmtsOk(env, [s] + more)
  {
    assert ([s] + more)[0] == s && ([s] + more)[1..] == more;
    forall i | 0 <= i < |[s] + more|
      ensures WellFormedStmt(([s] + more)[i]) && StmtOk(env, ([s] + more)[i])
    {
      if i > 0 {
        assert ([s] + more)[i] == more[i - 1];
      }
    }
  }

  lemma {:induction false} BodySound(ts: Pending, env: Table)
    requires Paired(env)
    ensures var p := ParseBody(ts, env);
      p.Done? ==>
        ts == [Token(OpenCur)] + (StmtListTokens(p.phrase) + ([Token(CloseCur)] + p.rest)) &&
        WellFormedStmts(p.phrase) && StmtsOk(env, p.phrase)
    decreases |ts|, 6
  {
    var open := Eat(ts, OpenCur);
    EatSplit(ts, OpenCur);
    if open.Done? {
      var ss := ParseStmtList(open.rest, env);
      StmtListSound(open.rest, env);
      if ss.Done? {
        var close := Eat(ss.rest, CloseCur);
        EatSplit(ss.rest, CloseCur);
        if close.Done? {
          assert ParseBody(ts, env) == Done(ss.phrase, VoidType, close.rest);
        }
      }
    }
  }

  lemma {:induction false} StmtListSound(ts: Pending, env: Table)
    requires Paired(env)
    ensures var p := ParseStmtList(ts, env);
      p.Done? ==> ts == StmtListTokens(p.phrase) + p.rest && WellFormedStmts(p.phrase) && StmtsOk(env, p.phrase)
    decreases |ts|, 5
  {
    var s := ParseTerminated(ts, env);
    TerminatedSound(ts, env);
    if s.Done? {
      var more := ParseMoreStmts(s.rest, env);
      MoreStmtsSound(s.rest, env);
      if more.Done? {
        ConsStmts(env, s.phrase, more.phrase, more.rest);
      }
    }
  }

  lemma {:induction false} MoreStmtsSound(ts: Pending, env: Table)
    requires Paired(env)
    ensures var p := ParseMoreStmts(ts, env);
      p.Done? ==>
        ts == StmtListTokens(p.phrase) + p.rest && (p.phrase == [] || WellFormedStmts(p.phrase)) && StmtsOk(env, p.phrase)
    decreases |ts|, 4
  {
    if StartsStmt(Kind(ts)) {
      var s := ParseTerminated(ts, env);
      TerminatedSound(ts, env);
      if s.Done? {
        var more := ParseMoreStmts(s.rest, env);
        MoreStmtsSound(s.rest, env);
        if more.Done? {
          ConsStmts(env, s.phrase, more.phrase, more.rest);
        }
      }
    }
  }

  lemma {:induction false} TerminatedSound(ts: Pending, env: Table)
    requires Paired(env)
    ensures var p := ParseTerminated(ts, env);
      p.Done? ==>
        ts == StmtTokens(p.phrase) + ([Token(SemiColon)] + p.rest) && WellFormedStmt(p.phrase) && StmtOk(env, p.phrase)
    decreases |ts|, 3
  {
    var s := ParseStmt(ts, env);
    StmtSound(ts, env);
    if s.Done? {
      EatSplit(s.rest, SemiColon);
    }
  }

  lemma {:induction false} StmtSound(ts: Pending, env: Table)
    requires Paired(env)
    ensures var p := ParseStmt(ts, env);
      p.Done? ==> ts == StmtTokens(p.phrase) + p.rest && WellFormedStmt(p.phrase) && StmtOk(env, p.phrase)
    decreases |ts|, 2
  {
    var k := Kind(ts);
    if k == Identifier {
      AssignStmtSound(ts, env);
    } else if k == If {
      IfStmtSound(ts, env);
    } else if k == Do {
      DoStmtSound(ts, env);
    } else if k == Read {
      ReadStmtSound(ts, env);
    } else if k == Write {
      WriteStmtSound(ts, env);
    }
  }

  lemma AssignStmtSound(ts: Pending, env: Table)
    requires Paired(env)
    ensures var p := ParseAssignStmt(ts, env);
      p.Done? ==> ts == StmtTokens(p.phrase) + p.rest && WellFormedStmt(p.phrase) && StmtOk(env, p.phrase)
  {
    var x := ParseUsedName(ts, env);
    UsedNameSound(ts, env);
    if x.Done? {
      var e := ParseAssignedValue(x.rest, env, x.t);
      AssignedValueSound(x.rest, env, x.t);
      if e.Done? {
        AssignSplit(AssignStmt(x.phrase, e.phrase), e.rest);
      }
    }
  }

  lemma AssignedValueSound(ts: Pending, env: Table, idType: Type)
    requires Paired(env)
    ensures var p := ParseAssignedValue(ts, env, idType);
      p.Done? ==>
        ts == [Token(Assign)] + (SimpleExprTokens(p.phrase) + p.rest) && SimpleExprType(env, p.phrase) == Some(idType) &&
        p.t == idType
  {
    var assign := Eat(ts, Assign);
    EatSplit(ts, Assign);
    if assign.Done? {
      var e := ParseSimpleExpr(assign.rest, env);
      SimpleExprSound(assign.rest, env);
      if e.Done? && idType == e.t {
        assert ParseAssignedValue(ts, env, idType) == e;
      }
    }
  }

  lemma {:induction false} IfStmtSound(ts: Pending, env: Table)
    requires Paired(env)
    ensures var p := ParseIfStmt(ts, env);
      p.Done? ==> ts == StmtTokens(p.phrase) + p.rest && WellFormedStmt(p.phrase) && StmtOk(env, p.phrase)
    decreases |ts|, 1
  {
    var kw := Eat(ts, If);
    EatSplit(ts, If);
    if kw.Done? {
      var c := ParseGuard(kw.rest, env);
      GuardSound(kw.rest, env);
      if c.Done? {
        var t := ParseBody(c.rest, env);
        BodySound(c.rest, env);
        if t.Done? {
          var e := ParseElseStmt(t.rest, env);
          ElseStmtSound(t.rest, env);
          if e.Done? {
            IfSplit(IfStmt(c.phrase, t.phrase, e.phrase), e.rest);
          }
        }
      }
    }
  }

  lemma {:induction false} ElseStmtSound(ts: Pending, env: Table)
    requires Paired(env)
    ensures var p := ParseElseStmt(ts, env);
      p.Done? ==>
        ts == ElseTokens(p.phrase) + p.rest && (p.phrase == [] || WellFormedStmts(p.phrase)) && StmtsOk(env, p.phrase)
    decreases |ts|, 0
  {
    if Kind(ts) != Else {
      ElseSplit([], ts);
    } else {
      var kw := Eat(ts, Else);
      EatSplit(ts, Else);
      if kw.Done? {
        var b := ParseBody(kw.rest, env);
        BodySound(kw.rest, env);
        if b.Done? {
          ElseSplit(b.phrase, b.rest);
        }
      }
    }
  }

  lemma GuardSound(ts: Pending, env: Table)
    requires Paired(env)
    ensures var p := ParseGuard(ts, env);
      p.Done? ==>
        ts == [Token(OpenPar)] + (ExprTokens(p.phrase) + ([Token(ClosePar)] + p.rest)) &&
        ExprType(env, p.phrase) == Some(BooleanType)
  {
    var open := Eat(ts, OpenPar);
    EatSplit(ts, OpenPar);
    if open.Done? {
      var c := ParseCondition(open.rest, env);
      ConditionSound(open.rest, env);
      if c.Done? {
        EatSplit(c.rest, ClosePar);
      }
    }
  }

  lemma ConditionSound(ts: Pending, env: Table)
    requires Paired(env)
    ensures var p := ParseCondition(ts, env);
      p.Done? ==> ts == ExprTokens(p.phrase) + p.rest && ExprType(env, p.phrase) == Some(BooleanType)
  {
    ExpressionSound(ts, env);
  }

  lemma {:induction false} DoStmtSound(ts: Pending, env: Table)
    requires Paired(env)
    ensures var p := ParseDoStmt(ts, env);
      p.Done? ==> ts == StmtTokens(p.phrase) + p.rest && WellFormedStmt(p.phrase) && StmtOk(env, p.phrase)
    decreases |ts|, 1
  {
    var kw := Eat(ts, Do);
    EatSplit(ts, Do);
    if kw.Done? {
      var b := ParseBody(kw.rest, env);
      BodySound(kw.rest, env);
      if b.Done? {
        var c := ParseDoSuffix(b.rest, env);
        DoSuffixSound(b.rest, env);
        if c.Done? {
          DoSplit(DoStmt(b.phrase, c.phrase), c.rest);
        }
      }
    }
  }

  lemma DoSuffixSound(ts: Pending, env: Table)
    requires Paired(env)
    ensures var p := ParseDoSuffix(ts, env);
      p.Done? ==> ts == WhileTokens(p.phrase) + p.rest && ExprType(env, p.phrase) == Some(BooleanType)
  {
    var kw := Eat(ts, While);
    EatSplit(ts, While);
    if kw.Done? {
      var c := ParseGuard(kw.rest, env);
      GuardSound(kw.rest, env);
      if c.Done? {
        WhileSplit(c.phrase, c.rest);
      }
    }
  }

  lemma ReadStmtSound(ts: Pending, env: Table)
    requires Paired(env)
    ensures var p := ParseReadStmt(ts, env);
      p.Done? ==> ts == StmtTokens(p.phrase) + p.rest && WellFormedStmt(p.phrase) && StmtOk(env, p.phrase)
  {
    var kw := Eat(ts, Read);
    EatSplit(ts, Read);
    if kw.Done? {
      var open := Eat(kw.rest, OpenPar);
      EatSplit(kw.rest, OpenPar);
      if open.Done? {
        var x := ParseUsedName(open.rest, env);
        UsedNameSound(open.rest, env);
        if x.Done? {
          var close := Eat(x.rest, ClosePar);
          EatSplit(x.rest, ClosePar);
          if close.Done? {
            ReadSplit(ReadStmt(x.phrase), close.rest);
          }
        }
      }
    }
  }

  lemma WriteStmtSound(ts: Pending, env: Table)
    requires Paired(env)
    ensures var p := ParseWriteStmt(ts, env);
      p.Done? ==> ts == StmtTokens(p.phrase) + p.rest && WellFormedStmt(p.phrase) && StmtOk(env, p.phrase)
  {
    var kw := Eat(ts, Write);
    EatSplit(ts, Write);
    if kw.Done? {
      var open := Eat(kw.rest, OpenPar);
      EatSplit(kw.rest, OpenPar);
      if open.Done? {
        var e := ParseSimpleExpr(open.rest, env);
        SimpleExprSound(open.rest, env);
        if e.Done? {
          var close := Eat(e.rest, ClosePar);
          EatSplit(e.rest, ClosePar);
          if close.Done? {
            WriteSplit(WriteStmt(e.phrase), close.rest);
          }
        }
      }
    }
  }

  // Soundness of the declaration productions.

  lemma DeclTypeSound(ts: Pending)
    ensures var p := ParseDeclType(ts); p.Done? ==> ts == [Token(p.phrase)] + p.rest
  {
    TokenOfKind(ts[0]);
    HeadTail(ts);
  }

  lemma DeclaredNameSound(ts: Pending, env: Table, idType: Type, idClass: Class)
    ensures var p := ParseDeclaredName(ts, env, idType, idClass);
      p.Done? ==>
        ts == [IdentToken(p.phrase.0)] + p.rest && !IsDeclared(env, p.phrase.0) &&
        idType != ErrorType && idClass != ErrorClass && p.phrase.1 == Declare(env, p.phrase.0, idType, idClass)
  {
    TokenOfKind(ts[0]);
    HeadTail(ts);
  }

  /** A name in front of a list of names: the tokens and the declarations of the longer list. */
  lemma ConsNames(env: Table, x: string, more: seq<string>, t: Type, r: seq<Token>)
    ensures MoreNamesTokens([x] + more) + r == [Token(Comma)] + ([IdentToken(x)] + (MoreNamesTokens(more) + r))
    ensures DeclareNames(env, [x] + more, t) ==
      if IsDeclared(env, x) then None else DeclareNames(Declare(env, x, t, Variable), more, t)
  {
    assert ([x] + more)[0] == x && ([x] + more)[1..] == more;
  }

  lemma {:induction false} IdentListSound(ts: Pending, env: Table, t: Type)
    ensures var p := ParseIdentList(ts, env, t);
      p.Done? ==>
        ts == [IdentToken(p.phrase.0[0])] + (MoreNamesTokens(p.phrase.0[1..]) + p.rest) &&
        DeclareNames(env, p.phrase.0, t) == Some(p.phrase.1)
  {
    var first := ParseDeclaredName(ts, env, t, Variable);
    DeclaredNameSound(ts, env, t, Variable);
    if first.Done? {
      var x := first.phrase.0;
      var more := ParseMoreNames(first.rest, first.phrase.1, t);
      MoreNamesSound(first.rest, first.phrase.1, t);
      if more.Done? {
        ConsNames(env, x, more.phrase.0, t, more.rest);
      }
    }
  }

  lemma {:induction false} MoreNamesSound(ts: Pending, env: Table, t: Type)
    ensures var p := ParseMoreNames(ts, env, t);
      p.Done? ==> ts == MoreNamesTokens(p.phrase.0) + p.rest && DeclareNames(env, p.phrase.0, t) == Some(p.phrase.1)
    decreases |ts|
  {
    if Kind(ts) == Comma {
      var comma := Eat(ts, Comma);
      EatSplit(ts, Comma);
      if comma.Done? {
        var x := ParseDeclaredName(comma.rest, env, t, Variable);
        DeclaredNameSound(comma.rest, env, t, Variable);
        if x.Done? {
          var more := ParseMoreNames(x.rest, x.phrase.1, t);
          MoreNamesSound(x.rest, x.phrase.1, t);
          if more.Done? {
            ConsNames(env, x.phrase.0, more.phrase.0, t, more.rest);
          }
        }
      }
    }
  }

  lemma DeclSound(ts: Pending, env: Table)
    ensures var p := ParseDecl(ts, env);
      p.Done? ==>
        ts == DeclTokens(p.phrase.0) + p.rest &&
        DeclareNames(env, [p.phrase.0.first] + p.phrase.0.more, KeywordType(p.phrase.0.ty)) == Some(p.phrase.1)
  {
    var ty := ParseDeclType(ts);
    DeclTypeSound(ts);
    if ty.Done? {
      var names := ParseIdentList(ty.rest, env, ty.t);
      IdentListSound(ty.rest, env, ty.t);
      if names.Done? {
        var d := Decl(ty.phrase, names.phrase.0[0], names.phrase.0[1..]);
        assert ParseDecl(ts, env) == Done((d, names.phrase.1), VoidType, names.rest);
        assert [d.first] + d.more == names.phrase.0;
        assert [Token(d.ty), IdentToken(d.first)] == [Token(d.ty)] + [IdentToken(d.first)];
        Regroup([Token(d.ty)], [IdentToken(d.first)], MoreNamesTokens(d.more), names.rest);
      }
    }
  }

  lemma TerminatedDeclSound(ts: Pending, env: Table)
    ensures var p := ParseTerminatedDecl(ts, env);
      p.Done? ==>
        ts == DeclTokens(p.phrase.0) + ([Token(SemiColon)] + p.rest) &&
        DeclareNames(env, [p.phrase.0.first] + p.phrase.0.more, KeywordType(p.phrase.0.ty)) == Some(p.phrase.1)
  {
    var d := ParseDecl(ts, env);
    DeclSound(ts, env);
    if d.Done? {
      EatSplit(d.rest, SemiColon);
    }
  }

  /** A declaration in front of a list: the tokens and the table of the longer list. */
  lemma ConsDecls(env: Table, d: Decl, more: seq<Decl>, r: seq<Token>)
    ensures DeclListTokens([d] + more) + r == DeclTokens(d) + ([Token(SemiColon)] + (DeclListTokens(more) + r))
    ensures DeclsEnv(env, [d] + more) ==
      match DeclareNames(env, [d.first] + d.more, KeywordType(d.ty))
      case None => None
      case Some(e) => DeclsEnv(e, more)
  {
    assert ([d] + more)[0] == d && ([d] + more)[1..] == more;
  }

  lemma {:induction false} DeclListSound(ts: Pending, env: Table)
    ensures var p := ParseDeclList(ts, env);
      p.Done? ==> ts == DeclListTokens(p.phrase.0) + p.rest && p.phrase.0 != [] && DeclsEnv(env, p.phrase.0) == Some(p.phrase.1)
  {
    var d := ParseTerminatedDecl(ts, env);
    TerminatedDeclSound(ts, env);
    if d.Done? {
      var more := ParseMoreDecls(d.rest, d.phrase.1);
      MoreDeclsSound(d.rest, d.phrase.1);
      if more.Done? {
        ConsDecls(env, d.phrase.0, more.phrase.0, more.rest);
      }
    }
  }

  lemma {:induction false} MoreDeclsSound(ts: Pending, env: Table)
    ensures var p := ParseMoreDecls(ts, env);
      p.Done? ==> ts == DeclListTokens(p.phrase.0) + p.rest && DeclsEnv(env, p.phrase.0) == Some(p.phrase.1)
    decreases |ts|
  {
    var k := Kind(ts);
    if k == Int || k == Float || k == String {
      var d := ParseTerminatedDecl(ts, env);
      TerminatedDeclSound(ts, env);
      if d.Done? {
        var more := ParseMoreDecls(d.rest, d.phrase.1);
        MoreDeclsSound(d.rest, d.phrase.1);
        if more.Done? {
          ConsDecls(env, d.phrase.0, more.phrase.0, more.rest);
        }
      }
    }
  }

  lemma OptionalDeclListSound(ts: Pending, env: Table)
    ensures var p := ParseOptionalDeclList(ts, env);
      p.Done? ==> ts == DeclListTokens(p.phrase.0) + p.rest && DeclsEnv(env, p.phrase.0) == Some(p.phrase.1)
  {
    DeclListSound(ts, env);
  }

  lemma ClassHeaderSound(ts: Pending, env: Table)
    ensures var p := ParseClassHeader(ts, env);
      p.Done? ==>
        ts == [Token(TokenType.Class)] + ([IdentToken(p.phrase.0)] + p.rest) && !IsDeclared(env, p.phrase.0) &&
        p.phrase.1 == Declare(env, p.phrase.0, VoidType, ClassName)
  {
    if Kind(ts) == TokenType.Class {
      TokenOfKind(ts[0]);
      HeadTail(ts);
      var kw := Advance(ts);
      if kw.Done? {
        DeclaredNameSound(kw.rest, env, VoidType, ClassName);
      }
    }
  }

  // Soundness of the whole program.

  /**
   * A program the analyzer reads is written exactly as its tokens, is well
   * formed and well typed, and leaves the table its declarations build.
   */
  lemma ProgramSound(ts: Pending)
    ensures var p := ParseProgram(ts);
      p.Done? ==>
        ts == ProgramTokens(p.phrase.0) + p.rest && ProgramOk(p.phrase.0) && ProgramEnv(p.phrase.0) == Some(p.phrase.1)
  {
    var head := ParseClassHeader(ts, map[]);
    ClassHeaderSound(ts, map[]);
    if head.Done? {
      var decls := ParseOptionalDeclList(head.rest, head.phrase.1);
      OptionalDeclListSound(head.rest, head.phrase.1);
      if decls.Done? {
        var body := ParseBody(decls.rest, decls.phrase.1);
        BodySound(decls.rest, decls.phrase.1);
        if body.Done? {
          var prog := Program(head.phrase.0, decls.phrase.0, body.phrase);
          ProgramSplit(prog, body.rest);
        }
      }
    }
  }

  /**
   * start accepts only a well-typed program followed by end-of-file, and the
   * table it ends with is the one the program's declarations build.
   */
  lemma AnalyzeSound(ts: Lexemes)
    ensures var p := Analyze(ts);
      p.Done? ==>
        ts == ProgramTokens(p.phrase.0) + p.rest && p.rest[0] == Token(EndOfFile) &&
        ProgramOk(p.phrase.0) && ProgramEnv(p.phrase.0) == Some(p.phrase.1)
  {
    if ts != [] {
      var prog := ParseProgram(ts);
      ProgramSound(ts);
      if prog.Done? && Kind(prog.rest) == EndOfFile {
        TokenOfKind(prog.rest[0]);
        assert Analyze(ts) == Done(prog.phrase, VoidType, prog.rest);
      }
    }
  }

  // Completeness of the expression productions.

  /**
   * On the tokens of the phrase `x` followed by `r`, a production reads `x`,
   * of type `t`, and leaves `r` when `t` is a type; when the phrase has no
   * type, the production stops with a semantic error.
   */
  predicate Decided<T(==)>(p: Parsed<T>, x: T, t: Option<Type>, r: seq<Token>)
  {
    if t.Some? then p.Done? && p.phrase == x && p.t == t.value && p.rest == r
    else p.Fail? && p.why.Semantic?
  }

  /** On the tokens after a consumed token, a production reads what is left of `ts`. */
  lemma AdvanceRest(ts: Pending, x: seq<Token>)
    requires |x| > 0 && ts == [ts[0]] + x && ts[0] != Token(EndOfFile)
    ensures Advance(ts).Done? && Advance(ts).rest == x
  {
    assert ts[1..] == x;
  }

  lemma {:induction false} ExpressionComplete(ts: Pending, env: Table, e: Expr, r: seq<Token>)
    requires Paired(env) && ts == ExprTokens(e) + r && EndsExpr(r)
    ensures Decided(ParseExpression(ts, env), e, ExprType(env, e), r)
    ensures var s := SimpleExprType(env, e.left); var rt := RelTailType(env, e.rel);
      s.Some? && rt.Some? && rt.value != VoidType && s.value != rt.value ==>
        ParseExpression(ts, env) == Fail(r, Semantic(BadRelational(s.value, rt.value)))
    decreases |ts|, 6
  {
    ExprSplit(e, r);
    RelTailEndsSimple(e.rel, r);
    SimpleExprComplete(ts, env, e.left, RelTailTokens(e.rel) + r);
    var s := ParseSimpleExpr(ts, env);
    if s.Done? {
      ExprPrimeComplete(s.rest, env, e.rel, r);
    }
  }

  lemma {:induction false} ExprPrimeComplete(ts: Pending, env: Table, rel: RelTail, r: seq<Token>)
    requires Paired(env) && ts == RelTailTokens(rel) + r && EndsExpr(r)
    ensures Decided(ParseExprPrime(ts, env), rel, RelTailType(env, rel), r)
    decreases |ts|, 5
  {
    RelTailSplit(rel, r);
    if rel.Rel? {
      ComparisonComplete(ts, env, rel, r);
    }
  }

  lemma {:induction false} ComparisonComplete(ts: Pending, env: Table, rel: RelTail, r: seq<Token>)
    requires Paired(env) && rel.Rel? && ts == RelTailTokens(rel) + r && EndsExpr(r)
    ensures IsRelOp(Kind(ts))
    ensures Decided(ParseComparison(ts, env), rel, RelTailType(env, rel), r)
    ensures var t := SimpleExprType(env, rel.right);
      t.Some? && IsOrdering(rel.op) && (t.value == StringType || t.value == BooleanType) ==>
        ParseComparison(ts, env) == Fail(r, Semantic(BadRelationalOperand(t.value)))
    decreases |ts|, 4
  {
    RelTailSplit(rel, r);
    AdvanceRest(ts, SimpleExprTokens(rel.right) + r);
    var op := Relop(ts);
    SimpleExprComplete(op.rest, env, rel.right, r);
  }

  lemma {:induction false} SimpleExprComplete(ts: Pending, env: Table, e: SimpleExpr, r: seq<Token>)
    requires Paired(env) && ts == SimpleExprTokens(e) + r && EndsSimple(r)
    ensures Decided(ParseSimpleExpr(ts, env), e, SimpleExprType(env, e), r)
    ensures var t := TermType(env, e.first);
      t.Some? && AddTailType(env, t.value, e.tail).Some? && !Compatible(t.value, AddTailType(env, t.value, e.tail).value) ==>
        ParseSimpleExpr(ts, env) == Fail(r, Semantic(Incompatible(t.value, AddTailType(env, t.value, e.tail).value)))
    decreases |ts|, 5
  {
    SimpleExprSplit(e, r);
    AddTailEndsTerm(e.tail, r);
    TermComplete(ts, env, e.first, AddTailTokens(e.tail) + r);
    var t := ParseTerm(ts, env);
    if t.Done? {
      SimpleExprPrimeComplete(t.rest, env, t.t, e.tail, r);
    }
  }

  lemma {:induction false} SimpleExprPrimeComplete(ts: Pending, env: Table, left: Type, m: AddTail, r: seq<Token>)
    requires Paired(env) && ts == AddTailTokens(m) + r && EndsSimple(r)
    ensures Decided(ParseSimpleExprPrime(ts, env, left), m, AddTailType(env, left, m), r)
    ensures m.AddMore? ==>
      var tt := TermType(env, m.operand); var tail := AddTailType(env, left, m.rest);
      tt.Some? && AddOperands(m.op, left, tt.value) && tail.Some? && !Compatible(left, tail.value) ==>
        ParseSimpleExprPrime(ts, env, left) == Fail(r, Semantic(Incompatible(left, tail.value)))
    decreases |ts|, 4
  {
    AddTailSplit(m, r);
    if m.AddMore? {
      AddTailEndsTerm(m.rest, r);
      AddOperandComplete(ts, env, left, m.op, m.operand, AddTailTokens(m.rest) + r);
      var t := ParseAddOperand(ts, env, left);
      if t.Done? {
        SimpleExprPrimeComplete(t.rest, env, left, m.rest, r);
        var tail := ParseSimpleExprPrime(t.rest, env, left);
        if tail.Done? {
          AddMoreType(env, m.op, left, m.operand, m.rest, t.t, tail.t);
        }
      }
    }
  }

  lemma {:induction false} AddOperandComplete(ts: Pending, env: Table, left: Type, op: AddOp, t: Term, r: seq<Token>)
    requires Paired(env) && ts == [Token(op)] + (TermTokens(t) + r) && EndsTerm(r)
    ensures IsAddOp(Kind(ts))
    ensures var tt := TermType(env, t);
      Decided(ParseAddOperand(ts, env, left), t, if tt.Some? && AddOperands(op, left, tt.value) then tt else None, r)
    ensures var tt := TermType(env, t);
      tt.Some? && !AddOperands(op, left, tt.value) ==> ParseAddOperand(ts, env, left) == Fail(r, Semantic(BadOperands(op, left, tt.value)))
    decreases |ts|, 3
  {
    AdvanceRest(ts, TermTokens(t) + r);
    var o := Addop(ts);
    TermComplete(o.rest, env, t, r);
    var x := ParseTerm(o.rest, env);
    if x.Done? {
      AddCheck(op, left, x.t);
    }
  }

  /** The analyzer's check on the operands of an additive operator is the typing rule. */
  lemma AddCheck(op: AddOp, left: Type, right: Type)
    ensures AddOperands(op, left, right) <==>
      !(left != right || (left == BooleanType) != (op == Or) || (op == Sub && left == StringType))
  {
  }

  lemma {:induction false} TermComplete(ts: Pending, env: Table, t: Term, r: seq<Token>)
    requires Paired(env) && ts == TermTokens(t) + r && EndsTerm(r)
    ensures Decided(ParseTerm(ts, env), t, TermType(env, t), r)
    decreases |ts|, 4
  {
    TermSplit(t, r);
    FactorAComplete(ts, env, t.first, MulTailTokens(t.tail) + r);
    var a := ParseFactorA(ts, env);
    if a.Done? {
      TermPrimeComplete(a.rest, env, a.t, t.tail, r);
      var m := ParseTermPrime(a.rest, env, a.t);
      if m.Done? {
        assert ParseTerm(ts, env) == Done(t, if m.t == VoidType then a.t else m.t, r);
      }
    }
  }

  lemma {:induction false} TermPrimeComplete(ts: Pending, env: Table, left: Type, m: MulTail, r: seq<Token>)
    requires Paired(env) && ts == MulTailTokens(m) + r && EndsTerm(r)
    ensures Decided(ParseTermPrime(ts, env, left), m, MulTailType(env, left, m), r)
    ensures m.MulMore? ==>
      var ta := FactorAType(env, m.operand); var tail := MulTailType(env, MulResult(m.op, left), m.rest);
      ta.Some? && MulOperands(m.op, left, ta.value) && tail.Some? && MulStepType(m.op, MulResult(m.op, left), tail.value).Err? ==>
        ParseTermPrime(ts, env, left) == Fail(r, Semantic(MulStepType(m.op, MulResult(m.op, left), tail.value).error))
    decreases |ts|, 3
  {
    MulTailSplit(m, r);
    if m.MulMore? {
      MulOperandComplete(ts, env, left, m.op, m.operand, MulTailTokens(m.rest) + r);
      var a := ParseMulOperand(ts, env, left);
      if a.Done? {
        TermPrimeComplete(a.rest, env, MulResult(m.op, left), m.rest, r);
        var tail := ParseTermPrime(a.rest, env, MulResult(m.op, left));
        if tail.Done? {
          MulMoreType(env, m.op, left, m.operand, m.rest, a.t, tail.t);
        }
      }
    }
  }

  lemma {:induction false} MulOperandComplete(ts: Pending, env: Table, left: Type, op: MulOp, a: FactorA, r: seq<Token>)
    requires Paired(env) && ts == [Token(op)] + (FactorATokens(a) + r) && r != []
    ensures IsMulOp(Kind(ts))
    ensures var ta := FactorAType(env, a);
      Decided(ParseMulOperand(ts, env, left), a, if ta.Some? && MulOperands(op, left, ta.value) then ta else None, r)
    ensures var ta := FactorAType(env, a);
      ta.Some? && !MulOperands(op, left, ta.value) ==> ParseMulOperand(ts, env, left) == Fail(r, Semantic(BadOperands(op, left, ta.value)))
    decreases |ts|, 2
  {
    AdvanceRest(ts, FactorATokens(a) + r);
    var o := Mulop(ts);
    FactorAComplete(o.rest, env, a, r);
    var x := ParseFactorA(o.rest, env);
    if x.Done? {
      MulCheck(op, left, x.t);
    }
  }

  /** The analyzer's check on the operands of a multiplicative operator is the typing rule. */
  lemma MulCheck(op: MulOp, left: Type, right: Type)
    ensures MulOperands(op, left, right) <==>
      !(left != right || (left == BooleanType) != (op == And) || (op != And && left == StringType))
  {
  }

  lemma {:induction false} FactorAComplete(ts: Pending, env: Table, a: FactorA, r: seq<Token>)
    requires Paired(env) && ts == FactorATokens(a) + r && r != []
    ensures Decided(ParseFactorA(ts, env), a, FactorAType(env, a), r)
    decreases |ts|, 3
  {
    FactorASplit(a, r);
    if a.Plain? {
      FactorHead(a.f);
      FactorComplete(ts, env, a.f, r);
    } else if a.LogicalNot? {
      NotFactorComplete(ts, env, a.f, r);
    } else {
      MinusFactorComplete(ts, env, a.f, r);
    }
  }

  /** A negated factor is read when it is boolean; otherwise `!` reports the operand's type. */
  lemma {:induction false} NotFactorComplete(ts: Pending, env: Table, f: Factor, r: seq<Token>)
    requires Paired(env) && ts == [Token(Not)] + (FactorTokens(f) + r) && r != []
    ensures Kind(ts) == Not
    ensures Decided(ParseUnaryFactor(ts, env), LogicalNot(f), FactorAType(env, LogicalNot(f)), r)
    ensures var t := FactorType(env, f);
      t.Some? && t.value != BooleanType ==> ParseUnaryFactor(ts, env) == Fail(r, Semantic(BadUnaryOperand(Not, t.value)))
    decreases |ts|, 2
  {
    assert ts[0] == Token(Not) && ts[1..] == FactorTokens(f) + r;
    OperandComplete(ts, env, f, r);
    var t := FactorType(env, f);
    assert FactorAType(env, LogicalNot(f)) == if t == Some(BooleanType) then t else None;
  }

  /** A negative factor is read when it is numeric; otherwise `-` reports the operand's type. */
  lemma {:induction false} MinusFactorComplete(ts: Pending, env: Table, f: Factor, r: seq<Token>)
    requires Paired(env) && ts == [Token(Sub)] + (FactorTokens(f) + r) && r != []
    ensures Kind(ts) == Sub
    ensures Decided(ParseUnaryFactor(ts, env), UnaryMinus(f), FactorAType(env, UnaryMinus(f)), r)
    ensures var t := FactorType(env, f);
      t.Some? && t.value != FloatType && t.value != IntType ==>
        ParseUnaryFactor(ts, env) == Fail(r, Semantic(BadUnaryOperand(Sub, t.value)))
    decreases |ts|, 2
  {
    assert ts[0] == Token(Sub) && ts[1..] == FactorTokens(f) + r;
    OperandComplete(ts, env, f, r);
    var t := FactorType(env, f);
    assert FactorAType(env, UnaryMinus(f)) == if t == Some(FloatType) || t == Some(IntType) then t else None;
  }

  /** The factor after a unary operator. */
  lemma {:induction false} OperandComplete(ts: Pending, env: Table, f: Factor, r: seq<Token>)
    requires Paired(env) && |ts| > 1 && ts[0] != Token(EndOfFile) && ts[1..] == FactorTokens(f) + r && r != []
    ensures Advance(ts).Done? && Decided(ParseFactor(Advance(ts).rest, env), f, FactorType(env, f), r)
    decreases |ts|, 1
  {
    FactorComplete(Advance(ts).rest, env, f, r);
  }

  lemma {:induction false} FactorComplete(ts: Pending, env: Table, f: Factor, r: seq<Token>)
    requires Paired(env) && ts == FactorTokens(f) + r && r != []
    ensures Decided(ParseFactor(ts, env), f, FactorType(env, f), r)
    decreases |ts|, 2
  {
    FactorHead(f);
    match f
    case Ident(x) => VariableFactorComplete(ts, env, x, r);
    case Paren(e) => ParenFactorComplete(ts, env, e, r);
    case _ => ConstantComplete(ts, env, f, r);
  }

  lemma VariableFactorComplete(ts: Pending, env: Table, x: string, r: seq<Token>)
    requires Paired(env) && ts == [IdentToken(x)] + r && r != []
    ensures Kind(ts) == Identifier
    ensures Decided(ParseVariableFactor(ts, env), Ident(x), FactorType(env, Ident(x)), r)
  {
    UsedNameComplete(ts, env, x, r);
  }

  /**
   * A name used as a value is read when it is a declared variable; otherwise
   * the analyzer reports that it is not declared, or not a variable.
   */
  lemma UsedNameComplete(ts: Pending, env: Table, x: string, r: seq<Token>)
    requires Paired(env) && ts == [IdentToken(x)] + r && r != []
    ensures Decided(ParseUsedName(ts, env), x, if IsVariable(env, x) then GetType(env, x) else None, r)
    ensures !IsDeclared(env, x) ==> ParseUsedName(ts, env) == Fail(r, Semantic(NotDefined(x)))
    ensures IsDeclared(env, x) && !IsVariable(env, x) ==> ParseUsedName(ts, env) == Fail(r, Semantic(NotA(x, Variable)))
  {
    AdvanceRest(ts, r);
  }

  lemma ConstantComplete(ts: Pending, env: Table, f: Factor, r: seq<Token>)
    requires (f.IntLit? || f.StrLit? || f.RealLit?) && ts == FactorTokens(f) + r && r != []
    ensures Kind(ts) == IntegerConst || Kind(ts) == Literal || Kind(ts) == RealConst
    ensures Decided(ParseConstant(ts), f, FactorType(env, f), r)
  {
    AdvanceRest(ts, r);
  }

  lemma {:induction false} ParenFactorComplete(ts: Pending, env: Table, e: Expr, r: seq<Token>)
    requires Paired(env) && ts == FactorTokens(Paren(e)) + r && r != []
    ensures Kind(ts) == OpenPar
    ensures Decided(ParseParenFactor(ts, env), Paren(e), ExprType(env, e), r)
    decreases |ts|, 1
  {
    ParenSplit(e, r);
    AdvanceRest(ts, ExprTokens(e) + ([Token(ClosePar)] + r));
    var open := Advance(ts);
    ParenRestComplete(open.rest, env, e, r);
  }

  lemma {:induction false} ParenRestComplete(ts: Pending, env: Table, e: Expr, r: seq<Token>)
    requires Paired(env) && ts == ExprTokens(e) + ([Token(ClosePar)] + r) && r != []
    ensures Decided(ParseParenRest(ts, env), e, ExprType(env, e), r)
    decreases |ts|, 7
  {
    ExpressionComplete(ts, env, e, [Token(ClosePar)] + r);
    var x := ParseExpression(ts, env);
    if x.Done? {
      AdvanceRest(x.rest, r);
    }
  }

  // Completeness of the statement productions.

  /** The type a checked phrase without a value is read with: void when its check passes, none otherwise. */
  function Accepted(ok: bool): (t: Option<Type>)
    ensures t.Some? <==> ok
    ensures t.Some? ==> t.value == VoidType
  {
    if ok then Some(VoidType) else None
  }

  /** Eating the plain token the phrase has next consumes it, when more follows. */
  lemma EatNext(ts: Pending, k: TokenType, x: seq<Token>)
    requires |x| > 0 && ts == [Token(k)] + x && k != EndOfFile
    ensures Kind(ts) == k && Eat(ts, k).Done? && Eat(ts, k).rest == x
  {
    AdvanceRest(ts, x);
  }

  /** A list of statements is its first statement, then the rest. */
  lemma StmtsCons(ss: seq<Stmt>, r: seq<Token>)
    requires ss != []
    ensures StmtListTokens(ss) + r == StmtTokens(ss[0]) + ([Token(SemiColon)] + (StmtListTokens(ss[1..]) + r))
    ensures WellFormedStmts(ss) ==> WellFormedStmt(ss[0]) && (ss[1..] == [] || WellFormedStmts(ss[1..]))
  {
    if WellFormedStmts(ss) {
      forall i | 0 <= i < |ss[1..]|
        ensures WellFormedStmt(ss[1..][i])
      {
        assert ss[1..][i] == ss[i + 1];
      }
    }
  }

  /**
   * The first statement of a list, then the others: the list is read when
   * both are, and it is well typed when both are.
   */
  lemma PrependDecided(env: Table, ss: seq<Stmt>, s: Parsed<Stmt>, more: Parsed<seq<Stmt>>, rs: seq<Token>, r: seq<Token>)
    requires ss != [] && Decided(s, ss[0], Accepted(StmtOk(env, ss[0])), rs)
    requires s.Done? ==> Decided(more, ss[1..], Accepted(StmtsOk(env, ss[1..])), r)
    ensures Decided(if s.Fail? then Forward(s) else Prepend([s.phrase], more), ss, Accepted(StmtsOk(env, ss)), r)
  {
    assert [ss[0]] + ss[1..] == ss;
    if StmtOk(env, ss[0]) && StmtsOk(env, ss[1..]) {
      forall i | 0 <= i < |ss|
        ensures StmtOk(env, ss[i])
      {
        if i > 0 {
          assert ss[i] == ss[1..][i - 1];
        }
      }
    }
    if StmtsOk(env, ss) {
      forall i | 0 <= i < |ss[1..]|
        ensures StmtOk(env, ss[1..][i])
      {
        assert ss[1..][i] == ss[i + 1];
      }
    }
  }

  lemma {:induction false} BodyComplete(ts: Pending, env: Table, ss: seq<Stmt>, r: seq<Token>)
    requires Paired(env) && WellFormedStmts(ss) && r != []
    requires ts == [Token(OpenCur)] + (StmtListTokens(ss) + ([Token(CloseCur)] + r))
    ensures Decided(ParseBody(ts, env), ss, Accepted(StmtsOk(env, ss)), r)
    decreases |ts|, 6
  {
    EatNext(ts, OpenCur, StmtListTokens(ss) + ([Token(CloseCur)] + r));
    var open := Eat(ts, OpenCur);
    StmtListComplete(open.rest, env, ss, [Token(CloseCur)] + r);
    var l := ParseStmtList(open.rest, env);
    if l.Done? {
      EatNext(l.rest, CloseCur, r);
    }
  }

  lemma {:induction false} StmtListComplete(ts: Pending, env: Table, ss: seq<Stmt>, r: seq<Token>)
    requires Paired(env) && WellFormedStmts(ss) && ts == StmtListTokens(ss) + r && StartsWith(r, CloseCur)
    ensures Decided(ParseStmtList(ts, env), ss, Accepted(StmtsOk(env, ss)), r)
    decreases |ts|, 5
  {
    StmtsCons(ss, r);
    TerminatedComplete(ts, env, ss[0], StmtListTokens(ss[1..]) + r);
    var s := ParseTerminated(ts, env);
    if s.Done? {
      MoreStmtsComplete(s.rest, env, ss[1..], r);
      PrependDecided(env, ss, s, ParseMoreStmts(s.rest, env), StmtListTokens(ss[1..]) + r, r);
    } else {
      PrependDecided(env, ss, s, Fail([], Lexical), StmtListTokens(ss[1..]) + r, r);
    }
  }

  lemma {:induction false} MoreStmtsComplete(ts: Pending, env: Table, ss: seq<Stmt>, r: seq<Token>)
    requires Paired(env) && (ss == [] || WellFormedStmts(ss)) && ts == StmtListTokens(ss) + r && StartsWith(r, CloseCur)
    ensures Decided(ParseMoreStmts(ts, env), ss, Accepted(StmtsOk(env, ss)), r)
    decreases |ts|, 4
  {
    if ss == [] {
      assert ts == r;
    } else {
      StmtsCons(ss, r);
      StmtHead(ss[0]);
      TerminatedComplete(ts, env, ss[0], StmtListTokens(ss[1..]) + r);
      var s := ParseTerminated(ts, env);
      if s.Done? {
        MoreStmtsComplete(s.rest, env, ss[1..], r);
        PrependDecided(env, ss, s, ParseMoreStmts(s.rest, env), StmtListTokens(ss[1..]) + r, r);
      } else {
        PrependDecided(env, ss, s, Fail([], Lexical), StmtListTokens(ss[1..]) + r, r);
      }
    }
  }

  lemma {:induction false} TerminatedComplete(ts: Pending, env: Table, s: Stmt, r: seq<Token>)
    requires Paired(env) && WellFormedStmt(s) && ts == StmtTokens(s) + ([Token(SemiColon)] + r) && r != []
    ensures Decided(ParseTerminated(ts, env), s, Accepted(StmtOk(env, s)), r)
    decreases |ts|, 3
  {
    StmtComplete(ts, env, s, [Token(SemiColon)] + r);
    var x := ParseStmt(ts, env);
    if x.Done? {
      EatNext(x.rest, SemiColon, r);
    }
  }

  lemma {:induction false} StmtComplete(ts: Pending, env: Table, s: Stmt, r: seq<Token>)
    requires Paired(env) && WellFormedStmt(s) && ts == StmtTokens(s) + r && StartsWith(r, SemiColon)
    ensures Decided(ParseStmt(ts, env), s, Accepted(StmtOk(env, s)), r)
    decreases |ts|, 2
  {
    StmtHead(s);
    match s
    case AssignStmt(x, e) => AssignStmtComplete(ts, env, x, e, r);
    case IfStmt(_, _, _) => IfStmtComplete(ts, env, s, r);
    case DoStmt(_, _) => DoStmtComplete(ts, env, s, r);
    case ReadStmt(x) => ReadStmtComplete(ts, env, x, r);
    case WriteStmt(e) => WriteStmtComplete(ts, env, e, r);
  }

  lemma AssignStmtComplete(ts: Pending, env: Table, x: string, e: SimpleExpr, r: seq<Token>)
    requires Paired(env) && ts == StmtTokens(AssignStmt(x, e)) + r && EndsSimple(r)
    ensures Kind(ts) == Identifier
    ensures Decided(ParseAssignStmt(ts, env), AssignStmt(x, e), Accepted(StmtOk(env, AssignStmt(x, e))), r)
  {
    AssignSplit(AssignStmt(x, e), r);
    UsedNameComplete(ts, env, x, [Token(Assign)] + (SimpleExprTokens(e) + r));
    var n := ParseUsedName(ts, env);
    if n.Done? {
      AssignedValueComplete(n.rest, env, n.t, e, r);
      var v := ParseAssignedValue(n.rest, env, n.t);
      if v.Done? {
        assert ParseAssignStmt(ts, env) == Done(AssignStmt(x, e), VoidType, r);
      }
    }
  }

  /**
   * The value of an assignment is read when its type is the variable's;
   * a value of another type is reported as one that cannot be assigned.
   */
  lemma AssignedValueComplete(ts: Pending, env: Table, idType: Type, e: SimpleExpr, r: seq<Token>)
    requires Paired(env) && ts == [Token(Assign)] + (SimpleExprTokens(e) + r) && EndsSimple(r)
    ensures Decided(ParseAssignedValue(ts, env, idType), e, if SimpleExprType(env, e) == Some(idType) then Some(idType) else None, r)
    ensures var t := SimpleExprType(env, e);
      t.Some? && t.value != idType ==> ParseAssignedValue(ts, env, idType) == Fail(r, Semantic(CannotAssign(t.value, idType)))
  {
    EatNext(ts, Assign, SimpleExprTokens(e) + r);
    var assign := Eat(ts, Assign);
    SimpleExprComplete(assign.rest, env, e, r);
  }

  lemma {:induction false} IfStmtComplete(ts: Pending, env: Table, s: Stmt, r: seq<Token>)
    requires Paired(env) && s.IfStmt? && WellFormedStmt(s) && ts == StmtTokens(s) + r
    requires r != [] && r[0].GetType() != Else
    ensures Kind(ts) == If
    ensures Decided(ParseIfStmt(ts, env), s, Accepted(StmtOk(env, s)), r)
    decreases |ts|, 1
  {
    IfSplit(s, r);
    var afterGuard := [Token(OpenCur)] + (StmtListTokens(s.thenPart) + ([Token(CloseCur)] + (ElseTokens(s.elsePart) + r)));
    EatNext(ts, If, [Token(OpenPar)] + (ExprTokens(s.cond) + ([Token(ClosePar)] + afterGuard)));
    var kw := Eat(ts, If);
    GuardComplete(kw.rest, env, s.cond, afterGuard);
    var c := ParseGuard(kw.rest, env);
    if c.Done? {
      BodyComplete(c.rest, env, s.thenPart, ElseTokens(s.elsePart) + r);
      var t := ParseBody(c.rest, env);
      if t.Done? {
        ElseStmtComplete(t.rest, env, s.elsePart, r);
        var e := ParseElseStmt(t.rest, env);
        if e.Done? {
          assert ParseIfStmt(ts, env) == Done(s, VoidType, r);
        }
      }
    }
  }

  lemma {:induction false} ElseStmtComplete(ts: Pending, env: Table, e: seq<Stmt>, r: seq<Token>)
    requires Paired(env) && (e == [] || WellFormedStmts(e)) && ts == ElseTokens(e) + r
    requires r != [] && r[0].GetType() != Else
    ensures Decided(ParseElseStmt(ts, env), e, Accepted(StmtsOk(env, e)), r)
    decreases |ts|, 0
  {
    ElseSplit(e, r);
    if e != [] {
      EatNext(ts, Else, [Token(OpenCur)] + (StmtListTokens(e) + ([Token(CloseCur)] + r)));
      var kw := Eat(ts, Else);
      BodyComplete(kw.rest, env, e, r);
    }
  }

  lemma GuardComplete(ts: Pending, env: Table, c: Expr, r: seq<Token>)
    requires Paired(env) && ts == [Token(OpenPar)] + (ExprTokens(c) + ([Token(ClosePar)] + r)) && r != []
    ensures Decided(ParseGuard(ts, env), c, Accepted(ExprType(env, c) == Some(BooleanType)), r)
  {
    EatNext(ts, OpenPar, ExprTokens(c) + ([Token(ClosePar)] + r));
    var open := Eat(ts, OpenPar);
    ConditionComplete(open.rest, env, c, [Token(ClosePar)] + r);
    var x := ParseCondition(open.rest, env);
    if x.Done? {
      EatNext(x.rest, ClosePar, r);
    }
  }

  /** A condition is read when it is boolean; an expression of another type is reported as not boolean. */
  lemma ConditionComplete(ts: Pending, env: Table, c: Expr, r: seq<Token>)
    requires Paired(env) && ts == ExprTokens(c) + r && EndsExpr(r)
    ensures Decided(ParseCondition(ts, env), c, Accepted(ExprType(env, c) == Some(BooleanType)), r)
    ensures var t := ExprType(env, c); t.Some? && t.value != BooleanType ==> ParseCondition(ts, env) == Fail(r, Semantic(NotBoolean))
  {
    ExpressionComplete(ts, env, c, r);
  }

  lemma {:induction false} DoStmtComplete(ts: Pending, env: Table, s: Stmt, r: seq<Token>)
    requires Paired(env) && s.DoStmt? && WellFormedStmt(s) && ts == StmtTokens(s) + r && r != []
    ensures Kind(ts) == Do
    ensures Decided(ParseDoStmt(ts, env), s, Accepted(StmtOk(env, s)), r)
    decreases |ts|, 1
  {
    DoSplit(s, r);
    EatNext(ts, Do, [Token(OpenCur)] + (StmtListTokens(s.body) + ([Token(CloseCur)] + (WhileTokens(s.cond) + r))));
    var kw := Eat(ts, Do);
    BodyComplete(kw.rest, env, s.body, WhileTokens(s.cond) + r);
    var b := ParseBody(kw.rest, env);
    if b.Done? {
      DoSuffixComplete(b.rest, env, s.cond, r);
      var c := ParseDoSuffix(b.rest, env);
      if c.Done? {
        assert ParseDoStmt(ts, env) == Done(s, VoidType, r);
      }
    }
  }

  lemma DoSuffixComplete(ts: Pending, env: Table, c: Expr, r: seq<Token>)
    requires Paired(env) && ts == WhileTokens(c) + r && r != []
    ensures Decided(ParseDoSuffix(ts, env), c, Accepted(ExprType(env, c) == Some(BooleanType)), r)
  {
    WhileSplit(c, r);
    EatNext(ts, While, [Token(OpenPar)] + (ExprTokens(c) + ([Token(ClosePar)] + r)));
    var kw := Eat(ts, While);
    GuardComplete(kw.rest, env, c, r);
  }

  lemma ReadStmtComplete(ts: Pending, env: Table, x: string, r: seq<Token>)
    requires Paired(env) && ts == StmtTokens(ReadStmt(x)) + r && r != []
    ensures Kind(ts) == Read
    ensures Decided(ParseReadStmt(ts, env), ReadStmt(x), Accepted(IsVariable(env, x)), r)
  {
    ReadSplit(ReadStmt(x), r);
    EatNext(ts, Read, [Token(OpenPar)] + ([IdentToken(x)] + ([Token(ClosePar)] + r)));
    var kw := Eat(ts, Read);
    EatNext(kw.rest, OpenPar, [IdentToken(x)] + ([Token(ClosePar)] + r));
    var open := Eat(kw.rest, OpenPar);
    UsedNameComplete(open.rest, env, x, [Token(ClosePar)] + r);
    var n := ParseUsedName(open.rest, env);
    if n.Done? {
      EatNext(n.rest, ClosePar, r);
    }
  }

  lemma WriteStmtComplete(ts: Pending, env: Table, e: SimpleExpr, r: seq<Token>)
    requires Paired(env) && ts == StmtTokens(WriteStmt(e)) + r && r != []
    ensures Kind(ts) == Write
    ensures Decided(ParseWriteStmt(ts, env), WriteStmt(e), Accepted(SimpleExprType(env, e).Some?), r)
  {
    WriteSplit(WriteStmt(e), r);
    EatNext(ts, Write, [Token(OpenPar)] + (SimpleExprTokens(e) + ([Token(ClosePar)] + r)));
    var kw := Eat(ts, Write);
    EatNext(kw.rest, OpenPar, SimpleExprTokens(e) + ([Token(ClosePar)] + r));
    var open := Eat(kw.rest, OpenPar);
    WrittenComplete(open.rest, env, e, r);
  }

  /** The value of a write-stmt and the parenthesis after it. */
  lemma WrittenComplete(ts: Pending, env: Table, e: SimpleExpr, r: seq<Token>)
    requires Paired(env) && ts == SimpleExprTokens(e) + ([Token(ClosePar)] + r) && r != []
    ensures var v := ParseSimpleExpr(ts, env);
      Decided(v, e, SimpleExprType(env, e), [Token(ClosePar)] + r) &&
      (v.Done? ==> Eat(v.rest, ClosePar).Done? && Eat(v.rest, ClosePar).rest == r)
  {
    SimpleExprComplete(ts, env, e, [Token(ClosePar)] + r);
    var v := ParseSimpleExpr(ts, env);
    if v.Done? {
      EatNext(v.rest, ClosePar, r);
    }
  }

  // Completeness of the declaration productions.

  /**
   * Like `Decided`, for a phrase read together with the table it leaves: on
   * the tokens of `x` followed by `r`, the production reads `x` and leaves
   * table `e` when there is one, and otherwise stops with a semantic error.
   */
  predicate DecidedWith<T(==)>(p: Parsed<(T, Table)>, x: T, e: Option<Table>, r: seq<Token>)
  {
    if e.Some? then p.Done? && p.phrase == (x, e.value) && p.rest == r
    else p.Fail? && p.why.Semantic?
  }

  lemma DeclTypeComplete(ts: Pending, k: TypeKeyword, r: seq<Token>)
    requires ts == [Token(k)] + r && r != []
    ensures var p := ParseDeclType(ts); p.Done? && p.phrase == k && p.t == KeywordType(k) && p.rest == r
  {
    AdvanceRest(ts, r);
  }

  /**
   * A name being declared is declared when it is new; a name already in the
   * table is reported as already defined.
   */
  lemma DeclaredNameComplete(ts: Pending, env: Table, x: string, idType: Type, idClass: Class, r: seq<Token>)
    requires ts == [IdentToken(x)] + r && r != [] && idType != ErrorType && idClass != ErrorClass
    ensures DecidedWith(ParseDeclaredName(ts, env, idType, idClass), x,
      if IsDeclared(env, x) then None else Some(Declare(env, x, idType, idClass)), r)
    ensures IsDeclared(env, x) ==> ParseDeclaredName(ts, env, idType, idClass) == Fail(r, Semantic(AlreadyDefined(x)))
  {
    AdvanceRest(ts, r);
  }

  lemma {:induction false} IdentListComplete(ts: Pending, env: Table, x: string, more: seq<string>, t: Type, r: seq<Token>)
    requires t != ErrorType && ts == [IdentToken(x)] + (MoreNamesTokens(more) + r) && r != [] && r[0].GetType() != Comma
    ensures DecidedWith(ParseIdentList(ts, env, t), [x] + more, DeclareNames(env, [x] + more, t), r)
  {
    ConsNames(env, x, more, t, r);
    DeclaredNameComplete(ts, env, x, t, Variable, MoreNamesTokens(more) + r);
    var first := ParseDeclaredName(ts, env, t, Variable);
    if first.Done? {
      MoreNamesComplete(first.rest, first.phrase.1, more, t, r);
    }
  }

  lemma {:induction false} MoreNamesComplete(ts: Pending, env: Table, names: seq<string>, t: Type, r: seq<Token>)
    requires t != ErrorType && ts == MoreNamesTokens(names) + r && r != [] && r[0].GetType() != Comma
    ensures DecidedWith(ParseMoreNames(ts, env, t), names, DeclareNames(env, names, t), r)
    decreases |ts|
  {
    if names == [] {
      assert ts == r;
    } else {
      var x := names[0];
      assert names == [x] + names[1..];
      ConsNames(env, x, names[1..], t, r);
      EatNext(ts, Comma, [IdentToken(x)] + (MoreNamesTokens(names[1..]) + r));
      var comma := Eat(ts, Comma);
      DeclaredNameComplete(comma.rest, env, x, t, Variable, MoreNamesTokens(names[1..]) + r);
      var d := ParseDeclaredName(comma.rest, env, t, Variable);
      if d.Done? {
        MoreNamesComplete(d.rest, d.phrase.1, names[1..], t, r);
      }
    }
  }

  lemma DeclComplete(ts: Pending, env: Table, d: Decl, r: seq<Token>)
    requires ts == DeclTokens(d) + r && r != [] && r[0].GetType() != Comma
    ensures DecidedWith(ParseDecl(ts, env), d, DeclareNames(env, [d.first] + d.more, KeywordType(d.ty)), r)
  {
    DeclSplit(d, r);
    assert [IdentToken(d.first)] + MoreNamesTokens(d.more) + r == [IdentToken(d.first)] + (MoreNamesTokens(d.more) + r);
    DeclTypeComplete(ts, d.ty, [IdentToken(d.first)] + (MoreNamesTokens(d.more) + r));
    var ty := ParseDeclType(ts);
    IdentListComplete(ty.rest, env, d.first, d.more, KeywordType(d.ty), r);
    var names := ParseIdentList(ty.rest, env, KeywordType(d.ty));
    if names.Done? {
      assert names.phrase.0[0] == d.first && names.phrase.0[1..] == d.more;
      assert ParseDecl(ts, env) == Done((d, names.phrase.1), VoidType, r);
    }
  }

  lemma TerminatedDeclComplete(ts: Pending, env: Table, d: Decl, r: seq<Token>)
    requires ts == DeclTokens(d) + ([Token(SemiColon)] + r) && r != []
    ensures DecidedWith(ParseTerminatedDecl(ts, env), d, DeclareNames(env, [d.first] + d.more, KeywordType(d.ty)), r)
  {
    DeclComplete(ts, env, d, [Token(SemiColon)] + r);
    var x := ParseDecl(ts, env);
    if x.Done? {
      EatNext(x.rest, SemiColon, r);
    }
  }

  /** The tokens that may follow a declaration list: anything but a type keyword. */
  predicate EndsDecls(r: seq<Token>)
  {
    r != [] && r[0].GetType() != Int && r[0].GetType() != Float && r[0].GetType() != String
  }

  lemma {:induction false} DeclListComplete(ts: Pending, env: Table, ds: seq<Decl>, r: seq<Token>)
    requires ds != [] && ts == DeclListTokens(ds) + r && EndsDecls(r)
    ensures DecidedWith(ParseDeclList(ts, env), ds, DeclsEnv(env, ds), r)
  {
    assert ds == [ds[0]] + ds[1..];
    ConsDecls(env, ds[0], ds[1..], r);
    TerminatedDeclComplete(ts, env, ds[0], DeclListTokens(ds[1..]) + r);
    var d := ParseTerminatedDecl(ts, env);
    if d.Done? {
      MoreDeclsComplete(d.rest, d.phrase.1, ds[1..], r);
    }
  }

  lemma {:induction false} MoreDeclsComplete(ts: Pending, env: Table, ds: seq<Decl>, r: seq<Token>)
    requires ts == DeclListTokens(ds) + r && EndsDecls(r)
    ensures DecidedWith(ParseMoreDecls(ts, env), ds, DeclsEnv(env, ds), r)
    decreases |ts|
  {
    if ds == [] {
      assert ts == r;
    } else {
      assert ds == [ds[0]] + ds[1..];
      ConsDecls(env, ds[0], ds[1..], r);
      DeclSplit(ds[0], [Token(SemiColon)] + (DeclListTokens(ds[1..]) + r));
      TerminatedDeclComplete(ts, env, ds[0], DeclListTokens(ds[1..]) + r);
      var d := ParseTerminatedDecl(ts, env);
      if d.Done? {
        MoreDeclsComplete(d.rest, d.phrase.1, ds[1..], r);
      }
    }
  }

  lemma OptionalDeclListComplete(ts: Pending, env: Table, ds: seq<Decl>, r: seq<Token>)
    requires ts == DeclListTokens(ds) + r && EndsDecls(r)
    ensures DecidedWith(ParseOptionalDeclList(ts, env), ds, DeclsEnv(env, ds), r)
  {
    if ds == [] {
      assert ts == r;
    } else {
      ConsDecls(env, ds[0], ds[1..], r);
      assert ds == [ds[0]] + ds[1..];
      DeclSplit(ds[0], [Token(SemiColon)] + (DeclListTokens(ds[1..]) + r));
      DeclListComplete(ts, env, ds, r);
    }
  }

  lemma ClassHeaderComplete(ts: Pending, env: Table, x: string, r: seq<Token>)
    requires ts == [Token(TokenType.Class)] + ([IdentToken(x)] + r) && r != []
    ensures DecidedWith(ParseClassHeader(ts, env), x,
      if IsDeclared(env, x) then None else Some(Declare(env, x, VoidType, ClassName)), r)
  {
    AdvanceRest(ts, [IdentToken(x)] + r);
    var kw := Advance(ts);
    DeclaredNameComplete(kw.rest, env, x, VoidType, ClassName, r);
  }

  // Completeness of the whole program.

  /**
   * On the tokens of a program, followed by anything, the analyzer reads that
   * program and leaves the table its declarations build when the program is
   * well typed, and otherwise stops with a semantic error.
   */
  lemma ProgramComplete(ts: Pending, prog: Program, r: seq<Token>)
    requires WellFormedStmts(prog.body) && ts == ProgramTokens(prog) + r && r != []
    ensures DecidedWith(ParseProgram(ts), prog, if ProgramOk(prog) then ProgramEnv(prog) else None, r)
  {
    ProgramSplit(prog, r);
    var afterDecls := [Token(OpenCur)] + (StmtListTokens(prog.body) + ([Token(CloseCur)] + r));
    ClassHeaderComplete(ts, map[], prog.name, DeclListTokens(prog.decls) + afterDecls);
    var head := ParseClassHeader(ts, map[]);
    OptionalDeclListComplete(head.rest, head.phrase.1, prog.decls, afterDecls);
    var decls := ParseOptionalDeclList(head.rest, head.phrase.1);
    if decls.Done? {
      BodyComplete(decls.rest, decls.phrase.1, prog.body, r);
      var body := ParseBody(decls.rest, decls.phrase.1);
      if body.Done? {
        assert ParseProgram(ts) == Done((prog, decls.phrase.1), VoidType, r);
      }
    }
  }

  /**
   * start accepts the tokens of a program followed by end-of-file exactly
   * when the program is well typed; it then reads that very program and ends
   * with the table its declarations build, and otherwise it reports a
   * semantic error.
   */
  lemma AnalyzeComplete(ts: Lexemes, prog: Program)
    requires WellFormedStmts(prog.body) && ts == ProgramTokens(prog) + [Token(EndOfFile)]
    ensures var a := Analyze(ts);
      (a.Done? <==> ProgramOk(prog)) &&
      (a.Done? ==> a.phrase == (prog, ProgramEnv(prog).value) && a.t == VoidType && a.rest == [Token(EndOfFile)]) &&
      (a.Fail? ==> a.why.Semantic?)
  {
    ProgramComplete(ts, prog, [Token(EndOfFile)]);
  }
}
