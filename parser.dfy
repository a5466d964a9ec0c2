/**
 * The syntax-directed analyzer: a recursive-descent parser over the lexer's
 * token stream that checks declarations and types as it goes.
 *
 * Each production is a method. Where the source prints a message and stops the
 * process, the method returns the error instead; callers pass an error straight
 * up. Every production promises to do exactly what its counterpart in Descent
 * computes from the tokens still to see and the declarations made so far: on
 * success it returns that type and leaves the lexer in front of the tokens the
 * counterpart leaves; otherwise it returns that error, located on the line the
 * lexer had reached when the counterpart stopped. What the counterparts accept
 * and refuse is proved in Descent; `Start` states the outcome for a whole input.
 */
module Syntactic {
  import opened Wrappers
  import opened TokenTypes
  import opened Tokens
  import opened Semantic
  import opened Scope
  import opened LexSpec
  import opened LexFacts
  import opened Lexical
  import opened Grammar
  import opened Typing
  import opened ParseFacts
  import opened Descent
  import DescentFacts

  /** Why an analysis stops: the three `error` overloads and a lexical exception. */
  datatype Error =
    | LexicalError(cause: LexError)
    | UnexpectedToken(line: int, expected: Option<TokenType>, got: TokenType)
    | SemanticError(line: int, fault: Fault)

  /** What the analyzer needs to know about one successful token request. */
  lemma RequestAnswer(s: seq<Byte>, p: nat, l: int, t: Token, p': nat, l': int)
    requires p <= |s| && Scan(s, p, l) == Lexed(Ok(t), p', l')
    ensures p <= p' <= |s| && l <= l'
    ensures t == Token(EndOfFile) ==> p' == |s|
  {
    ScanProgress(s, p, l);
  }

  /** Every token of a token stream has the shape its kind calls for. */
  lemma {:induction false} StreamShaped(s: seq<Byte>, i: nat, line: int)
    requires i <= |s|
    ensures forall k :: 0 <= k < |TokenStream(s, i, line)| ==> Shaped(TokenStream(s, i, line)[k])
    decreases |s| - i
  {
    var r := Scan(s, i, line);
    if r.result.Ok? {
      ScanProgress(s, i, line);
      WellFormedIsShaped(r.result.value);
      if r.result.value != Token(EndOfFile) {
        StreamShaped(s, r.next, r.line);
        var ts, ts' := TokenStream(s, i, line), TokenStream(s, r.next, r.line);
        assert ts == [r.result.value] + ts';
        forall k | 0 <= k < |ts|
          ensures Shaped(ts[k])
        {
          if k > 0 {
            assert ts[k] == ts'[k - 1];
          }
        }
      }
    }
  }

  class Analyzer {
    const lex: Lexer
    /** The token most recently consumed (null in the source until the first advance). */
    var previous: Option<Token>
    /** The lookahead token (null in the source until `start` reads it). */
    var current: Option<Token>
    /** The token stream of the whole input: what successive requests answer, up to end-of-file or the first failure. */
    ghost const stream: Lexemes
    /** Where the lexer stands before each request of `stream`, and after the last. */
    ghost const marks: seq<Cursor>
    /** The lexer's complaint about the request after the last token of `stream`, when that request fails. */
    ghost const stop: LexError
    /** The position of the lookahead in `stream`. */
    ghost var at: int

    /**
     * The lookahead is the token at `at` of the input's token stream, and the
     * lexer stands just after it; end-of-file comes only once the input is
     * used up; the table's rows have both columns filled or neither.
     */
    ghost predicate Valid()
      reads this, lex
    {
      lex.Valid() && Streamed(lex.input, stream, marks, stop) &&
      current.Some? && 0 <= at < |stream| && current.value == stream[at] &&
      marks[at + 1] == Cursor(lex.pos, lex.lineCounter) &&
      (current.value == Token(EndOfFile) ==> lex.pos == |lex.input|) &&
      Paired(lex.st)
    }

    /** The tokens the analyzer has still to see: the lookahead and the rest of the stream. */
    ghost function Remaining(): Pending
      reads this, lex
      requires Valid()
    {
      stream[at..]
    }

    /** The number of tokens still to see. */
    ghost function Measure(): nat
      reads this, lex
      requires Valid()
    {
      |Remaining()|
    }

    /** The declared part of the shared table, which the typing rules read. */
    ghost function Env(): Table
      reads this, lex
    {
      Declared(lex.st)
    }

    /** The lookahead's kind. */
    function Kind(): TokenType
      reads this
      requires current.Some?
    {
      current.value.GetType()
    }

    /** The line the lexer had reached when the tokens `rest` were still to see. */
    ghost function LineAt(rest: seq<Token>): int
    {
      var k := |stream| - |rest| + 1;
      if 0 <= k < |marks| then marks[k].line else 0
    }

    /** The error the analyzer reports when a production stops because of `why`, with `rest` still to see. */
    ghost function ErrorOf(rest: seq<Token>, why: Failure): Error
    {
      match why
      case Lexical => LexicalError(stop)
      case Unexpected(expected, got) => UnexpectedToken(LineAt(rest), expected, got)
      case Semantic(fault) => SemanticError(LineAt(rest), fault)
    }

    /** A production that returns a type did what `p` says. */
    ghost predicate Yields<T>(p: Parsed<T>, r: Result<Type, Error>)
      reads this, lex
    {
      match p
      case Done(_, t, rest) => r == Ok(t) && Valid() && Remaining() == rest
      case Fail(rest, why) => r == Err(ErrorOf(rest, why))
    }

    /** A production that returns only an error did what `p` says. */
    ghost predicate Settles<T>(p: Parsed<T>, err: Option<Error>)
      reads this, lex
    {
      match p
      case Done(_, _, rest) => err.None? && Valid() && Remaining() == rest
      case Fail(rest, why) => err == Some(ErrorOf(rest, why))
    }

    /** A declaring production did what `p` says, and the declarations are the ones `p` ends with. */
    ghost predicate Declares<T>(p: Parsed<(T, Table)>, err: Option<Error>)
      reads this, lex
    {
      Settles(p, err) && (p.Done? ==> Env() == p.phrase.1)
    }

    /**
     * The analyzer's advance fails exactly when the lexer's next request
     * fails, and then reports that request's complaint.
     */
    lemma AdvanceFailsWithLexer()
      requires Valid()
      ensures var q := Scan(lex.input, lex.pos, lex.lineCounter);
        (Descent.Advance(Remaining()).Fail? <==> q.result.Err?) &&
        (q.result.Err? ==> ErrorOf([], Lexical) == LexicalError(q.result.error))
    {
      ghost var next := Mark(marks, at + 1);
    }

    /** While the analyzer is valid, the line of the tokens still to see is the lexer's line. */
    lemma LineNow()
      requires Valid()
      ensures LineAt(Remaining()) == lex.lineCounter
    {
    }

    /** An analyzer of `input` with an empty table; nothing is read until `Start`. */
    constructor (input: seq<Byte>)
      ensures lex.Valid() && lex.input == input && lex.pos == 0 && lex.lineCounter == 1 && lex.st == map[]
      ensures stream == TokenStream(input, 0, 1) && marks == StreamMarks(input, 0, 1) && stop == StreamStop(input)
      ensures previous.None? && current.None?
      ensures fresh(lex)
    {
      lex := new Lexer(input, map[]);
      previous := None;
      current := None;
      StreamShaped(input, 0, 1);
      stream := TokenStream(input, 0, 1);
      marks := StreamMarks(input, 0, 1);
      stop := StreamStop(input);
      at := 0;
    }

    /**
     * getToken, for the first token: the lookahead becomes the lexer's first
     * answer, and the tokens still to see are the whole input's token stream.
     */
    method GetFirstToken() returns (err: Option<Error>)
      requires lex.Valid() && lex.pos == 0 && lex.lineCounter == 1 && Paired(lex.st)
      requires Streamed(lex.input, stream, marks, stop) && marks[0] == Cursor(0, 1)
      modifies this, lex
      ensures var q := Scan(lex.input, 0, 1);
        (err.Some? <==> q.result.Err?) && (err.Some? ==> err.value == LexicalError(q.result.error))
      ensures err.Some? <==> stream == []
      ensures err.Some? ==> err == Some(ErrorOf([], Lexical))
      ensures err.None? ==> Valid() && Remaining() == stream
      ensures Env() == old(Env())
    {
      ghost var first := Mark(marks, 0);
      var r := lex.NextToken();
      if r.Err? {
        return Some(LexicalError(r.error));
      }
      RequestAnswer(lex.input, 0, 1, r.value, lex.pos, lex.lineCounter);
      RegisterGrows(old(lex.st), if r.value.WordToken? then r.value.lexeme else "");
      current := Some(r.value);
      at := 0;
      err := None;
    }

    /**
     * advance: the lookahead is consumed and the lexer's next answer becomes
     * the lookahead. The lexer fails exactly when its next answer is an
     * error, which happens exactly when the lookahead is the last token of
     * the stream and is not end-of-file.
     */
    method Advance() returns (err: Option<Error>)
      requires Valid()
      modifies this, lex
      ensures Settles(Descent.Advance(old(Remaining())), err)
      ensures var q := Scan(lex.input, old(lex.pos), old(lex.lineCounter));
        (err.Some? <==> q.result.Err?) && (err.Some? ==> err.value == LexicalError(q.result.error))
      ensures err.None? ==> previous == old(current)
      ensures Env() == old(Env())
    {
      ghost var p0, l0, ts := lex.pos, lex.lineCounter, Remaining();
      ghost var next := Mark(marks, at + 1);
      previous := current;
      var r := lex.NextToken();
      ghost var q := Scan(lex.input, p0, l0);
      assert q.result == r;
      if r.Err? {
        assert at + 1 == |stream| && ts == [current.value];
        return Some(LexicalError(r.error));
      }
      RequestAnswer(lex.input, p0, l0, r.value, lex.pos, lex.lineCounter);
      RegisterGrows(old(lex.st), if r.value.WordToken? then r.value.lexeme else "");
      current := Some(r.value);
      if old(current.value) != Token(EndOfFile) {
        at := at + 1;
        assert Remaining() == ts[1..];
      }
      err := None;
    }

    /** eat: consume the lookahead when it has kind `t`; otherwise an unexpected-token error. */
    method Eat(t: TokenType) returns (err: Option<Error>)
      requires Valid()
      modifies this, lex
      ensures Settles(Descent.Eat(old(Remaining()), t), err)
      ensures err.None? ==> previous == old(current)
      ensures Env() == old(Env())
    {
      if Kind() == t {
        err := Advance();
      } else {
        LineNow();
        err := Some(UnexpectedToken(lex.GetLineCounter(), Some(t), Kind()));
      }
    }

    /** error(): the lookahead fits no alternative. */
    function Unexpected(): Error
      reads this, lex
      requires current.Some?
    {
      UnexpectedToken(lex.lineCounter, None, Kind())
    }

    /** checkDeclarationUniqueness: a name being declared must have no row with a filled column. */
    method CheckDeclarationUniqueness(x: string) returns (err: Option<Error>)
      requires lex.Valid()
      ensures err.None? <==> !IsDeclared(lex.st, x)
      ensures err.Some? ==> err.value == SemanticError(lex.lineCounter, AlreadyDefined(x))
    {
      if !(GetClass(lex.st, x).None? && GetType(lex.st, x).None?) {
        return Some(SemanticError(lex.GetLineCounter(), AlreadyDefined(x)));
      }
      return None;
    }

    /** checkUsageUniqueness: a name being used must have a row with a filled column. */
    method CheckUsageUniqueness(x: string) returns (err: Option<Error>)
      requires lex.Valid()
      ensures err.None? <==> IsDeclared(lex.st, x)
      ensures err.Some? ==> err.value == SemanticError(lex.lineCounter, NotDefined(x))
    {
      if GetClass(lex.st, x).None? && GetType(lex.st, x).None? {
        return Some(SemanticError(lex.GetLineCounter(), NotDefined(x)));
      }
      return None;
    }

    /** checkClassCompatibility: the name's class must have code `idClass`. */
    method CheckClassCompatibility(x: string, idClass: int) returns (err: Option<Error>)
      requires lex.Valid() && GetClass(lex.st, x).Some?
      ensures err.None? <==> GetClass(lex.st, x).value.code == idClass
      ensures err.Some? ==> err.value == SemanticError(lex.lineCounter, NotA(x, MakeClass(idClass)))
    {
      if !GetClass(lex.st, x).value.EqualsCode(idClass) {
        return Some(SemanticError(lex.GetLineCounter(), NotA(x, MakeClass(idClass))));
      }
      return None;
    }

    /**
     * checkUsageUniqueness followed by checkClassCompatibility(VARIABLE), as
     * every use of a name as a value does: the name's type when it is a
     * declared variable, otherwise the error of the first check that fails.
     */
    method UsedVariable(x: string) returns (r: Result<Type, Error>)
      requires lex.Valid() && Paired(lex.st)
      ensures r == match VariableUse(Env(), x)
        case Ok(t) => Ok(t)
        case Err(fault) => Err(SemanticError(lex.lineCounter, fault))
    {
      DeclaredLookups(lex.st, x);
      var err := CheckUsageUniqueness(x);
      if err.Some? {
        return Err(err.value);
      }
      err := CheckClassCompatibility(x, VARIABLE);
      if err.Some? {
        return Err(err.value);
      }
      return Ok(GetType(lex.st, x).value);
    }

    /** updateIdentifier: fill both columns of the name's row, refusing the error type and class. */
    method UpdateIdentifier(x: string, idType: Type, idClass: Class) returns (err: Option<Error>)
      requires lex.Valid()
      modifies lex
      ensures idType == ErrorType ==> err == Some(SemanticError(old(lex.lineCounter), TypeIsError)) && lex.st == old(lex.st)
      ensures
        idType != ErrorType && idClass == ErrorClass ==>
        err == Some(SemanticError(old(lex.lineCounter), ClassIsError)) && lex.st == old(lex.st)
      ensures
        idType != ErrorType && idClass != ErrorClass ==>
        err.None? && lex.st == old(lex.st)[x := Row(Some(idType), Some(idClass))]
      ensures lex.pos == old(lex.pos) && lex.lineCounter == old(lex.lineCounter)
      ensures Paired(old(lex.st)) ==> Paired(lex.st)
      ensures Env() == if err.None? then old(Env())[x := Row(Some(idType), Some(idClass))] else old(Env())
    {
      if idType.Equals(ErrorType) {
        return Some(SemanticError(lex.GetLineCounter(), TypeIsError));
      }
      if idClass.Equals(ErrorClass) {
        return Some(SemanticError(lex.GetLineCounter(), ClassIsError));
      }
      DeclaredAfterFill(lex.st, x, idType, idClass);
      lex.st := lex.st[x := Row(Some(idType), Some(idClass))];
      return None;
    }

    // Operators.

    /** relop: consume a relational operator. */
    method Relop() returns (err: Option<Error>)
      requires Valid()
      modifies this, lex
      ensures Settles(Descent.Relop(old(Remaining())), err)
      ensures Env() == old(Env())
    {
      var k := Kind();
      if k == Greater || k == GreaterEqual || k == Lower || k == LowerEqual || k == NotEquals || k == Equals {
        err := Advance();
      } else {
        LineNow();
        err := Some(Unexpected());
      }
    }

    /** addop: consume an additive operator. */
    method Addop() returns (err: Option<Error>)
      requires Valid()
      modifies this, lex
      ensures Settles(Descent.Addop(old(Remaining())), err)
      ensures Env() == old(Env())
    {
      var k := Kind();
      if k == Add || k == Sub || k == Or {
        err := Advance();
      } else {
        LineNow();
        err := Some(Unexpected());
      }
    }

    /** mulop: consume a multiplicative operator. */
    method Mulop() returns (err: Option<Error>)
      requires Valid()
      modifies this, lex
      ensures Settles(Descent.Mulop(old(Remaining())), err)
      ensures Env() == old(Env())
    {
      var k := Kind();
      if k == Mul || k == Div || k == And {
        err := Advance();
      } else {
        LineNow();
        err := Some(Unexpected());
      }
    }

    // Expressions.

    /** expression ::= simple-expr expr-prime */
    method Expression() returns (r: Result<Type, Error>)
      requires Valid()
      modifies this, lex
      decreases Measure(), 6
      ensures Yields(ParseExpression(old(Remaining()), old(Env())), r)
      ensures Env() == old(Env())
    {
      r := SimpleExpr();
      if r.Err? {
        return;
      }
      var left := r.value;
      r := ExprPrime();
      if r.Err? {
        return;
      }
      if r.value.Equals(VoidType) {
        r := Ok(left);
      } else if left.Equals(r.value) {
        r := Ok(BooleanType);
      } else {
        LineNow();
        r := Err(SemanticError(lex.GetLineCounter(), BadRelational(left, r.value)));
      }
    }

    /** expr-prime ::= relop simple-expr | (empty) */
    method ExprPrime() returns (r: Result<Type, Error>)
      requires Valid()
      modifies this, lex
      decreases Measure(), 5
      ensures Yields(ParseExprPrime(old(Remaining()), old(Env())), r)
      ensures Env() == old(Env())
    {
      var k := Kind();
      if k == Greater || k == GreaterEqual || k == Lower || k == LowerEqual || k == NotEquals || k == Equals {
        r := Comparison();
        return;
      }
      return Ok(VoidType);
    }

    /** A relational operator and its right operand. */
    method Comparison() returns (r: Result<Type, Error>)
      requires Valid() && IsRelOp(Kind())
      modifies this, lex
      decreases Measure(), 4
      ensures Yields(ParseComparison(old(Remaining()), old(Env())), r)
      ensures Env() == old(Env())
    {
      var k := Kind();
      var err := Relop();
      if err.Some? {
        return Err(err.value);
      }
      r := SimpleExpr();
      if r.Err? {
        return;
      }
      LineNow();
      err := CheckRelationalOperand(k, r.value);
      if err.Some? {
        return Err(err.value);
      }
    }

    /** `==` and `!=` take any operands; the ordering operators refuse strings and booleans. */
    method CheckRelationalOperand(k: RelOp, t: Type) returns (err: Option<Error>)
      requires lex.Valid()
      ensures err.None? <==> !(IsOrdering(k) && (t == StringType || t == BooleanType))
      ensures err.Some? ==> err.value == SemanticError(lex.lineCounter, BadRelationalOperand(t))
    {
      if (k == NotEquals || k == Equals) || (!t.Equals(StringType) && !t.Equals(BooleanType)) {
        return None;
      }
      return Some(SemanticError(lex.GetLineCounter(), BadRelationalOperand(t)));
    }

    /** simple-expr ::= term simple-expr-prime */
    method SimpleExpr() returns (r: Result<Type, Error>)
      requires Valid()
      modifies this, lex
      decreases Measure(), 5
      ensures Yields(ParseSimpleExpr(old(Remaining()), old(Env())), r)
      ensures Env() == old(Env())
    {
      ghost var ts, env := Remaining(), Env();
      r := Term();
      if r.Err? {
        return;
      }
      ghost var t := ParseTerm(ts, env);
      var termType := r.value;
      r := SimpleExprPrime(termType);
      if r.Err? {
        return;
      }
      ghost var m := ParseSimpleExprPrime(t.rest, env, termType);
      if Compatible(termType, r.value) {
        assert ParseSimpleExpr(ts, env) == Done(Grammar.SimpleExpr(t.phrase, m.phrase), termType, m.rest);
        return Ok(termType);
      }
      LineNow();
      assert ParseSimpleExpr(ts, env) == Fail(m.rest, Semantic(Incompatible(termType, m.t)));
      return Err(SemanticError(lex.GetLineCounter(), Incompatible(termType, r.value)));
    }

    /** simple-expr-prime ::= addop term simple-expr-prime | (empty) */
    method SimpleExprPrime(left: Type) returns (r: Result<Type, Error>)
      requires Valid()
      modifies this, lex
      decreases Measure(), 4
      ensures Yields(ParseSimpleExprPrime(old(Remaining()), old(Env()), left), r)
      ensures Env() == old(Env())
    {
      ghost var ts, env := Remaining(), Env();
      var k := Kind();
      if k == Add || k == Sub || k == Or {
        r := AddOperand(left);
        if r.Err? {
          return;
        }
        ghost var t := ParseAddOperand(ts, env, left);
        r := SimpleExprPrime(left);
        if r.Err? {
          return;
        }
        ghost var m := ParseSimpleExprPrime(t.rest, env, left);
        if Compatible(left, r.value) {
          assert ParseSimpleExprPrime(ts, env, left) == Done(AddMore(k, t.phrase, m.phrase), left, m.rest);
          return Ok(left);
        }
        LineNow();
        assert ParseSimpleExprPrime(ts, env, left) == Fail(m.rest, Semantic(Incompatible(left, m.t)));
        return Err(SemanticError(lex.GetLineCounter(), Incompatible(left, r.value)));
      }
      assert ParseSimpleExprPrime(ts, env, left) == Done(AddEnd, VoidType, ts);
      return Ok(VoidType);
    }

    /** addop term, whose operand types the operator must accept. */
    method AddOperand(left: Type) returns (r: Result<Type, Error>)
      requires Valid() && IsAddOp(Kind())
      modifies this, lex
      decreases Measure(), 3
      ensures Yields(ParseAddOperand(old(Remaining()), old(Env()), left), r)
      ensures Env() == old(Env())
    {
      ghost var ts, env := Remaining(), Env();
      var k := Kind();
      var err := Addop();
      if err.Some? {
        return Err(err.value);
      }
      ghost var op := Descent.Addop(ts);
      r := Term();
      if r.Err? {
        return;
      }
      ghost var x := ParseTerm(op.rest, env);
      var termType := r.value;
      if !left.Equals(termType) || left.Equals(BooleanType) != (k == Or) || (k == Sub && left.Equals(StringType)) {
        LineNow();
        assert ParseAddOperand(ts, env, left) == Fail(x.rest, Semantic(BadOperands(k, left, x.t)));
        return Err(SemanticError(lex.GetLineCounter(), BadOperands(k, left, termType)));
      }
      assert ParseAddOperand(ts, env, left) == x;
    }

    /** term ::= factor-a term-prime */
    method Term() returns (r: Result<Type, Error>)
      requires Valid()
      modifies this, lex
      decreases Measure(), 4
      ensures Yields(ParseTerm(old(Remaining()), old(Env())), r)
      ensures Env() == old(Env())
    {
      r := FactorA();
      if r.Err? {
        return;
      }
      var factorAType := r.value;
      r := TermPrime(factorAType);
      if r.Err? {
        return;
      }
      r := if r.value.Equals(VoidType) then Ok(factorAType) else r;
    }

    /** term-prime ::= mulop factor-a term-prime | (empty) */
    method TermPrime(left: Type) returns (r: Result<Type, Error>)
      requires Valid()
      modifies this, lex
      decreases Measure(), 3
      ensures Yields(ParseTermPrime(old(Remaining()), old(Env()), left), r)
      ensures Env() == old(Env())
    {
      ghost var ts, env := Remaining(), Env();
      var k := Kind();
      if k == Mul || k == Div || k == And {
        r := MulOperand(left);
        if r.Err? {
          return;
        }
        ghost var a := ParseMulOperand(ts, env, left);
        var result := if k == Div then FloatType else left;
        r := TermPrime(result);
        if r.Err? {
          return;
        }
        ghost var m := ParseTermPrime(a.rest, env, result);
        var chain := MulStepType(k, result, r.value);
        if chain.Err? {
          LineNow();
          assert ParseTermPrime(ts, env, left) == Fail(m.rest, Semantic(chain.error));
          return Err(SemanticError(lex.GetLineCounter(), chain.error));
        }
        assert ParseTermPrime(ts, env, left) == Done(MulMore(k, a.phrase, m.phrase), chain.value, m.rest);
        return Ok(chain.value);
      }
      assert ParseTermPrime(ts, env, left) == Done(MulEnd, VoidType, ts);
      return Ok(VoidType);
    }

    /** mulop factor-a, whose operand types the operator must accept. */
    method MulOperand(left: Type) returns (r: Result<Type, Error>)
      requires Valid() && IsMulOp(Kind())
      modifies this, lex
      decreases Measure(), 2
      ensures Yields(ParseMulOperand(old(Remaining()), old(Env()), left), r)
      ensures Env() == old(Env())
    {
      ghost var ts, env := Remaining(), Env();
      var k := Kind();
      var err := Mulop();
      if err.Some? {
        return Err(err.value);
      }
      ghost var op := Descent.Mulop(ts);
      r := FactorA();
      if r.Err? {
        return;
      }
      ghost var x := ParseFactorA(op.rest, env);
      var factorAType := r.value;
      if !left.Equals(factorAType) || left.Equals(BooleanType) != (k == And) || (k != And && left.Equals(StringType)) {
        LineNow();
        assert ParseMulOperand(ts, env, left) == Fail(x.rest, Semantic(BadOperands(k, left, x.t)));
        return Err(SemanticError(lex.GetLineCounter(), BadOperands(k, left, factorAType)));
      }
      assert ParseMulOperand(ts, env, left) == x;
    }

    /** factor-a ::= factor | "!" factor | "-" factor */
    method FactorA() returns (r: Result<Type, Error>)
      requires Valid()
      modifies this, lex
      decreases Measure(), 3
      ensures Yields(ParseFactorA(old(Remaining()), old(Env())), r)
      ensures Env() == old(Env())
    {
      var k := Kind();
      if k == Not || k == Sub {
        r := UnaryFactor();
      } else if k == Identifier || k == OpenPar || k == IntegerConst || k == Literal || k == RealConst {
        r := Factor();
      } else {
        LineNow();
        r := Err(Unexpected());
      }
    }

    /** "!" factor | "-" factor, whose operand type the operator must accept. */
    method UnaryFactor() returns (r: Result<Type, Error>)
      requires Valid() && (Kind() == Not || Kind() == Sub)
      modifies this, lex
      decreases Measure(), 2
      ensures Yields(ParseUnaryFactor(old(Remaining()), old(Env())), r)
      ensures Env() == old(Env())
    {
      ghost var ts, env := Remaining(), Env();
      var k := Kind();
      var err := Advance();
      if err.Some? {
        return Err(err.value);
      }
      ghost var op := Descent.Advance(ts);
      r := Factor();
      if r.Err? {
        return;
      }
      ghost var f := ParseFactor(op.rest, env);
      LineNow();
      if k == Not {
        if !r.value.Equals(BooleanType) {
          assert ParseUnaryFactor(ts, env) == Fail(f.rest, Semantic(BadUnaryOperand(Not, f.t)));
          r := Err(SemanticError(lex.GetLineCounter(), BadUnaryOperand(Not, r.value)));
        } else {
          assert ParseUnaryFactor(ts, env) == Done(LogicalNot(f.phrase), f.t, f.rest);
        }
      } else if !(r.value.Equals(FloatType) || r.value.Equals(IntType)) {
        assert ParseUnaryFactor(ts, env) == Fail(f.rest, Semantic(BadUnaryOperand(Sub, f.t)));
        r := Err(SemanticError(lex.GetLineCounter(), BadUnaryOperand(Sub, r.value)));
      } else {
        assert ParseUnaryFactor(ts, env) == Done(UnaryMinus(f.phrase), f.t, f.rest);
      }
    }

    /** factor ::= identifier | constant | "(" expression ")" */
    method Factor() returns (r: Result<Type, Error>)
      requires Valid()
      modifies this, lex
      decreases Measure(), 2
      ensures Yields(ParseFactor(old(Remaining()), old(Env())), r)
      ensures Env() == old(Env())
    {
      var k := Kind();
      if k == Identifier {
        r := VariableFactor();
      } else if k == IntegerConst || k == Literal || k == RealConst {
        r := Constant();
      } else if k == OpenPar {
        r := ParenFactor();
      } else {
        LineNow();
        r := Err(Unexpected());
      }
    }

    /** A name used as a value: it must be a declared variable, and has its declared type. */
    method VariableFactor() returns (r: Result<Type, Error>)
      requires Valid() && Kind() == Identifier
      modifies this, lex
      ensures Yields(ParseVariableFactor(old(Remaining()), old(Env())), r)
      ensures Env() == old(Env())
    {
      r := UsedName();
    }

    /**
     * An identifier followed by checkUsageUniqueness and
     * checkClassCompatibility(VARIABLE): the variable's type, or the error.
     */
    method UsedName() returns (r: Result<Type, Error>)
      requires Valid()
      modifies this, lex
      ensures Yields(ParseUsedName(old(Remaining()), old(Env())), r)
      ensures Env() == old(Env())
    {
      TokenOfKind(current.value);
      var err := Eat(Identifier);
      if err.Some? {
        return Err(err.value);
      }
      LineNow();
      r := UsedVariable(previous.value.lexeme);
    }

    /** A constant: int for an integer, string for a literal, float for a real. */
    method Constant() returns (r: Result<Type, Error>)
      requires Valid() && (Kind() == IntegerConst || Kind() == Literal || Kind() == RealConst)
      modifies this, lex
      ensures Yields(ParseConstant(old(Remaining())), r)
      ensures Env() == old(Env())
    {
      var k := Kind();
      var err := Advance();
      if err.Some? {
        return Err(err.value);
      }
      if k == IntegerConst {
        r := Ok(IntType);
      } else if k == Literal {
        r := Ok(StringType);
      } else {
        r := Ok(FloatType);
      }
    }

    /** "(" expression ")" */
    method ParenFactor() returns (r: Result<Type, Error>)
      requires Valid() && Kind() == OpenPar
      modifies this, lex
      decreases Measure(), 1
      ensures Yields(ParseParenFactor(old(Remaining()), old(Env())), r)
      ensures Env() == old(Env())
    {
      var err := Advance();
      if err.Some? {
        return Err(err.value);
      }
      r := ParenRest();
    }

    /** The expression inside parentheses and the closing parenthesis. */
    method ParenRest() returns (r: Result<Type, Error>)
      requires Valid()
      modifies this, lex
      decreases Measure(), 7
      ensures Yields(ParseParenRest(old(Remaining()), old(Env())), r)
      ensures Env() == old(Env())
    {
      r := Expression();
      if r.Err? {
        return;
      }
      var err := Eat(ClosePar);
      if err.Some? {
        return Err(err.value);
      }
    }

    // Statements.

    /** body ::= "{" stmt-list "}" */
    method Body() returns (err: Option<Error>)
      requires Valid()
      modifies this, lex
      decreases Measure(), 6
      ensures Settles(ParseBody(old(Remaining()), old(Env())), err)
      ensures Env() == old(Env())
    {
      err := Eat(OpenCur);
      if err.Some? {
        return;
      }
      err := StmtList();
      if err.Some? {
        return;
      }
      err := Eat(CloseCur);
    }

    /** stmt-list ::= stmt ";" { stmt ";" }, read while the lookahead can start a statement. */
    method StmtList() returns (err: Option<Error>)
      requires Valid()
      modifies this, lex
      decreases Measure(), 5
      ensures Settles(ParseStmtList(old(Remaining()), old(Env())), err)
      ensures Env() == old(Env())
    {
      ghost var r0, env := Remaining(), Env();
      err := Terminated();
      if err.Some? {
        return;
      }
      ghost var ss := [ParseTerminated(r0, env).phrase];
      while Kind() == Identifier || Kind() == If || Kind() == Do || Kind() == Read || Kind() == Write
        invariant Valid() && Env() == env && err.None?
        invariant ParseStmtList(r0, env) == Prepend(ss, ParseMoreStmts(Remaining(), env))
        decreases Measure()
      {
        ghost var r1 := Remaining();
        ghost var s := ParseTerminated(r1, env);
        err := Terminated();
        if err.Some? {
          assert ParseMoreStmts(r1, env) == Forward(s);
          return;
        }
        assert ParseMoreStmts(r1, env) == Prepend([s.phrase], ParseMoreStmts(s.rest, env));
        PrependTwice(ss, [s.phrase], ParseMoreStmts(s.rest, env));
        ss := ss + [s.phrase];
      }
    }

    /** A statement and the semicolon after it. */
    method Terminated() returns (err: Option<Error>)
      requires Valid()
      modifies this, lex
      decreases Measure(), 3
      ensures Settles(ParseTerminated(old(Remaining()), old(Env())), err)
      ensures Env() == old(Env())
    {
      err := Stmt();
      if err.Some? {
        return;
      }
      err := Eat(SemiColon);
    }

    /** stmt ::= assign-stmt | if-stmt | do-stmt | read-stmt | write-stmt, chosen by the lookahead. */
    method Stmt() returns (err: Option<Error>)
      requires Valid()
      modifies this, lex
      decreases Measure(), 2
      ensures Settles(ParseStmt(old(Remaining()), old(Env())), err)
      ensures Env() == old(Env())
    {
      var k := Kind();
      if k == Identifier {
        err := AssignStmt();
      } else if k == If {
        err := IfStmt();
      } else if k == Do {
        err := DoStmt();
      } else if k == Read {
        err := ReadStmt();
      } else if k == Write {
        err := WriteStmt();
      } else {
        LineNow();
        err := Some(Unexpected());
      }
    }

    /** assign-stmt ::= identifier "=" simple-expr; the value's type must be the variable's. */
    method AssignStmt() returns (err: Option<Error>)
      requires Valid()
      modifies this, lex
      ensures Settles(ParseAssignStmt(old(Remaining()), old(Env())), err)
      ensures Env() == old(Env())
    {
      var used := UsedName();
      if used.Err? {
        return Some(used.error);
      }
      var r := AssignedValue(used.value);
      if r.Err? {
        return Some(r.error);
      }
      return None;
    }

    /** "=" simple-expr, assigned to a variable of type `idType`. */
    method AssignedValue(idType: Type) returns (r: Result<Type, Error>)
      requires Valid()
      modifies this, lex
      ensures Yields(ParseAssignedValue(old(Remaining()), old(Env()), idType), r)
      ensures Env() == old(Env())
    {
      ghost var ts, env := Remaining(), Env();
      var err := Eat(Assign);
      if err.Some? {
        return Err(err.value);
      }
      ghost var assign := Descent.Eat(ts, Assign);
      r := SimpleExpr();
      if r.Err? {
        return;
      }
      ghost var e := ParseSimpleExpr(assign.rest, env);
      if !idType.Equals(r.value) {
        LineNow();
        assert ParseAssignedValue(ts, env, idType) == Fail(e.rest, Semantic(CannotAssign(e.t, idType)));
        return Err(SemanticError(lex.GetLineCounter(), CannotAssign(r.value, idType)));
      }
      assert ParseAssignedValue(ts, env, idType) == e;
    }

    /** if-stmt ::= "if" "(" condition ")" "{" stmt-list "}" else-stmt */
    method IfStmt() returns (err: Option<Error>)
      requires Valid()
      modifies this, lex
      decreases Measure(), 1
      ensures Settles(ParseIfStmt(old(Remaining()), old(Env())), err)
      ensures Env() == old(Env())
    {
      err := Eat(If);
      if err.Some? {
        return;
      }
      err := Guard();
      if err.Some? {
        return;
      }
      err := Body();
      if err.Some? {
        return;
      }
      err := ElseStmt();
    }

    /** else-stmt ::= "else" "{" stmt-list "}" | (empty) */
    method ElseStmt() returns (err: Option<Error>)
      requires Valid()
      modifies this, lex
      decreases Measure(), 0
      ensures Settles(ParseElseStmt(old(Remaining()), old(Env())), err)
      ensures Env() == old(Env())
    {
      if Kind() != Else {
        return None;
      }
      err := Eat(Else);
      if err.Some? {
        return;
      }
      err := Body();
    }

    /** "(" condition ")" */
    method Guard() returns (err: Option<Error>)
      requires Valid()
      modifies this, lex
      ensures Settles(ParseGuard(old(Remaining()), old(Env())), err)
      ensures Env() == old(Env())
    {
      err := Eat(OpenPar);
      if err.Some? {
        return;
      }
      err := Condition();
      if err.Some? {
        return;
      }
      err := Eat(ClosePar);
    }

    /** condition ::= expression, which must be boolean. */
    method Condition() returns (err: Option<Error>)
      requires Valid()
      modifies this, lex
      ensures Settles(ParseCondition(old(Remaining()), old(Env())), err)
      ensures Env() == old(Env())
    {
      var r := Expression();
      if r.Err? {
        return Some(r.error);
      }
      if !r.value.Equals(BooleanType) {
        LineNow();
        return Some(SemanticError(lex.GetLineCounter(), NotBoolean));
      }
      return None;
    }

    /** do-stmt ::= "do" "{" stmt-list "}" do-suffix */
    method DoStmt() returns (err: Option<Error>)
      requires Valid()
      modifies this, lex
      decreases Measure(), 1
      ensures Settles(ParseDoStmt(old(Remaining()), old(Env())), err)
      ensures Env() == old(Env())
    {
      err := Eat(Do);
      if err.Some? {
        return;
      }
      err := Body();
      if err.Some? {
        return;
      }
      err := DoSuffix();
    }

    /** do-suffix ::= "while" "(" condition ")" */
    method DoSuffix() returns (err: Option<Error>)
      requires Valid()
      modifies this, lex
      ensures Settles(ParseDoSuffix(old(Remaining()), old(Env())), err)
      ensures Env() == old(Env())
    {
      err := Eat(While);
      if err.Some? {
        return;
      }
      err := Guard();
    }

    /** read-stmt ::= "read" "(" identifier ")"; the name must be a declared variable. */
    method ReadStmt() returns (err: Option<Error>)
      requires Valid()
      modifies this, lex
      ensures Settles(ParseReadStmt(old(Remaining()), old(Env())), err)
      ensures Env() == old(Env())
    {
      err := Eat(Read);
      if err.Some? {
        return;
      }
      err := Eat(OpenPar);
      if err.Some? {
        return;
      }
      var used := UsedName();
      if used.Err? {
        return Some(used.error);
      }
      err := Eat(ClosePar);
    }

    /** write-stmt ::= "write" "(" writable ")", where writable is a simple expression of any type. */
    method WriteStmt() returns (err: Option<Error>)
      requires Valid()
      modifies this, lex
      ensures Settles(ParseWriteStmt(old(Remaining()), old(Env())), err)
      ensures Env() == old(Env())
    {
      err := Eat(Write);
      if err.Some? {
        return;
      }
      err := Eat(OpenPar);
      if err.Some? {
        return;
      }
      var r := SimpleExpr();
      if r.Err? {
        return Some(r.error);
      }
      err := Eat(ClosePar);
    }

    // Declarations.

    /** type ::= "int" | "string" | "float" */
    method DeclType() returns (r: Result<Type, Error>)
      requires Valid()
      modifies this, lex
      ensures Yields(ParseDeclType(old(Remaining())), r)
      ensures Env() == old(Env())
    {
      var kind := Kind();
      if kind == Int || kind == String || kind == Float {
        var err := Advance();
        if err.Some? {
          return Err(err.value);
        }
        r := Ok(if kind == Int then MakeType(INT) else if kind == String then MakeType(STRING) else MakeType(FLOAT));
      } else {
        LineNow();
        r := Err(Unexpected());
      }
    }

    /**
     * A name being declared with type `idType` and class `idClass`: one name of
     * an ident-list, or the class name after "class".
     */
    method DeclaredName(idType: Type, idClass: Class) returns (err: Option<Error>)
      requires Valid()
      modifies this, lex
      ensures Declares(ParseDeclaredName(old(Remaining()), old(Env()), idType, idClass), err)
    {
      TokenOfKind(current.value);
      err := Eat(Identifier);
      if err.Some? {
        return;
      }
      LineNow();
      var lexeme := previous.value.lexeme;
      DeclaredLookups(lex.st, lexeme);
      err := CheckDeclarationUniqueness(lexeme);
      if err.Some? {
        return;
      }
      err := UpdateIdentifier(lexeme, idType, idClass);
    }

    /** ident-list ::= identifier { "," identifier }; each name becomes a variable of type `idType`. */
    method IdentList(idType: Type) returns (err: Option<Error>)
      requires Valid()
      modifies this, lex
      ensures Declares(ParseIdentList(old(Remaining()), old(Env()), idType), err)
    {
      ghost var r0, env0 := Remaining(), Env();
      err := DeclaredName(idType, MakeClass(VARIABLE));
      if err.Some? {
        return;
      }
      ghost var names := [ParseDeclaredName(r0, env0, idType, Variable).phrase.0];
      while Kind() == Comma
        invariant Valid() && err.None?
        invariant ParseIdentList(r0, env0, idType) == PrependDeclared(names, ParseMoreNames(Remaining(), Env(), idType))
        decreases Measure()
      {
        ghost var r1, env1 := Remaining(), Env();
        ghost var comma := Descent.Eat(r1, Comma);
        err := Eat(Comma);
        if err.Some? {
          assert ParseMoreNames(r1, env1, idType) == Forward(comma);
          return;
        }
        ghost var x := ParseDeclaredName(comma.rest, env1, idType, Variable);
        err := DeclaredName(idType, MakeClass(VARIABLE));
        if err.Some? {
          assert ParseMoreNames(r1, env1, idType) == Forward(x);
          return;
        }
        assert ParseMoreNames(r1, env1, idType) ==
          PrependDeclared([x.phrase.0], ParseMoreNames(x.rest, x.phrase.1, idType));
        PrependDeclaredTwice(names, [x.phrase.0], ParseMoreNames(x.rest, x.phrase.1, idType));
        names := names + [x.phrase.0];
      }
    }

    /** decl ::= type ident-list */
    method Decl() returns (err: Option<Error>)
      requires Valid()
      modifies this, lex
      ensures Declares(ParseDecl(old(Remaining()), old(Env())), err)
    {
      var r := DeclType();
      if r.Err? {
        return Some(r.error);
      }
      err := IdentList(r.value);
    }

    /** A declaration and the semicolon after it. */
    method TerminatedDecl() returns (err: Option<Error>)
      requires Valid()
      modifies this, lex
      ensures Declares(ParseTerminatedDecl(old(Remaining()), old(Env())), err)
    {
      err := Decl();
      if err.Some? {
        return;
      }
      err := Eat(SemiColon);
    }

    /** decl-list ::= decl ";" { decl ";" }, read while the lookahead is a type keyword. */
    method DeclList() returns (err: Option<Error>)
      requires Valid()
      modifies this, lex
      ensures Declares(ParseDeclList(old(Remaining()), old(Env())), err)
    {
      ghost var r0, env0 := Remaining(), Env();
      err := TerminatedDecl();
      if err.Some? {
        return;
      }
      ghost var ds := [ParseTerminatedDecl(r0, env0).phrase.0];
      while Kind() == Int || Kind() == Float || Kind() == String
        invariant Valid() && err.None?
        invariant ParseDeclList(r0, env0) == PrependDeclared(ds, ParseMoreDecls(Remaining(), Env()))
        decreases Measure()
      {
        ghost var r1, env1 := Remaining(), Env();
        ghost var d := ParseTerminatedDecl(r1, env1);
        err := TerminatedDecl();
        if err.Some? {
          assert ParseMoreDecls(r1, env1) == Forward(d);
          return;
        }
        assert ParseMoreDecls(r1, env1) == PrependDeclared([d.phrase.0], ParseMoreDecls(d.rest, d.phrase.1));
        PrependDeclaredTwice(ds, [d.phrase.0], ParseMoreDecls(d.rest, d.phrase.1));
        ds := ds + [d.phrase.0];
      }
    }

    /** The optional decl-list of a program, present when the lookahead is a type keyword. */
    method OptionalDeclList() returns (err: Option<Error>)
      requires Valid()
      modifies this, lex
      ensures Declares(ParseOptionalDeclList(old(Remaining()), old(Env())), err)
    {
      if Kind() == Int || Kind() == Float || Kind() == String {
        err := DeclList();
      } else {
        err := None;
      }
    }

    // The whole program.

    /** "class" identifier: the class name is declared with type void and class CLASS. */
    method ClassHeader() returns (err: Option<Error>)
      requires Valid()
      modifies this, lex
      ensures Declares(ParseClassHeader(old(Remaining()), old(Env())), err)
    {
      if Kind() != TokenType.Class {
        LineNow();
        return Some(Unexpected());
      }
      err := Advance();
      if err.Some? {
        return;
      }
      err := DeclaredName(MakeType(VOID), MakeClass(CLASS));
    }

    /** program ::= "class" identifier [decl-list] body, read against an empty table. */
    method Program() returns (err: Option<Error>)
      requires Valid() && Env() == map[]
      modifies this, lex
      ensures Declares(ParseProgram(old(Remaining())), err)
    {
      err := ClassHeader();
      if err.Some? {
        return;
      }
      err := OptionalDeclList();
      if err.Some? {
        return;
      }
      err := Body();
    }

    /**
     * start: read the first token, analyze a program and demand end-of-file,
     * as `Analyze` does on the input's token stream.
     */
    method Start() returns (err: Option<Error>)
      requires lex.Valid() && lex.pos == 0 && lex.lineCounter == 1 && lex.st == map[]
      requires stream == TokenStream(lex.input, 0, 1) && marks == StreamMarks(lex.input, 0, 1)
      requires stop == StreamStop(lex.input)
      modifies this, lex
      ensures Declares(Analyze(stream), err)
      ensures Scan(lex.input, 0, 1).result.Err? ==> err == Some(LexicalError(Scan(lex.input, 0, 1).result.error))
      ensures forall prog: Grammar.Program {:trigger ProgramTokens(prog)} ::
        WellFormedStmts(prog.body) && stream == ProgramTokens(prog) + [Token(EndOfFile)] ==> (err.None? <==> ProgramOk(prog))
    {
      StreamedFromStart(lex.input);
      err := GetFirstToken();
      if err.None? {
        assert Env() == map[];
        err := Program();
        if err.None? {
          err := Eat(EndOfFile);
        }
      }
      Verdict(err);
    }

    /**
     * Once the analysis did what `Analyze` says, the token stream of a
     * program is accepted exactly when the program is well typed.
     */
    lemma Verdict(err: Option<Error>)
      requires Declares(Analyze(stream), err)
      ensures forall prog: Grammar.Program {:trigger ProgramTokens(prog)} ::
        WellFormedStmts(prog.body) && stream == ProgramTokens(prog) + [Token(EndOfFile)] ==> (err.None? <==> ProgramOk(prog))
    {
      forall prog: Grammar.Program | WellFormedStmts(prog.body) && stream == ProgramTokens(prog) + [Token(EndOfFile)]
        ensures err.None? <==> ProgramOk(prog)
      {
        DescentFacts.AnalyzeComplete(stream, prog);
      }
    }
  }
}
