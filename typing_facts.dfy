/**
 * Closed forms of the typing rules: what an operator chain, a term, a simple
 * expression, an expression and a declaration list are accepted as, stated
 * without the left-to-right threading of types.
 */
module TypingFacts {
  import opened Wrappers
  import opened TokenTypes
  import opened Semantic
  import opened Scope
  import opened Grammar
  import opened Typing

  // Additive chains.

  /**
   * compatibleTypes treats void as a wildcard: the relation is reflexive and
   * symmetric, but not transitive (int and float are each compatible with void,
   * not with each other), and two non-void types are compatible only when equal.
   */
  lemma CompatibleIsWildcard(a: Type, b: Type)
    ensures Compatible(a, a) && (Compatible(a, b) <==> Compatible(b, a))
    ensures Compatible(VoidType, a)
    ensures a != VoidType && b != VoidType ==> (Compatible(a, b) <==> a == b)
    ensures Compatible(IntType, VoidType) && Compatible(VoidType, FloatType) && !Compatible(IntType, FloatType)
  {
  }

  /** Every operand of the chain has type `t`, and every operator accepts `t`. */
  predicate AddChain(env: Table, t: Type, m: AddTail)
  {
    match m
    case AddEnd => true
    case AddMore(op, operand, rest) => TermType(env, operand) == Some(t) && AddOperands(op, t, t) && AddChain(env, t, rest)
  }

  /** An additive chain is void when empty, keeps its left type when every operand agrees with it, and fails otherwise. */
  lemma {:induction false} AddTailTypeSpec(env: Table, left: Type, m: AddTail)
    ensures AddTailType(env, left, m) == (if !AddChain(env, left, m) then None else if m == AddEnd then Some(VoidType) else Some(left))
  {
    if m.AddMore? {
      AddTailTypeSpec(env, left, m.rest);
    }
  }

  /**
   * `+`, `-` and `||` keep their left type: a simple expression has type `t`
   * exactly when its first term has type `t` and so does every other term,
   * with `+` refusing booleans, `-` refusing booleans and strings, and `||`
   * taking only booleans.
   */
  lemma SimpleExprTyping(env: Table, e: SimpleExpr, t: Type)
    ensures SimpleExprType(env, e) == Some(t) <==> TermType(env, e.first) == Some(t) && AddChain(env, t, e.tail)
  {
    var first := TermType(env, e.first);
    if first.Some? {
      AddTailTypeSpec(env, first.value, e.tail);
    }
  }

  // Multiplicative chains.

  /** Every operator of the chain is one of `ops` and every operand has type `t`. */
  predicate MulChain(env: Table, t: Type, m: MulTail, ops: set<MulOp>)
  {
    match m
    case MulEnd => true
    case MulMore(op, operand, rest) => op in ops && FactorAType(env, operand) == Some(t) && MulChain(env, t, rest, ops)
  }

  /**
   * What a multiplicative chain after an operand of type `left` is accepted
   * as: a boolean left takes only `&&` and booleans; a float left takes `*`
   * and `/` with floats; a string left takes nothing; an int left takes `*`
   * with ints, or a `/` by an int followed by a chain that is valid for float.
   */
  function MulChainType(env: Table, left: Type, m: MulTail): Option<Type>
  {
    if m == MulEnd then Some(VoidType)
    else if left == BooleanType then (if MulChain(env, left, m, {And}) then Some(left) else None)
    else if left == FloatType then (if MulChain(env, left, m, {Mul, Div}) then Some(left) else None)
    else if left == StringType then None
    else if MulChain(env, left, m, {Mul}) then Some(left)
    else if m.op == Div && FactorAType(env, m.operand) == Some(left) && MulChain(env, FloatType, m.rest, {Mul, Div}) then Some(FloatType)
    else None
  }

  lemma {:induction false} MulTailTypeSpec(env: Table, left: Type, m: MulTail)
    requires Concrete(left)
    ensures MulTailType(env, left, m) == MulChainType(env, left, m)
    decreases m
  {
    match m
    case MulEnd =>
    case MulMore(op, a, rest) =>
      var t := FactorAType(env, a);
      if t.Some? && MulOperands(op, left, t.value) {
        var r := MulResult(op, left);
        MulTailTypeSpec(env, r, rest);
        if left == IntType && op == Mul {
          assert MulChain(env, left, m, {Mul}) == MulChain(env, left, rest, {Mul});
        } else if left == IntType {
          IntDivChain(env, m);
        } else if left == BooleanType {
          assert op == And && r == left;
          assert MulChain(env, left, m, {And}) == MulChain(env, left, rest, {And});
        } else {
          assert left == FloatType && r == left;
          assert MulChain(env, left, m, {Mul, Div}) == MulChain(env, left, rest, {Mul, Div});
        }
      } else if left == BooleanType {
        assert !MulChain(env, left, m, {And});
      } else if left == FloatType {
        assert !MulChain(env, left, m, {Mul, Div});
      } else if left == IntType {
        assert !MulChain(env, left, m, {Mul});
      }
  }

  /** The step of MulTailTypeSpec where an int is divided: the rest must be a float chain. */
  lemma IntDivChain(env: Table, m: MulTail)
    requires m.MulMore? && m.op == Div && FactorAType(env, m.operand) == Some(IntType)
    requires MulTailType(env, FloatType, m.rest) == MulChainType(env, FloatType, m.rest)
    ensures MulTailType(env, IntType, m) == MulChainType(env, IntType, m)
  {
    assert !MulChain(env, IntType, m, {Mul});
    assert MulTailType(env, FloatType, m.rest).Some? <==> MulChain(env, FloatType, m.rest, {Mul, Div});
    assert MulChainType(env, IntType, m) == (if MulChain(env, FloatType, m.rest, {Mul, Div}) then Some(FloatType) else None);
  }

  /**
   * A term's type in closed form (for an operand of concrete type): its first
   * operand's type when the chain is empty or uniform, float when an int is
   * divided and the rest is a float chain. So with int operands `a/b` is a
   * float, while `a/b*c` and `a*b/c` are rejected.
   */
  lemma TermTyping(env: Table, t: Term)
    requires FactorAType(env, t.first).Some? ==> Concrete(FactorAType(env, t.first).value)
    ensures TermType(env, t) ==
      (var a := FactorAType(env, t.first);
       if a.None? then None
       else
         var m := MulChainType(env, a.value, t.tail);
         if m == Some(VoidType) then a else m)
  {
    var a := FactorAType(env, t.first);
    if a.Some? {
      MulTailTypeSpec(env, a.value, t.tail);
    }
  }

  // Concrete types.

  /** With every variable typed int, float or string, a factor's type is int, float, string or boolean. */
  lemma {:induction false} FactorConcrete(env: Table, f: Factor)
    requires VariablesTyped(env)
    ensures FactorType(env, f).Some? ==> Concrete(FactorType(env, f).value)
    decreases f
  {
    match f
    case Ident(x) =>
      if IsVariable(env, x) {
        assert x in env;
      }
    case Paren(e) => ExprConcrete(env, e);
    case _ =>
  }

  lemma {:induction false} FactorAConcrete(env: Table, a: FactorA)
    requires VariablesTyped(env)
    ensures FactorAType(env, a).Some? ==> Concrete(FactorAType(env, a).value)
    decreases a
  {
    FactorConcrete(env, a.f);
  }

  lemma {:induction false} TermConcrete(env: Table, t: Term)
    requires VariablesTyped(env)
    ensures TermType(env, t).Some? ==> Concrete(TermType(env, t).value)
    decreases t
  {
    FactorAConcrete(env, t.first);
    TermTyping(env, t);
  }

  lemma {:induction false} SimpleExprConcrete(env: Table, e: SimpleExpr)
    requires VariablesTyped(env)
    ensures SimpleExprType(env, e).Some? ==> Concrete(SimpleExprType(env, e).value)
    decreases e
  {
    TermConcrete(env, e.first);
  }

  /** Every accepted expression has type int, float, string or boolean, never void. */
  lemma {:induction false} ExprConcrete(env: Table, e: Expr)
    requires VariablesTyped(env)
    ensures ExprType(env, e).Some? ==> Concrete(ExprType(env, e).value)
    decreases e
  {
    SimpleExprConcrete(env, e.left);
  }

  /**
   * Relational expressions in closed form: without an operator the type is the
   * simple expression's; with one, it is boolean exactly when both sides have
   * the same type, which the ordering operators further require to be neither
   * string nor boolean. Any other combination is rejected.
   */
  lemma ExprTyping(env: Table, e: Expr)
    requires VariablesTyped(env)
    ensures e.rel == NoRel ==> ExprType(env, e) == SimpleExprType(env, e.left)
    ensures e.rel.Rel? ==>
      (ExprType(env, e) ==
        var l := SimpleExprType(env, e.left);
        if l.Some? && SimpleExprType(env, e.rel.right) == l &&
           !(IsOrdering(e.rel.op) && (l.value == StringType || l.value == BooleanType))
        then Some(BooleanType) else None)
  {
    SimpleExprConcrete(env, e.left);
    if e.rel.Rel? {
      SimpleExprConcrete(env, e.rel.right);
    }
  }

  // Declarations.

  predicate Distinct(xs: seq<string>)
  {
    forall i, j :: 0 <= i < j < |xs| ==> xs[i] != xs[j]
  }

  function DeclNames(d: Decl): seq<string>
  {
    [d.first] + d.more
  }

  /** The names the declarations list, in order. */
  function AllDeclNames(ds: seq<Decl>): seq<string>
  {
    if ds == [] then [] else DeclNames(ds[0]) + AllDeclNames(ds[1..])
  }

  /** The type the first declaration that lists `x` gives it. */
  function DeclTypeOf(ds: seq<Decl>, x: string): Type
    requires x in AllDeclNames(ds)
  {
    if x in DeclNames(ds[0]) then KeywordType(ds[0].ty) else DeclTypeOf(ds[1..], x)
  }

  /**
   * Declaring a list of names succeeds exactly when the names are pairwise
   * distinct and none of them is declared already; each then gets the type and
   * the variable class, and every other row stays as it was.
   */
  lemma {:induction false} DeclareNamesSpec(env: Table, names: seq<string>, t: Type)
    ensures DeclareNames(env, names, t).Some? <==>
      Distinct(names) && forall i :: 0 <= i < |names| ==> !IsDeclared(env, names[i])
    ensures DeclareNames(env, names, t).Some? ==>
      var e := DeclareNames(env, names, t).value;
      e.Keys == env.Keys + (set x | x in names) &&
      forall x :: x in e ==> e[x] == (if x in names then Row(Some(t), Some(Variable)) else env[x])
    decreases names
  {
    if names != [] {
      var n := names[0];
      var env' := Declare(env, n, t, Variable);
      DeclareNamesSpec(env', names[1..], t);
      assert names == [n] + names[1..];
      assert forall y :: IsDeclared(env', y) <==> y == n || IsDeclared(env, y);
    }
  }

  lemma {:induction false} DistinctAppend(a: seq<string>, b: seq<string>)
    ensures Distinct(a + b) <==> Distinct(a) && Distinct(b) && forall x :: x in a ==> x !in b
  {
    if Distinct(a) && Distinct(b) && forall x :: x in a ==> x !in b {
      forall i, j | 0 <= i < j < |a + b|
        ensures (a + b)[i] != (a + b)[j]
      {
        if j < |a| {
          assert (a + b)[i] == a[i] && (a + b)[j] == a[j];
        } else if i >= |a| {
          assert (a + b)[i] == b[i - |a|] && (a + b)[j] == b[j - |a|];
        } else {
          assert (a + b)[i] == a[i] && (a + b)[j] == b[j - |a|];
          assert a[i] in a;
        }
      }
    }
    if Distinct(a + b) {
      forall i, j | 0 <= i < j < |a|
        ensures a[i] != a[j]
      {
        assert (a + b)[i] == a[i] && (a + b)[j] == a[j];
      }
      forall i, j | 0 <= i < j < |b|
        ensures b[i] != b[j]
      {
        assert (a + b)[|a| + i] == b[i] && (a + b)[|a| + j] == b[j];
      }
      forall x | x in a
        ensures x !in b
      {
        var i :| 0 <= i < |a| && a[i] == x;
        forall j | 0 <= j < |b|
          ensures b[j] != x
        {
          assert (a + b)[i] == a[i] && (a + b)[|a| + j] == b[j];
        }
      }
    }
  }

  /**
   * A declaration list is accepted exactly when all the names it lists are
   * pairwise distinct and none is declared already; each name then has the
   * type of its declaration and the variable class, and every other row stays.
   */
  lemma DeclsEnvSpec(env: Table, ds: seq<Decl>)
    ensures DeclsEnv(env, ds).Some? <==>
      Distinct(AllDeclNames(ds)) && forall x :: x in AllDeclNames(ds) ==> !IsDeclared(env, x)
    ensures DeclsEnv(env, ds).Some? ==>
      var e := DeclsEnv(env, ds).value;
      e.Keys == env.Keys + (set x | x in AllDeclNames(ds)) &&
      forall x :: x in e ==>
        e[x] == (if x in AllDeclNames(ds) then Row(Some(DeclTypeOf(ds, x)), Some(Variable)) else env[x])
  {
    DeclsEnvAccepts(env, ds);
    if DeclsEnv(env, ds).Some? {
      DeclsEnvRows(env, ds);
    }
  }

  lemma {:induction false} DeclsEnvAccepts(env: Table, ds: seq<Decl>)
    ensures DeclsEnv(env, ds).Some? <==>
      Distinct(AllDeclNames(ds)) && forall x :: x in AllDeclNames(ds) ==> !IsDeclared(env, x)
    decreases ds
  {
    if ds != [] {
      var names := DeclNames(ds[0]);
      var rest := AllDeclNames(ds[1..]);
      var t := KeywordType(ds[0].ty);
      DeclareNamesSpec(env, names, t);
      DistinctAppend(names, rest);
      assert AllDeclNames(ds) == names + rest;
      var r := DeclareNames(env, names, t);
      assert DeclsEnv(env, ds) == if r.None? then None else DeclsEnv(r.value, ds[1..]);
      if r.Some? {
        DeclsEnvAccepts(r.value, ds[1..]);
        DeclaredAfterNames(env, names, t);
      } else if Distinct(names) {
        var i :| 0 <= i < |names| && IsDeclared(env, names[i]);
        assert names[i] in names + rest;
      }
    }
  }

  /** After declaring `names`, exactly those names and the earlier declared ones are declared. */
  lemma DeclaredAfterNames(env: Table, names: seq<string>, t: Type)
    requires DeclareNames(env, names, t).Some?
    ensures forall y :: IsDeclared(DeclareNames(env, names, t).value, y) <==> y in names || IsDeclared(env, y)
  {
    DeclareNamesSpec(env, names, t);
  }

  lemma {:induction false} DeclsEnvRows(env: Table, ds: seq<Decl>)
    requires DeclsEnv(env, ds).Some?
    ensures
      var e := DeclsEnv(env, ds).value;
      e.Keys == env.Keys + (set x | x in AllDeclNames(ds)) &&
      forall x :: x in e ==>
        e[x] == (if x in AllDeclNames(ds) then Row(Some(DeclTypeOf(ds, x)), Some(Variable)) else env[x])
    decreases ds
  {
    if ds != [] {
      var names := DeclNames(ds[0]);
      var rest := AllDeclNames(ds[1..]);
      var t := KeywordType(ds[0].ty);
      DeclareNamesSpec(env, names, t);
      assert AllDeclNames(ds) == names + rest;
      var e1 := DeclareNames(env, names, t).value;
      assert DeclsEnv(env, ds) == DeclsEnv(e1, ds[1..]);
      DeclsEnvRows(e1, ds[1..]);
      DeclsEnvAccepts(e1, ds[1..]);
      DeclaredAfterNames(env, names, t);
      var e := DeclsEnv(env, ds).value;
      forall x | x in e
        ensures e[x] == (if x in AllDeclNames(ds) then Row(Some(DeclTypeOf(ds, x)), Some(Variable)) else env[x])
      {
        if x in names {
          assert x !in rest;
          assert DeclTypeOf(ds, x) == t;
        } else if x in rest {
          assert DeclTypeOf(ds, x) == DeclTypeOf(ds[1..], x);
        }
      }
    }
  }

  /**
   * The declaration part of a program is accepted exactly when the class name
   * and all variable names are pairwise distinct. The body is then checked
   * against a table holding the class name (type void, class "class") and
   * each variable (its declared type, class "variable"), and nothing else.
   */
  lemma ProgramEnvSpec(p: Program)
    ensures ProgramEnv(p).Some? <==> Distinct([p.name] + AllDeclNames(p.decls))
    ensures ProgramEnv(p).Some? ==>
      var e := ProgramEnv(p).value;
      e.Keys == {p.name} + (set x | x in AllDeclNames(p.decls)) &&
      e[p.name] == Row(Some(VoidType), Some(ClassName)) &&
      (forall x :: x in AllDeclNames(p.decls) ==> e[x] == Row(Some(DeclTypeOf(p.decls, x)), Some(Variable))) &&
      VariablesTyped(e) && Consistent(e)
  {
    var e0 := Declare(map[], p.name, VoidType, ClassName);
    DeclsEnvSpec(e0, p.decls);
    DistinctAppend([p.name], AllDeclNames(p.decls));
    assert forall x :: IsDeclared(e0, x) <==> x == p.name;
    if ProgramEnv(p).Some? {
      var e := ProgramEnv(p).value;
      forall x | x in AllDeclNames(p.decls)
        ensures DeclTypeOf(p.decls, x) in {IntType, FloatType, StringType}
      {
        DeclTypeIsDeclarable(p.decls, x);
      }
    }
  }

  lemma {:induction false} DeclTypeIsDeclarable(ds: seq<Decl>, x: string)
    requires x in AllDeclNames(ds)
    ensures DeclTypeOf(ds, x) in {IntType, FloatType, StringType}
    decreases ds
  {
    if x !in DeclNames(ds[0]) {
      DeclTypeIsDeclarable(ds[1..], x);
    }
  }

  /** A name used as a plain factor. */
  function Var(x: string): FactorA
  {
    Plain(Ident(x))
  }

  /** Both operands int variables. */
  predicate IntVariables(env: Table, a: string, b: string)
  {
    IsVariable(env, a) && GetType(env, a) == Some(IntType) &&
    IsVariable(env, b) && GetType(env, b) == Some(IntType)
  }

  /** With int variables `a` and `b`, `a*b` is an int and `a/b` a float. */
  lemma IntProductAndQuotient(env: Table, a: string, b: string)
    requires IntVariables(env, a, b)
    ensures TermType(env, Term(Var(a), MulMore(Mul, Var(b), MulEnd))) == Some(IntType)
    ensures TermType(env, Term(Var(a), MulMore(Div, Var(b), MulEnd))) == Some(FloatType)
  {
    assert FactorAType(env, Var(a)) == Some(IntType) && FactorAType(env, Var(b)) == Some(IntType);
    MulTailTypeSpec(env, IntType, MulMore(Mul, Var(b), MulEnd));
    MulTailTypeSpec(env, IntType, MulMore(Div, Var(b), MulEnd));
  }

  /**
   * With int variables `a`, `b`, `c`: `a/b*c` is rejected at the `*`, whose
   * left side is now float, and `a*b/c` because the float after `/` does not
   * match the int product.
   */
  lemma IntDivisionMixesRejected(env: Table, a: string, b: string, c: string)
    requires IntVariables(env, a, b) && IntVariables(env, b, c)
    ensures TermType(env, Term(Var(a), MulMore(Div, Var(b), MulMore(Mul, Var(c), MulEnd)))) == None
    ensures TermType(env, Term(Var(a), MulMore(Mul, Var(b), MulMore(Div, Var(c), MulEnd)))) == None
  {
    assert FactorAType(env, Var(a)) == Some(IntType) && FactorAType(env, Var(b)) == Some(IntType);
    assert FactorAType(env, Var(c)) == Some(IntType);
    var m1 := MulMore(Div, Var(b), MulMore(Mul, Var(c), MulEnd));
    MulTailTypeSpec(env, IntType, m1);
    assert !MulChain(env, FloatType, m1.rest, {Mul, Div});
    var m2 := MulMore(Mul, Var(b), MulMore(Div, Var(c), MulEnd));
    MulTailTypeSpec(env, IntType, m2);
    assert !MulChain(env, IntType, m2, {Mul});
  }

  /** With int variables `a`, `b` and a float variable `f`, `a/b*f` is accepted as a float. */
  lemma IntQuotientTimesFloat(env: Table, a: string, b: string, f: string)
    requires IntVariables(env, a, b)
    requires IsVariable(env, f) && GetType(env, f) == Some(FloatType)
    ensures TermType(env, Term(Var(a), MulMore(Div, Var(b), MulMore(Mul, Var(f), MulEnd)))) == Some(FloatType)
  {
    assert FactorAType(env, Var(a)) == Some(IntType) && FactorAType(env, Var(b)) == Some(IntType);
    assert FactorAType(env, Var(f)) == Some(FloatType);
    var m := MulMore(Div, Var(b), MulMore(Mul, Var(f), MulEnd));
    MulTailTypeSpec(env, IntType, m);
    assert MulChain(env, FloatType, m.rest, {Mul, Div});
    assert !MulChain(env, IntType, m, {Mul});
  }

  /**
   * In a program's body only declared variables are values: the class name
   * and any name the program does not declare are rejected as a factor, as an
   * assignment target and as a read target.
   */
  lemma OnlyVariablesAreValues(p: Program, x: string, v: SimpleExpr)
    requires ProgramEnv(p).Some?
    requires x !in AllDeclNames(p.decls)
    ensures var e := ProgramEnv(p).value;
      FactorType(e, Ident(x)) == None && !StmtOk(e, AssignStmt(x, v)) && !StmtOk(e, ReadStmt(x))
  {
    ProgramEnvSpec(p);
  }
}
