/**
 * The table the lexer and the analyzer share: identifier lexeme -> row with an
 * optional declared type and an optional declaration class. The lexer creates
 * an empty row the first time it meets an identifier; the analyzer fills both
 * columns when it meets the declaration.
 */
module Scope {
  import opened Wrappers
  import opened Semantic

  datatype Row = Row(ty: Option<Type>, cls: Option<Class>)

  const EmptyRow := Row(None, None)

  type Table = map<string, Row>

  /** The lexer's registration: add an empty row unless the lexeme already has one. */
  function Register(st: Table, x: string): (r: Table)
    ensures x in r && r.Keys == st.Keys + {x}
    ensures x in st ==> r == st
    ensures x !in st ==> r[x] == EmptyRow
    ensures forall y :: y in st ==> r[y] == st[y]
  {
    if x in st then st else st[x := EmptyRow]
  }

  /** getType: the row's type column, None for a lexeme without a row. */
  function GetType(st: Table, x: string): Option<Type>
  {
    if x in st then st[x].ty else None
  }

  /** getClass: the row's class column, None for a lexeme without a row. */
  function GetClass(st: Table, x: string): Option<Class>
  {
    if x in st then st[x].cls else None
  }

  /** A row counts as a declaration when either column is filled. */
  predicate IsDeclared(st: Table, x: string)
  {
    GetType(st, x).Some? || GetClass(st, x).Some?
  }

  /** The declared part of a table: the rows with a filled column. */
  function Declared(st: Table): (d: Table)
    ensures forall x :: x in d <==> IsDeclared(st, x)
    ensures forall x :: x in d ==> x in st && d[x] == st[x]
    ensures Paired(st) ==> Paired(d)
  {
    map x | x in st && IsDeclared(st, x) :: st[x]
  }

  /**
   * `later` extends `earlier` only by new empty rows: what the lexer does to the
   * table while the analyzer reads an expression or a statement.
   */
  predicate Grows(earlier: Table, later: Table)
  {
    (forall x :: x in earlier ==> x in later && later[x] == earlier[x]) &&
    (forall x :: x in later && x !in earlier ==> later[x] == EmptyRow)
  }

  /** Both columns of every row are filled together, or neither is. */
  predicate Paired(st: Table)
  {
    forall x :: x in st ==> (st[x].ty.Some? <==> st[x].cls.Some?)
  }

  /** The invariant the analyzer keeps: both columns are filled together, with sane values. */
  predicate Consistent(st: Table)
  {
    forall x :: x in st ==>
      (st[x].ty.Some? <==> st[x].cls.Some?) &&
      (st[x].cls == Some(Variable) ==> st[x].ty.value in {IntType, FloatType, StringType}) &&
      (st[x].cls == Some(ClassName) ==> st[x].ty == Some(VoidType)) &&
      (st[x].cls.Some? ==> st[x].cls.value in {ClassName, Variable})
  }

  /** Registration only grows the table, changes no declaration and keeps the table's invariants. */
  lemma RegisterGrows(st: Table, x: string)
    ensures Grows(st, Register(st, x))
    ensures Declared(Register(st, x)) == Declared(st)
    ensures Paired(st) ==> Paired(Register(st, x))
    ensures Consistent(st) ==> Consistent(Register(st, x))
  {
  }

  /** Filling both columns of a row declares that name and leaves the other declarations alone. */
  lemma DeclaredAfterFill(st: Table, x: string, t: Type, c: Class)
    ensures Declared(st[x := Row(Some(t), Some(c))]) == Declared(st)[x := Row(Some(t), Some(c))]
    ensures Paired(st) ==> Paired(st[x := Row(Some(t), Some(c))])
  {
    var d := Declared(st[x := Row(Some(t), Some(c))]);
    assert d.Keys == Declared(st).Keys + {x};
  }
}
