/**
 * The semantic value types: a type code (void, int, float, string, boolean,
 * error) and a declaration class code (class name, variable, error). Both are
 * immutable codes whose constructors clamp anything out of range to ERROR.
 */
module Semantic {

  // Type codes.
  const VOID := 0
  const INT := 1
  const FLOAT := 2
  const STRING := 3
  const BOOLEAN := 4
  const ERROR := -1

  type TypeCode = n: int | -1 <= n <= 4

  datatype Type = Type(code: TypeCode)
  {
    /** equals(Object) on another Type: the codes agree. */
    predicate Equals(other: Type)
    {
      code == other.code
    }

    /** equals(int): the stored code is `n`. */
    predicate EqualsCode(n: int)
    {
      n == code
    }

    function ToString(): string
    {
      if code == VOID then ""
      else if code == INT then "int"
      else if code == FLOAT then "float"
      else if code == STRING then "string"
      else if code == BOOLEAN then "boolean"
      else "error"
    }
  }

  /** new Type(n): keep `n` when it is a known code, otherwise ERROR. */
  function MakeType(n: int): (t: Type)
    ensures -1 <= n <= 4 ==> t.code == n
    ensures !(-1 <= n <= 4) ==> t.code == ERROR
    ensures t.code in {VOID, INT, FLOAT, STRING, BOOLEAN, ERROR}
  {
    if -1 <= n <= 4 then Type(n) else Type(ERROR)
  }

  const VoidType := Type(VOID)
  const IntType := Type(INT)
  const FloatType := Type(FLOAT)
  const StringType := Type(STRING)
  const BooleanType := Type(BOOLEAN)
  const ErrorType := Type(ERROR)

  // Declaration class codes.
  const CLASS := 1
  const VARIABLE := 2
  const CLASS_ERROR := -1

  type ClassCode = n: int | n == -1 || n == 1 || n == 2 witness -1

  datatype Class = Class(code: ClassCode)
  {
    /** equals(Object) on another Class: the codes agree. */
    predicate Equals(other: Class)
    {
      code == other.code
    }

    /** equals(int): the stored code is `n`. */
    predicate EqualsCode(n: int)
    {
      n == code
    }

    function ToString(): string
    {
      if code == CLASS then "class" else if code == VARIABLE then "variable" else "error"
    }
  }

  /** new Class(n): keep `n` only when it is 1 or 2, otherwise ERROR. */
  function MakeClass(n: int): (c: Class)
    ensures (n == CLASS || n == VARIABLE) ==> c.code == n
    ensures n != CLASS && n != VARIABLE ==> c.code == CLASS_ERROR
    ensures c.code in {CLASS, VARIABLE, CLASS_ERROR}
  {
    if 1 <= n <= 2 then Class(n) else Class(CLASS_ERROR)
  }

  const ClassName := Class(CLASS)
  const Variable := Class(VARIABLE)
  const ErrorClass := Class(CLASS_ERROR)

  /** Type equality is nominal: it holds exactly for equal values, so it is an equivalence. */
  lemma TypeEqualsIsEquality(a: Type, b: Type, c: Type)
    ensures a.Equals(b) <==> a == b
    ensures a.Equals(a)
    ensures a.Equals(b) ==> b.Equals(a)
    ensures a.Equals(b) && b.Equals(c) ==> a.Equals(c)
    ensures a.EqualsCode(b.code) <==> a.Equals(b)
  {
  }

  /** Class equality is nominal in the same way. */
  lemma ClassEqualsIsEquality(a: Class, b: Class, c: Class)
    ensures a.Equals(b) <==> a == b
    ensures a.Equals(a)
    ensures a.Equals(b) ==> b.Equals(a)
    ensures a.Equals(b) && b.Equals(c) ==> a.Equals(c)
    ensures a.EqualsCode(b.code) <==> a.Equals(b)
  {
  }

  /** Clamping is idempotent: rebuilding a type from its own code gives it back. */
  lemma MakeTypeOfCode(t: Type, n: int)
    ensures MakeType(t.code) == t
    ensures MakeType(MakeType(n).code) == MakeType(n)
  {
  }

  /** Clamping is idempotent for classes; 0 is not a class code. */
  lemma MakeClassOfCode(c: Class, n: int)
    ensures MakeClass(c.code) == c
    ensures MakeClass(MakeClass(n).code) == MakeClass(n)
    ensures MakeClass(0) == ErrorClass
  {
  }

  /** toString names each type; the names of different types differ. */
  lemma TypeNamesDistinct(a: Type, b: Type)
    ensures a.ToString() == b.ToString() <==> a == b
    ensures VoidType.ToString() == "" && IntType.ToString() == "int" && FloatType.ToString() == "float"
    ensures StringType.ToString() == "string" && BooleanType.ToString() == "boolean"
    ensures ErrorType.ToString() == "error"
  {
  }

  /** toString names each class; the names of different classes differ. */
  lemma ClassNamesDistinct(a: Class, b: Class)
    ensures a.ToString() == b.ToString() <==> a == b
    ensures ClassName.ToString() == "class" && Variable.ToString() == "variable"
    ensures ErrorClass.ToString() == "error"
  {
  }
}
