/**
 * Tokens: a plain token that is only a kind, a word token carrying its text
 * (identifiers and string literals), an integer token carrying a 32-bit value
 * and a float token. The float token keeps its lexeme as an opaque payload.
 */
module Tokens {
  import opened TokenTypes

  /** Java's 32-bit `int`. */
  type Int32 = n: int | -0x8000_0000 <= n < 0x8000_0000

  datatype Token =
    | Token(kind: TokenType)
    | WordToken(kind: TokenType, lexeme: string)
    | IntegerToken(value: Int32)
    | FloatToken(text: string)
  {
    /** getType: the kind given to the constructor; integer and float tokens fix theirs. */
    function GetType(): (k: TokenType)
      ensures Token? || WordToken? ==> k == kind
      ensures IntegerToken? ==> k == IntegerConst
      ensures FloatToken? ==> k == RealConst
    {
      match this
      case Token(k) => k
      case WordToken(k, _) => k
      case IntegerToken(_) => IntegerConst
      case FloatToken(_) => RealConst
    }

    /** toString of the token classes (the float token's rendering is not modelled). */
    function ToString(): string
      requires !FloatToken?
    {
      match this
      case Token(k) => KindString(k)
      case WordToken(k, x) => KindString(k) + " [" + x + "]"
      case IntegerToken(v) => KindString(IntegerConst) + " [" + DecimalString(v) + "]"
    }

    /**
     * The shapes the lexer produces: a plain token has a fixed lexeme or is the
     * end-of-file marker; word tokens are identifiers or string literals.
     */
    predicate WellFormed()
    {
      match this
      case Token(k) => k == EndOfFile || Lexeme(k) != ""
      case WordToken(k, _) => k == Identifier || k == Literal
      case IntegerToken(_) => true
      case FloatToken(_) => true
    }
  }

  /** Token.toString: the enumeration name, then the lexeme in quotes when it has one. */
  function KindString(k: TokenType): string
  {
    if Lexeme(k) == "" then Name(k) else Name(k) + " \"" + Lexeme(k) + "\""
  }

  predicate IsDigitChar(c: char)
  {
    '0' <= c <= '9'
  }

  function DigitChar(d: nat): (c: char)
    requires d < 10
    ensures IsDigitChar(c) && (c as int) - ('0' as int) == d
  {
    (('0' as int) + d) as char
  }

  /** Decimal digits of a natural number, most significant first, no leading zero. */
  function Digits(n: nat): (s: string)
    ensures |s| >= 1 && (forall i :: 0 <= i < |s| ==> IsDigitChar(s[i]))
    ensures |s| > 1 ==> s[0] != '0'
  {
    if n < 10 then [DigitChar(n)] else Digits(n / 10) + [DigitChar(n % 10)]
  }

  /** Integer.toString: a minus sign for negative values, then the digits. */
  function DecimalString(v: int): string
  {
    if v < 0 then "-" + Digits(-v) else Digits(v)
  }

  /** The value of a string of decimal digits (what Integer.parseInt computes for one). */
  function DecimalValue(s: string): nat
    requires forall i :: 0 <= i < |s| ==> IsDigitChar(s[i])
  {
    if s == [] then 0
    else DecimalValue(s[..|s| - 1]) * 10 + DigitValue(s[|s| - 1])
  }

  function DigitValue(c: char): (d: nat)
    requires IsDigitChar(c)
    ensures d < 10
  {
    (c as int) - ('0' as int)
  }

  /** Rendering a natural number in decimal and reading it back gives the number. */
  lemma {:induction false} DigitsRoundTrip(n: nat)
    ensures DecimalValue(Digits(n)) == n
  {
    if n >= 10 {
      DigitsRoundTrip(n / 10);
      var s := Digits(n);
      assert s[..|s| - 1] == Digits(n / 10);
    }
  }

  /** The kind of a plain token is the one it was built with, and no method changes it. */
  lemma PlainTokenKind(k: TokenType)
    ensures Token(k).GetType() == k && Token(k).WellFormed() == (k == EndOfFile || Lexeme(k) != "")
  {
  }

  /** A plain token prints as its kind's name, quoted lexeme added only when there is one. */
  lemma PlainTokenPrinting(k: TokenType)
    ensures Lexeme(k) == "" ==> Token(k).ToString() == Name(k)
    ensures Lexeme(k) != "" ==> Token(k).ToString() == Name(k) + " \"" + Lexeme(k) + "\""
    ensures Token(EndOfFile).ToString() == "END_OF_FILE"
    ensures Token(SemiColon).ToString() == "SEMI_COLON \";\""
  {
  }

  /** A word token prints its kind's name and then its lexeme in brackets. */
  lemma WordTokenPrinting(k: TokenType, x: string)
    ensures WordToken(k, x).ToString() == Token(k).ToString() + " [" + x + "]"
    ensures WordToken(Identifier, "x").ToString() == "IDENTIFIER [x]"
  {
  }

  /** An integer token's printed value reads back as the value it holds. */
  lemma IntegerTokenPrinting(v: Int32)
    requires v >= 0
    ensures var s := IntegerToken(v).ToString();
      s == "INTEGER_CONST [" + Digits(v) + "]" && DecimalValue(Digits(v)) == v
  {
    assert Lexeme(IntegerConst) == "" && Name(IntegerConst) == "INTEGER_CONST";
    assert KindString(IntegerConst) == "INTEGER_CONST";
    DigitsRoundTrip(v);
  }
}
