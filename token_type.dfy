/**
 * The closed set of token kinds, each with its fixed lexeme ("" for the
 * specials and for the four kinds whose text varies), and the reverse lookup
 * from a lexeme to the first kind, in declaration order, that has it.
 */
module TokenTypes {
  import opened Wrappers

  datatype TokenType =
    // specials
    | UnexpectedEof | InvalidToken | EndOfFile
    // symbols
    | SemiColon | Colon | Comma | Dot | OpenPar | ClosePar | OpenCur | CloseCur | OpenBra | CloseBra
    // operators
    | Assign | And | Or | Lower | Greater | LowerEqual | GreaterEqual | Equals | NotEquals
    | Add | Sub | Mul | Div | Not
    // keywords
    | Class | If | Else | Do | While | Int | Float | String | Null | False | True | Read | Write
    // others
    | Identifier | IntegerConst | RealConst | Literal

  /** The constants in declaration order, as the enumeration lists them. */
  const AllKinds: seq<TokenType> := [
    UnexpectedEof, InvalidToken, EndOfFile,
    SemiColon, Colon, Comma, Dot, OpenPar, ClosePar, OpenCur, CloseCur, OpenBra, CloseBra,
    Assign, And, Or, Lower, Greater, LowerEqual, GreaterEqual, Equals, NotEquals,
    Add, Sub, Mul, Div, Not,
    Class, If, Else, Do, While, Int, Float, String, Null, False, True, Read, Write,
    Identifier, IntegerConst, RealConst, Literal]

  /** Position of a constant in the declaration order. */
  function Ordinal(k: TokenType): (i: nat)
    ensures i < |AllKinds| && AllKinds[i] == k
  {
    match k
    case UnexpectedEof => 0 case InvalidToken => 1 case EndOfFile => 2
    case SemiColon => 3 case Colon => 4 case Comma => 5 case Dot => 6
    case OpenPar => 7 case ClosePar => 8 case OpenCur => 9 case CloseCur => 10
    case OpenBra => 11 case CloseBra => 12
    case Assign => 13 case And => 14 case Or => 15 case Lower => 16 case Greater => 17
    case LowerEqual => 18 case GreaterEqual => 19 case Equals => 20 case NotEquals => 21
    case Add => 22 case Sub => 23 case Mul => 24 case Div => 25 case Not => 26
    case Class => 27 case If => 28 case Else => 29 case Do => 30 case While => 31
    case Int => 32 case Float => 33 case String => 34 case Null => 35 case False => 36
    case True => 37 case Read => 38 case Write => 39
    case Identifier => 40 case IntegerConst => 41 case RealConst => 42 case Literal => 43
  }

  /** The lexeme a constant is declared with (getLexeme). */
  function Lexeme(k: TokenType): string
  {
    match k
    case UnexpectedEof => "" case InvalidToken => "" case EndOfFile => ""
    case SemiColon => ";" case Colon => ":" case Comma => "," case Dot => "."
    case OpenPar => "(" case ClosePar => ")" case OpenCur => "{" case CloseCur => "}"
    case OpenBra => "[" case CloseBra => "]"
    case Assign => "=" case And => "&&" case Or => "||" case Lower => "<" case Greater => ">"
    case LowerEqual => "<=" case GreaterEqual => ">=" case Equals => "==" case NotEquals => "!="
    case Add => "+" case Sub => "-" case Mul => "*" case Div => "/" case Not => "!"
    case Class => "class" case If => "if" case Else => "else" case Do => "do" case While => "while"
    case Int => "int" case Float => "float" case String => "string" case Null => "null"
    case False => "False" case True => "True" case Read => "read" case Write => "write"
    case Identifier => "" case IntegerConst => "" case RealConst => "" case Literal => ""
  }

  /** The constant's name as the enumeration spells it (what toString prints). */
  function Name(k: TokenType): string
  {
    match k
    case UnexpectedEof => "UNEXPECTED_EOF" case InvalidToken => "INVALID_TOKEN"
    case EndOfFile => "END_OF_FILE"
    case SemiColon => "SEMI_COLON" case Colon => "COLON" case Comma => "COMMA" case Dot => "DOT"
    case OpenPar => "OPEN_PAR" case ClosePar => "CLOSE_PAR" case OpenCur => "OPEN_CUR"
    case CloseCur => "CLOSE_CUR" case OpenBra => "OPEN_BRA" case CloseBra => "CLOSE_BRA"
    case Assign => "ASSIGN" case And => "AND" case Or => "OR" case Lower => "LOWER"
    case Greater => "GREATER" case LowerEqual => "LOWER_EQUAL" case GreaterEqual => "GREATER_EQUAL"
    case Equals => "EQUALS" case NotEquals => "NOT_EQUALS"
    case Add => "ADD" case Sub => "SUB" case Mul => "MUL" case Div => "DIV" case Not => "NOT"
    case Class => "CLASS" case If => "IF" case Else => "ELSE" case Do => "DO" case While => "WHILE"
    case Int => "INT" case Float => "FLOAT" case String => "STRING" case Null => "NULL"
    case False => "FALSE" case True => "TRUE" case Read => "READ" case Write => "WRITE"
    case Identifier => "IDENTIFIER" case IntegerConst => "INTEGER_CONST"
    case RealConst => "REAL_CONST" case Literal => "LITERAL"
  }

  /** The kinds whose lexeme is the empty string. */
  predicate HasNoLexeme(k: TokenType)
  {
    k.UnexpectedEof? || k.InvalidToken? || k.EndOfFile? ||
    k.Identifier? || k.IntegerConst? || k.RealConst? || k.Literal?
  }

  /**
   * Linear search through the kinds `ks` from position `from` on: the position
   * of the first one whose lexeme is `s`, or |ks| when there is none.
   */
  function FirstWithLexeme(ks: seq<TokenType>, s: string, from: nat): (i: nat)
    requires from <= |ks|
    ensures from <= i <= |ks|
    ensures i < |ks| ==> Lexeme(ks[i]) == s
    ensures forall j :: from <= j < i ==> Lexeme(ks[j]) != s
    decreases |ks| - from
  {
    if from == |ks| then from
    else if Lexeme(ks[from]) == s then from
    else FirstWithLexeme(ks, s, from + 1)
  }

  /** Reverse lookup over the whole enumeration (getLexemeType); None stands for null. */
  function LexemeType(s: string): Option<TokenType>
  {
    var i := FirstWithLexeme(AllKinds, s, 0);
    if i < |AllKinds| then Some(AllKinds[i]) else None
  }

  /** getLexemeType: scan the constants in order and return the first match. */
  method GetLexemeType(lexeme: string) returns (r: Option<TokenType>)
    ensures r == LexemeType(lexeme)
  {
    var i := 0;
    while i < |AllKinds|
      invariant 0 <= i <= |AllKinds|
      invariant FirstWithLexeme(AllKinds, lexeme, 0) == FirstWithLexeme(AllKinds, lexeme, i)
    {
      if Lexeme(AllKinds[i]) == lexeme {
        return Some(AllKinds[i]);
      }
      i := i + 1;
    }
    return None;
  }

  /** The lookup answers with a kind carrying the lexeme, or with None exactly when no kind carries it. */
  lemma LexemeTypeSound(s: string)
    ensures LexemeType(s).Some? ==> Lexeme(LexemeType(s).value) == s
    ensures LexemeType(s).None? <==> forall k :: Lexeme(k) != s
  {
    if LexemeType(s).Some? {
      var k := LexemeType(s).value;
      assert Lexeme(k) == s;
    } else {
      forall k ensures Lexeme(k) != s {
        assert AllKinds[Ordinal(k)] == k;
      }
    }
  }

  /** Non-empty lexemes are pairwise distinct. */
  lemma LexemesDistinct(a: TokenType, b: TokenType)
    requires Lexeme(a) == Lexeme(b) && Lexeme(a) != ""
    ensures a == b
  {
    DecodedLexeme(a);
    DecodedLexeme(b);
  }

  /** Reads a non-empty lexeme back from its length and its first two characters. */
  ghost function Decoded(s: string): TokenType
    requires s != ""
  {
    var c := s[0];
    if |s| == 1 then
      if c == ';' then SemiColon else if c == ':' then Colon else if c == ',' then Comma
      else if c == '.' then Dot else if c == '(' then OpenPar else if c == ')' then ClosePar
      else if c == '{' then OpenCur else if c == '}' then CloseCur else if c == '[' then OpenBra
      else if c == ']' then CloseBra else if c == '=' then Assign else if c == '<' then Lower
      else if c == '>' then Greater else if c == '+' then Add else if c == '-' then Sub
      else if c == '*' then Mul else if c == '/' then Div else Not
    else if |s| == 2 then
      if c == '&' then And else if c == '|' then Or else if c == '<' then LowerEqual
      else if c == '>' then GreaterEqual else if c == '=' then Equals else if c == '!' then NotEquals
      else if c == 'i' then If else Do
    else if |s| == 3 then Int
    else if |s| == 4 then
      if c == 'e' then Else else if c == 'n' then Null else if c == 'T' then True else Read
    else if |s| == 5 then
      if c == 'c' then Class else if c == 'f' then Float else if c == 'F' then False
      else if s[1] == 'h' then While else Write
    else String
  }

  lemma DecodedLexeme(k: TokenType)
    requires Lexeme(k) != ""
    ensures Decoded(Lexeme(k)) == k
  {
  }

  /** Looking up a kind's own non-empty lexeme gives that kind back. */
  lemma LexemeRoundTrip(k: TokenType)
    requires Lexeme(k) != ""
    ensures LexemeType(Lexeme(k)) == Some(k)
  {
    var i := FirstWithLexeme(AllKinds, Lexeme(k), 0);
    assert AllKinds[Ordinal(k)] == k;
    assert i <= Ordinal(k);
    LexemesDistinct(AllKinds[i], k);
  }

  /** getLexeme is "" exactly for the three specials and the four kinds with varying text. */
  lemma EmptyLexemeKinds(k: TokenType)
    ensures Lexeme(k) == "" <==> HasNoLexeme(k)
  {
  }

  /** The empty lexeme finds the first of the seven kinds that carry it. */
  lemma EmptyLexemeFindsUnexpectedEof()
    ensures LexemeType("") == Some(UnexpectedEof)
  {
    assert Lexeme(AllKinds[0]) == "";
  }

  /** Keyword lookup is exact: the capitalised boolean keywords are found. */
  lemma BooleanKeywordsAreCapitalised()
    ensures LexemeType("True") == Some(True) && LexemeType("False") == Some(False)
    ensures LexemeType("class") == Some(Class)
  {
    assert Lexeme(True) == "True" && Lexeme(False) == "False" && Lexeme(Class) == "class";
    LexemeRoundTrip(True);
    LexemeRoundTrip(False);
    LexemeRoundTrip(Class);
  }

  /** Keyword lookup is case-sensitive: a differently cased spelling is no kind. */
  lemma MiscasedKeywordIsNoKind(s: string)
    requires s == "true" || s == "false" || s == "Class"
    ensures LexemeType(s) == None
  {
    forall k ensures Lexeme(k) != s {
      LexemeInitial(k);
      if s == "false" {
        assert "float"[1] != s[1];
      } else {
        assert Lexeme(k) == "" || Lexeme(k)[0] != s[0];
      }
    }
    LexemeTypeSound(s);
  }

  /** No lexeme starts with `t` or `C`, and the only one starting with `f` is "float". */
  lemma LexemeInitial(k: TokenType)
    ensures Lexeme(k) != "" ==> Lexeme(k)[0] != 't' && Lexeme(k)[0] != 'C'
    ensures Lexeme(k) != "" && Lexeme(k)[0] == 'f' ==> Lexeme(k) == "float"
  {
  }
}
