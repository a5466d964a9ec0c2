/**
 * The lexical rules of the language, stated token by token rather than state by
 * state: `Scan(s, i, line)` is what one request for a token returns when the
 * unread input starts at position `i` of the byte sequence `s` and the line
 * counter is `line`. The lexer's automaton is proved to compute exactly this.
 *
 * Bytes are read as the characters U+0000..U+00FF, so the letter and digit
 * classes are those of Latin-1.
 */
module LexSpec {
  import opened Wrappers
  import opened TokenTypes
  import opened Tokens
  import opened Scope

  type Byte = b: int | 0 <= b < 256

  /** What reading past the last byte yields. */
  const EOF := -1

  const NL := '\n' as int
  const TAB := '\t' as int
  const CR := 13
  const SPACE := ' ' as int
  const QUOTE := '"' as int
  const AMP := '&' as int
  const PIPE := '|' as int
  const SLASH := '/' as int
  const STAR := '*' as int
  const DOT := '.' as int
  const EQ := '=' as int
  const ZERO := '0' as int
  const UNDERSCORE := '_' as int

  /** Character.isLetter on the characters U+0000..U+00FF. */
  predicate IsLetter(c: int)
  {
    ('A' as int <= c <= 'Z' as int) || ('a' as int <= c <= 'z' as int) ||
    c == 0xAA || c == 0xB5 || c == 0xBA ||
    (0xC0 <= c <= 0xD6) || (0xD8 <= c <= 0xF6) || (0xF8 <= c <= 0xFF)
  }

  /** Character.isDigit on the characters U+0000..U+00FF. */
  predicate IsDigit(c: int)
  {
    '0' as int <= c <= '9' as int
  }

  /** What may continue an identifier: a letter, a digit or an underscore. */
  predicate IsIdentChar(c: int)
  {
    IsLetter(c) || IsDigit(c) || c == UNDERSCORE
  }

  /** The characters that start `<`, `>`, `=`, `!` and their `=` forms. */
  predicate IsRelStart(c: int)
  {
    c == '<' as int || c == '>' as int || c == EQ || c == '!' as int
  }

  /** The characters that are a token on their own. */
  predicate IsPunct(c: int)
  {
    c == '(' as int || c == ')' as int || c == '{' as int || c == '}' as int ||
    c == ';' as int || c == '+' as int || c == '-' as int || c == STAR || c == ',' as int
  }

  function PunctKind(c: int): TokenType
    requires IsPunct(c)
  {
    if c == '(' as int then OpenPar else if c == ')' as int then ClosePar
    else if c == '{' as int then OpenCur else if c == '}' as int then CloseCur
    else if c == ';' as int then SemiColon else if c == '+' as int then Add
    else if c == '-' as int then Sub else if c == STAR then Mul else Comma
  }

  /** The kind of `<`, `>`, `=`, `!`, or of the same character followed by `=`. */
  function RelKind(c: int, withEq: bool): TokenType
    requires IsRelStart(c)
  {
    if c == '<' as int then (if withEq then LowerEqual else Lower)
    else if c == '>' as int then (if withEq then GreaterEqual else Greater)
    else if c == EQ then (if withEq then Equals else Assign)
    else (if withEq then NotEquals else Not)
  }

  datatype LexError =
    | UnexpectedEndOfFile(line: int)   // end of input inside a string literal or a comment
    | InvalidCharacter(line: int)      // no transition for the character read
    | IntegerOutOfRange(digits: string) // a digit run whose value is above 2147483647 (the integer parser rejects it)

  /** One token request's outcome: the token or error, the new position and line counter. */
  datatype Lexed = Lexed(result: Result<Token, LexError>, next: nat, line: int)

  /** The characters a byte sequence stands for. */
  function Text(bs: seq<Byte>): (t: string)
    ensures |t| == |bs| && forall k :: 0 <= k < |bs| ==> t[k] == bs[k] as char
  {
    seq(|bs|, k requires 0 <= k < |bs| => bs[k] as char)
  }

  /** The byte after position `i`, or EOF. */
  function Next(s: seq<Byte>, i: nat): int
  {
    if i + 1 < |s| then s[i + 1] else EOF
  }

  /** End of the longest run of identifier characters starting at `j`. */
  function IdentEnd(s: seq<Byte>, j: nat): (e: nat)
    requires j <= |s|
    ensures j <= e <= |s| && (e < |s| ==> !IsIdentChar(s[e]))
    ensures forall k :: j <= k < e ==> IsIdentChar(s[k])
    decreases |s| - j
  {
    if j == |s| || !IsIdentChar(s[j]) then j else IdentEnd(s, j + 1)
  }

  /** End of the longest run of digits starting at `j`. */
  function DigitsEnd(s: seq<Byte>, j: nat): (e: nat)
    requires j <= |s|
    ensures j <= e <= |s| && (e < |s| ==> !IsDigit(s[e]))
    ensures forall k :: j <= k < e ==> IsDigit(s[k])
    decreases |s| - j
  {
    if j == |s| || !IsDigit(s[j]) then j else DigitsEnd(s, j + 1)
  }

  /** Position of the first byte `b` at or after `j`, or |s| when there is none. */
  function FindByte(s: seq<Byte>, j: nat, b: int): (e: nat)
    requires j <= |s|
    ensures j <= e <= |s| && (e < |s| ==> s[e] == b)
    ensures forall k :: j <= k < e ==> s[k] != b
    decreases |s| - j
  {
    if j == |s| || s[j] == b then j else FindByte(s, j + 1, b)
  }

  /** Position of the first comment closer (a star then a slash) at or after `j`, or |s| when there is none. */
  function CloseAt(s: seq<Byte>, j: nat): (k: nat)
    requires j <= |s|
    ensures j <= k <= |s|
    ensures k < |s| ==> k + 1 < |s| && s[k] == STAR && s[k + 1] == SLASH
    ensures forall m :: j <= m < k && m + 1 < |s| ==> !(s[m] == STAR && s[m + 1] == SLASH)
    decreases |s| - j
  {
    if j + 1 >= |s| then |s|
    else if s[j] == STAR && s[j + 1] == SLASH then j
    else CloseAt(s, j + 1)
  }

  /**
   * The newlines of a block comment whose text starts at `j`, among the
   * positions before `upto`, that are counted: all but those right after a `*`
   * of the comment's text.
   */
  function CommentNewlines(s: seq<Byte>, j: nat, upto: nat): nat
    requires j <= upto <= |s|
    decreases upto
  {
    if upto == j then 0
    else
      var counted := s[upto - 1] == NL && (upto - 1 == j || s[upto - 2] != STAR);
      CommentNewlines(s, j, upto - 1) + (if counted then 1 else 0)
  }

  /** An identifier-shaped lexeme is the keyword it spells, or an identifier. */
  function WordOrKeyword(x: string): Token
  {
    match LexemeType(x)
    case Some(k) => Token(k)
    case None => WordToken(Identifier, x)
  }

  predicate AllDigits(s: string)
  {
    forall k :: 0 <= k < |s| ==> IsDigitChar(s[k])
  }

  /** Digit bytes read as characters are digit characters. */
  lemma TextOfDigits(bs: seq<Byte>)
    requires forall k :: 0 <= k < |bs| ==> IsDigit(bs[k])
    ensures AllDigits(Text(bs))
  {
    forall k | 0 <= k < |bs|
      ensures IsDigitChar(Text(bs)[k])
    {
      assert '0' as int <= bs[k] <= '9' as int;
    }
  }

  /** An integer literal `s[i..e]`: its value when that is at most 2147483647. */
  function IntegerAt(s: seq<Byte>, i: nat, e: nat, line: int): Lexed
    requires i <= e <= |s| && forall k :: i <= k < e ==> IsDigit(s[k])
  {
    var digits := Text(s[i..e]);
    TextOfDigits(s[i..e]);
    var v := DecimalValue(digits);
    if v < 0x8000_0000 then Lexed(Ok(IntegerToken(v)), e, line)
    else Lexed(Err(IntegerOutOfRange(digits)), e, line)
  }

  /** A float literal: digits at `i`, a dot at `dot`, then any number of digits. */
  function FloatAt(s: seq<Byte>, i: nat, dot: nat, line: int): Lexed
    requires i < dot < |s|
  {
    var e := DigitsEnd(s, dot + 1);
    Lexed(Ok(FloatToken(Text(s[i..e]))), e, line)
  }

  /** A number starting with the digit at `i`. */
  function NumberAt(s: seq<Byte>, i: nat, line: int): Lexed
    requires i < |s| && IsDigit(s[i])
  {
    if s[i] == ZERO then
      (if Next(s, i) == DOT then FloatAt(s, i, i + 1, line) else IntegerAt(s, i, i + 1, line))
    else
      var e := DigitsEnd(s, i + 1);
      if e < |s| && s[e] == DOT then FloatAt(s, i, e, line) else IntegerAt(s, i, e, line)
  }

  /** `&&` or `||`: the first character must be followed by a second copy. */
  function DoubledAt(s: seq<Byte>, i: nat, kind: TokenType, line: int): Lexed
    requires i < |s|
  {
    if Next(s, i) == s[i] then Lexed(Ok(Token(kind)), i + 2, line)
    else Lexed(Err(InvalidCharacter(line)), i + 1, line)
  }

  /** The next token (or lexical error) when the unread input starts at `i`. */
  function Scan(s: seq<Byte>, i: nat, line: int): (r: Lexed)
    requires i <= |s|
    decreases |s| - i
  {
    if i == |s| then Lexed(Ok(Token(EndOfFile)), i, line)
    else
      var c := s[i];
      if c == NL then Scan(s, i + 1, line + 1)
      else if c == SPACE || c == TAB || c == CR then Scan(s, i + 1, line)
      else if IsLetter(c) then
        var e := IdentEnd(s, i + 1);
        Lexed(Ok(WordOrKeyword(Text(s[i..e]))), e, line)
      else if IsDigit(c) then NumberAt(s, i, line)
      else if c == QUOTE then
        var e := FindByte(s, i + 1, QUOTE);
        if e == |s| then Lexed(Err(UnexpectedEndOfFile(line)), e, line)
        else Lexed(Ok(WordToken(Literal, Text(s[i + 1..e]))), e + 1, line)
      else if c == AMP then DoubledAt(s, i, And, line)
      else if c == PIPE then DoubledAt(s, i, Or, line)
      else if c == SLASH then
        if Next(s, i) == STAR then
          var k := CloseAt(s, i + 2);
          var l := line + CommentNewlines(s, i + 2, k);
          if k == |s| then Lexed(Err(UnexpectedEndOfFile(l)), k, l)
          else Scan(s, k + 2, l)
        else if Next(s, i) == SLASH then
          var e := FindByte(s, i + 2, NL);
          if e == |s| then Lexed(Err(UnexpectedEndOfFile(line)), e, line)
          else Scan(s, e + 1, line + 1)
        else Lexed(Ok(Token(Div)), i + 1, line)
      else if IsRelStart(c) then
        if Next(s, i) == EQ then Lexed(Ok(Token(RelKind(c, true))), i + 2, line)
        else Lexed(Ok(Token(RelKind(c, false))), i + 1, line)
      else if IsPunct(c) then Lexed(Ok(Token(PunctKind(c))), i + 1, line)
      else Lexed(Err(InvalidCharacter(line)), i + 1, line)
  }

  /** The table after a token request: an identifier token's lexeme gets a row if it had none. */
  function Registered(st: Table, r: Result<Token, LexError>): Table
  {
    if r.Ok? && r.value.WordToken? && r.value.kind == Identifier then Register(st, r.value.lexeme)
    else st
  }
}
