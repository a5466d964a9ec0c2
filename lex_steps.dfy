/**
 * The lexer automaton's working states, each described by what it knows about
 * the token being read, and one lemma per state saying where the next
 * character takes it. `p` is the stream position, `line` the line counter,
 * `t` where the token (or comment) began, `dot` where a float's dot is,
 * `line0` the line counter when a block comment began, and `goal` what the
 * whole token request must return: `Scan` at the position where it started.
 */
module LexSteps {
  import opened Wrappers
  import opened TokenTypes
  import opened Tokens
  import opened LexSpec

  // The automaton's two final states; 0..12 are the working states.
  const ERROR := -10
  const END := -15

  /** Where a token (or comment) began, where a float's dot is, the line a block comment began on. */
  datatype Mark = Mark(t: nat, dot: nat, line0: int)

  /** The byte at `p`, or EOF. */
  function Peek(s: seq<Byte>, p: nat): int
  {
    if p < |s| then s[p] else EOF
  }

  /** State 0: between tokens; nothing pending. */
  ghost predicate At0(s: seq<Byte>, p: nat, line: int, lexeme: string, goal: Lexed)
  {
    p <= |s| && goal == Scan(s, p, line) && lexeme == ""
  }

  /** State 1: inside an identifier or keyword. */
  ghost predicate At1(s: seq<Byte>, p: nat, line: int, lexeme: string, t: nat, goal: Lexed)
  {
    t < p <= |s| && IsLetter(s[t]) && goal == Scan(s, t, line) &&
    IdentEnd(s, t + 1) == IdentEnd(s, p) && lexeme == Text(s[t..p])
  }

  /** State 2: after a leading `0`. */
  ghost predicate At2(s: seq<Byte>, p: nat, line: int, lexeme: string, t: nat, goal: Lexed)
  {
    p == t + 1 && p <= |s| && s[t] == ZERO && goal == Scan(s, t, line) && lexeme == Text(s[t..p])
  }

  /** State 3: inside the digits of a number that does not start with `0`. */
  ghost predicate At3(s: seq<Byte>, p: nat, line: int, lexeme: string, t: nat, goal: Lexed)
  {
    t < p <= |s| && IsDigit(s[t]) && s[t] != ZERO && goal == Scan(s, t, line) &&
    DigitsEnd(s, t + 1) == DigitsEnd(s, p) && lexeme == Text(s[t..p])
  }

  /** State 4: inside the fraction of a float. */
  ghost predicate At4(s: seq<Byte>, p: nat, line: int, lexeme: string, t: nat, dot: nat, goal: Lexed)
  {
    t < dot < p <= |s| && goal == FloatAt(s, t, dot, line) &&
    DigitsEnd(s, dot + 1) == DigitsEnd(s, p) && lexeme == Text(s[t..p])
  }

  /** State 5: inside a string literal. */
  ghost predicate At5(s: seq<Byte>, p: nat, line: int, lexeme: string, t: nat, goal: Lexed)
  {
    t < p <= |s| && s[t] == QUOTE && goal == Scan(s, t, line) &&
    FindByte(s, t + 1, QUOTE) == FindByte(s, p, QUOTE) && lexeme == Text(s[t + 1..p])
  }

  /** States 6 and 11: after a first `&` or `|`. */
  ghost predicate AtDoubled(s: seq<Byte>, p: nat, line: int, t: nat, first: int, goal: Lexed)
  {
    p == t + 1 && p <= |s| && s[t] == first && goal == Scan(s, t, line)
  }

  /** State 7: after a `/`. */
  ghost predicate At7(s: seq<Byte>, p: nat, line: int, lexeme: string, t: nat, goal: Lexed)
  {
    p == t + 1 && p <= |s| && s[t] == SLASH && goal == Scan(s, t, line) && lexeme == "/"
  }

  /** State 8: inside a line comment. */
  ghost predicate At8(s: seq<Byte>, p: nat, line: int, lexeme: string, t: nat, goal: Lexed)
  {
    t + 2 <= p <= |s| && s[t] == SLASH && s[t + 1] == SLASH && goal == Scan(s, t, line) &&
    FindByte(s, t + 2, NL) == FindByte(s, p, NL) && lexeme == "/"
  }

  /** State 9: inside a block comment, not right after one of its stars. */
  ghost predicate At9(s: seq<Byte>, p: nat, line: int, lexeme: string, t: nat, line0: int, goal: Lexed)
  {
    t + 2 <= p <= |s| && s[t] == SLASH && s[t + 1] == STAR && goal == Scan(s, t, line0) &&
    (p == t + 2 || s[p - 1] != STAR) && CloseAt(s, t + 2) == CloseAt(s, p) &&
    line == line0 + CommentNewlines(s, t + 2, p) && lexeme == "/"
  }

  /** State 10: inside a block comment, right after one of its stars. */
  ghost predicate At10(s: seq<Byte>, p: nat, line: int, lexeme: string, t: nat, line0: int, goal: Lexed)
  {
    t + 2 < p <= |s| && s[t] == SLASH && s[t + 1] == STAR && goal == Scan(s, t, line0) &&
    s[p - 1] == STAR && CloseAt(s, t + 2) == CloseAt(s, p - 1) &&
    line == line0 + CommentNewlines(s, t + 2, p) && lexeme == "/"
  }

  /** State 12: after one of `<`, `>`, `=`, `!`. */
  ghost predicate At12(s: seq<Byte>, p: nat, line: int, lexeme: string, t: nat, goal: Lexed)
  {
    p == t + 1 && p <= |s| && IsRelStart(s[t]) && goal == Scan(s, t, line) && lexeme == Text(s[t..p])
  }

  /** A working state and what it knows. */
  ghost predicate Pending(s: seq<Byte>, state: int, p: nat, line: int, lexeme: string, m: Mark, goal: Lexed)
  {
    if state == 0 then At0(s, p, line, lexeme, goal)
    else if state == 1 then At1(s, p, line, lexeme, m.t, goal)
    else if state == 2 then At2(s, p, line, lexeme, m.t, goal)
    else if state == 3 then At3(s, p, line, lexeme, m.t, goal)
    else if state == 4 then At4(s, p, line, lexeme, m.t, m.dot, goal)
    else if state == 5 then At5(s, p, line, lexeme, m.t, goal)
    else if state == 6 then AtDoubled(s, p, line, m.t, AMP, goal)
    else if state == 7 then At7(s, p, line, lexeme, m.t, goal)
    else if state == 8 then At8(s, p, line, lexeme, m.t, goal)
    else if state == 9 then At9(s, p, line, lexeme, m.t, m.line0, goal)
    else if state == 10 then At10(s, p, line, lexeme, m.t, m.line0, goal)
    else if state == 11 then AtDoubled(s, p, line, m.t, PIPE, goal)
    else state == 12 && At12(s, p, line, lexeme, m.t, goal)
  }

  /**
   * What holds after one step that read `c`: a final state carries the answer,
   * a working state that read EOF means the input ended inside a token, and
   * any other working state knows what it should.
   */
  ghost predicate Reached(s: seq<Byte>, state: int, p: nat, line: int, lexeme: string, m: Mark,
                          goal: Lexed, token: Option<Token>, c: int)
  {
    if state == END then token.Some? && goal == Lexed(Ok(token.value), p, line)
    else if state == ERROR then goal == Lexed(Err(InvalidCharacter(line)), p, line)
    else if c == EOF then goal == Lexed(Err(UnexpectedEndOfFile(line)), p, line)
    else Pending(s, state, p, line, lexeme, m, goal)
  }

  /** Appending the next byte to a lexeme read from the input. */
  lemma TextSnoc(s: seq<Byte>, t: nat, p: nat)
    requires t <= p < |s|
    ensures Text(s[t..p + 1]) == Text(s[t..p]) + [s[p] as char]
  {
    assert s[t..p + 1] == s[t..p] + [s[p]];
  }

  /** Every punctuation character is the lexeme of its kind. */
  lemma PunctLookup(c: int)
    requires IsPunct(c)
    ensures LexemeType([c as char]) == Some(PunctKind(c))
  {
    var k := PunctKind(c);
    assert Lexeme(k) == [c as char];
    LexemeRoundTrip(k);
  }

  /** Every relational character, alone or followed by `=`, is the lexeme of its kind. */
  lemma RelLookup(c: int)
    requires IsRelStart(c)
    ensures LexemeType([c as char]) == Some(RelKind(c, false))
    ensures LexemeType([c as char, '=']) == Some(RelKind(c, true))
  {
    var k1 := RelKind(c, false);
    var k2 := RelKind(c, true);
    assert Lexeme(k1) == [c as char];
    assert Lexeme(k2) == [c as char, '='];
    LexemeRoundTrip(k1);
    LexemeRoundTrip(k2);
  }

  /** Where a character read between tokens leads. */
  lemma Step0(s: seq<Byte>, p: nat, line: int, goal: Lexed)
    requires At0(s, p, line, "", goal)
    ensures var c := Peek(s, p);
      (c == EOF ==> goal == Lexed(Ok(Token(EndOfFile)), p, line)) &&
      (c == NL ==> At0(s, p + 1, line + 1, "", goal)) &&
      (c == SPACE || c == TAB || c == CR ==> At0(s, p + 1, line, "", goal)) &&
      (IsLetter(c) ==> At1(s, p + 1, line, [c as char], p, goal)) &&
      (c == ZERO ==> At2(s, p + 1, line, [c as char], p, goal)) &&
      (IsDigit(c) && c != ZERO ==> At3(s, p + 1, line, [c as char], p, goal)) &&
      (c == QUOTE ==> At5(s, p + 1, line, "", p, goal)) &&
      (c == AMP ==> AtDoubled(s, p + 1, line, p, AMP, goal)) &&
      (c == SLASH ==> At7(s, p + 1, line, [c as char], p, goal)) &&
      (c == PIPE ==> AtDoubled(s, p + 1, line, p, PIPE, goal)) &&
      (IsRelStart(c) ==> At12(s, p + 1, line, [c as char], p, goal)) &&
      (IsPunct(c) ==> goal == Lexed(Ok(Token(PunctKind(c))), p + 1, line)) &&
      (!(c == EOF || c == NL || c == SPACE || c == TAB || c == CR || IsLetter(c) || IsDigit(c) ||
         c == QUOTE || c == AMP || c == SLASH || c == PIPE || IsRelStart(c) || IsPunct(c)) ==>
        goal == Lexed(Err(InvalidCharacter(line)), p + 1, line))
  {
    if p < |s| {
      assert s[p..p + 1] == [s[p]];
    }
  }

  /** Where a character read inside an identifier leads. */
  lemma Step1(s: seq<Byte>, p: nat, line: int, lexeme: string, t: nat, goal: Lexed)
    requires At1(s, p, line, lexeme, t, goal)
    ensures IsIdentChar(Peek(s, p)) ==> At1(s, p + 1, line, lexeme + [s[p] as char], t, goal)
    ensures !IsIdentChar(Peek(s, p)) ==> goal == Lexed(Ok(WordOrKeyword(lexeme)), p, line)
  {
    if IsIdentChar(Peek(s, p)) {
      TextSnoc(s, t, p);
    }
  }

  /** Where a character read after a leading `0` leads. */
  lemma Step2(s: seq<Byte>, p: nat, line: int, lexeme: string, t: nat, goal: Lexed)
    requires At2(s, p, line, lexeme, t, goal)
    ensures Peek(s, p) == DOT ==> At4(s, p + 1, line, lexeme + [s[p] as char], t, p, goal)
    ensures Peek(s, p) != DOT ==> AllDigits(lexeme) && goal == IntegerAt(s, t, p, line)
  {
    if Peek(s, p) == DOT {
      TextSnoc(s, t, p);
    } else {
      TextOfDigits(s[t..p]);
    }
  }

  /** Where a character read inside the digits of a number leads. */
  lemma Step3(s: seq<Byte>, p: nat, line: int, lexeme: string, t: nat, goal: Lexed)
    requires At3(s, p, line, lexeme, t, goal)
    ensures IsDigit(Peek(s, p)) ==> At3(s, p + 1, line, lexeme + [s[p] as char], t, goal)
    ensures Peek(s, p) == DOT ==> At4(s, p + 1, line, lexeme + [s[p] as char], t, p, goal)
    ensures !IsDigit(Peek(s, p)) && Peek(s, p) != DOT ==>
      AllDigits(lexeme) && goal == IntegerAt(s, t, p, line)
  {
    if IsDigit(Peek(s, p)) || Peek(s, p) == DOT {
      TextSnoc(s, t, p);
    } else {
      TextOfDigits(s[t..p]);
    }
  }

  /** Where a character read inside a float's fraction leads. */
  lemma Step4(s: seq<Byte>, p: nat, line: int, lexeme: string, t: nat, dot: nat, goal: Lexed)
    requires At4(s, p, line, lexeme, t, dot, goal)
    ensures IsDigit(Peek(s, p)) ==> At4(s, p + 1, line, lexeme + [s[p] as char], t, dot, goal)
    ensures !IsDigit(Peek(s, p)) ==> goal == Lexed(Ok(FloatToken(lexeme)), p, line)
  {
    if IsDigit(Peek(s, p)) {
      TextSnoc(s, t, p);
    }
  }

  /** Where a character read inside a string literal leads. */
  lemma Step5(s: seq<Byte>, p: nat, line: int, lexeme: string, t: nat, goal: Lexed)
    requires At5(s, p, line, lexeme, t, goal)
    ensures Peek(s, p) == EOF ==> goal == Lexed(Err(UnexpectedEndOfFile(line)), p, line)
    ensures Peek(s, p) == QUOTE ==> goal == Lexed(Ok(WordToken(Literal, lexeme)), p + 1, line)
    ensures Peek(s, p) != EOF && Peek(s, p) != QUOTE ==>
      At5(s, p + 1, line, lexeme + [s[p] as char], t, goal)
  {
    if Peek(s, p) != EOF && Peek(s, p) != QUOTE {
      TextSnoc(s, t + 1, p);
    }
  }

  /** Where a character read after a first `&` or `|` leads. */
  lemma StepDoubled(s: seq<Byte>, p: nat, line: int, t: nat, first: int, kind: TokenType, goal: Lexed)
    requires AtDoubled(s, p, line, t, first, goal)
    requires (first == AMP && kind == And) || (first == PIPE && kind == Or)
    ensures Peek(s, p) == first ==> goal == Lexed(Ok(Token(kind)), p + 1, line)
    ensures Peek(s, p) != first ==> goal == Lexed(Err(InvalidCharacter(line)), p, line)
  {
  }

  /** Where a character read after a `/` leads. */
  lemma Step7(s: seq<Byte>, p: nat, line: int, lexeme: string, t: nat, goal: Lexed)
    requires At7(s, p, line, lexeme, t, goal)
    ensures Peek(s, p) == STAR ==> At9(s, p + 1, line, lexeme, t, line, goal)
    ensures Peek(s, p) == SLASH ==> At8(s, p + 1, line, lexeme, t, goal)
    ensures Peek(s, p) != STAR && Peek(s, p) != SLASH ==> goal == Lexed(Ok(Token(Div)), p, line)
  {
  }

  /** Where a character read inside a line comment leads. */
  lemma Step8(s: seq<Byte>, p: nat, line: int, lexeme: string, t: nat, goal: Lexed)
    requires At8(s, p, line, lexeme, t, goal)
    ensures Peek(s, p) == EOF ==> goal == Lexed(Err(UnexpectedEndOfFile(line)), p, line)
    ensures Peek(s, p) == NL ==> At0(s, p + 1, line + 1, "", goal)
    ensures Peek(s, p) != EOF && Peek(s, p) != NL ==> At8(s, p + 1, line, lexeme, t, goal)
  {
  }

  /** Where a character read inside a block comment leads. */
  lemma Step9(s: seq<Byte>, p: nat, line: int, lexeme: string, t: nat, line0: int, goal: Lexed)
    requires At9(s, p, line, lexeme, t, line0, goal)
    ensures Peek(s, p) == EOF ==> goal == Lexed(Err(UnexpectedEndOfFile(line)), p, line)
    ensures Peek(s, p) == STAR ==> At10(s, p + 1, line, lexeme, t, line0, goal)
    ensures Peek(s, p) == NL ==> At9(s, p + 1, line + 1, lexeme, t, line0, goal)
    ensures Peek(s, p) != EOF && Peek(s, p) != STAR && Peek(s, p) != NL ==>
      At9(s, p + 1, line, lexeme, t, line0, goal)
  {
  }

  /** Where a character read right after a star of a block comment leads. */
  lemma Step10(s: seq<Byte>, p: nat, line: int, lexeme: string, t: nat, line0: int, goal: Lexed)
    requires At10(s, p, line, lexeme, t, line0, goal)
    ensures Peek(s, p) == EOF ==> goal == Lexed(Err(UnexpectedEndOfFile(line)), p, line)
    ensures Peek(s, p) == SLASH ==> At0(s, p + 1, line, "", goal)
    ensures Peek(s, p) == STAR ==> At10(s, p + 1, line, lexeme, t, line0, goal)
    ensures Peek(s, p) != EOF && Peek(s, p) != SLASH && Peek(s, p) != STAR ==>
      At9(s, p + 1, line, lexeme, t, line0, goal)
  {
  }

  /** What the scan answers at a relational character: the two-character kind exactly when `=` follows. */
  lemma ScanRelational(s: seq<Byte>, t: nat, line: int)
    requires t < |s| && IsRelStart(s[t])
    ensures Scan(s, t, line) ==
      if Next(s, t) == EQ then Lexed(Ok(Token(RelKind(s[t], true))), t + 2, line)
      else Lexed(Ok(Token(RelKind(s[t], false))), t + 1, line)
  {
  }

  /** Where a character read after a relational character leads. */
  lemma Step12(s: seq<Byte>, p: nat, line: int, lexeme: string, t: nat, goal: Lexed)
    requires At12(s, p, line, lexeme, t, goal)
    ensures Peek(s, p) == EQ ==>
      LexemeType(lexeme + ['=']) == Some(RelKind(s[t], true)) &&
      goal == Lexed(Ok(Token(RelKind(s[t], true))), p + 1, line)
    ensures Peek(s, p) != EQ ==>
      LexemeType(lexeme) == Some(RelKind(s[t], false)) &&
      goal == Lexed(Ok(Token(RelKind(s[t], false))), p, line)
  {
    RelLookup(s[t]);
    ScanRelational(s, t, line);
    assert lexeme == [s[t] as char];
    assert lexeme + ['='] == [s[t] as char, '='];
  }
}
