/**
 * The lexer: a byte stream with a one-character pushback, a line counter and
 * the shared symbol table. `NextToken` runs the hand-written automaton one
 * character per step and is proved to return exactly what the lexical rules
 * `Scan` prescribe, leaving the stream and the line counter where `Scan` says.
 */
module Lexical {
  import opened Wrappers
  import opened TokenTypes
  import opened Tokens
  import opened Scope
  import opened LexSpec
  import opened LexSteps

  class Lexer {
    /** The whole input; `pos` bytes of it have been read. */
    const input: seq<Byte>
    var pos: nat
    var lineCounter: int
    var st: Table

    ghost predicate Valid()
      reads this
    {
      pos <= |input| && lineCounter >= 1
    }

    /** A lexer at the start of `input`, on line 1, registering identifiers in `st`. */
    constructor (input: seq<Byte>, st: Table)
      ensures Valid()
      ensures this.input == input && pos == 0 && lineCounter == 1 && this.st == st
    {
      this.input := input;
      pos := 0;
      lineCounter := 1;
      this.st := st;
    }

    /** getc: the next byte, or EOF once the input is exhausted. */
    method Getc() returns (c: int)
      requires Valid()
      modifies this
      ensures Valid()
      ensures old(pos) < |input| ==> c == input[old(pos)] && pos == old(pos) + 1
      ensures old(pos) == |input| ==> c == EOF && pos == old(pos)
      ensures lineCounter == old(lineCounter) && st == old(st)
    {
      if pos < |input| {
        c := input[pos];
        pos := pos + 1;
      } else {
        c := EOF;
      }
    }

    /** unget: push back the character `c` just read at `p`, so that it is read again; EOF stays EOF. */
    method Unget(c: int, ghost p: nat)
      requires Valid() && JustRead(c, p)
      modifies this
      ensures Valid() && pos == p
      ensures lineCounter == old(lineCounter) && st == old(st)
    {
      if c != EOF {
        pos := pos - 1;
      }
    }

    /** `c` is what the last Getc returned, reading at position `p`. */
    ghost predicate JustRead(c: int, p: nat)
      reads this
    {
      p <= |input| && c == Peek(input, p) && pos == (if p < |input| then p + 1 else p)
    }

    /**
     * nextToken: read one token. Lexical errors, which the source raises as
     * exceptions, are returned as `Err`. Identifiers get a row in the table.
     */
    method NextToken() returns (r: Result<Token, LexError>)
      requires Valid()
      modifies this
      ensures Valid()
      ensures Lexed(r, pos, lineCounter) == Scan(input, old(pos), old(lineCounter))
      ensures st == Registered(old(st), r)
    {
      var state := 0;
      var token: Option<Token> := None;
      var lexeme: string := "";
      ghost var goal := Scan(input, pos, lineCounter);
      ghost var m := Mark(pos, pos, lineCounter);

      while state != END && state != ERROR
        invariant Valid()
        invariant state == END || state == ERROR || Pending(input, state, pos, lineCounter, lexeme, m, goal)
        invariant state == END ==> token.Some? && goal == Lexed(Ok(token.value), pos, lineCounter)
        invariant state == ERROR ==> goal == Lexed(Err(InvalidCharacter(lineCounter)), pos, lineCounter)
        invariant st == if state == END then Registered(old(st), Ok(token.value)) else old(st)
        decreases |input| - pos, if state == END || state == ERROR then 0 else 1
      {
        ghost var p := pos;
        var c := Getc();
        var thrown: Option<LexError>;
        state, token, lexeme, m, thrown := Transition(state, c, lexeme, p, m, goal);
        if thrown.Some? {
          return Err(thrown.value);
        }

        if c == EOF && state != END && state != ERROR {
          return Err(UnexpectedEndOfFile(lineCounter));
        }
      }

      if state == END {
        return Ok(token.value);
      }
      return Err(InvalidCharacter(lineCounter));
    }

    /** One step of the automaton: the character `c` just read moves it out of `state`. */
    method Transition(state: int, c: int, lexeme: string, ghost p: nat, ghost m: Mark, ghost goal: Lexed)
      returns (state': int, token: Option<Token>, lexeme': string, ghost m': Mark, thrown: Option<LexError>)
      requires Valid() && JustRead(c, p) && Pending(input, state, p, lineCounter, lexeme, m, goal)
      modifies this
      ensures Valid() && p <= pos && (state' != END && state' != ERROR ==> pos == old(pos))
      ensures thrown.Some? ==> goal == Lexed(Err(thrown.value), pos, lineCounter) && st == old(st)
      ensures thrown.None? ==> Reached(input, state', pos, lineCounter, lexeme', m', goal, token, c)
      ensures thrown.None? ==> st == if state' == END then Registered(old(st), Ok(token.value)) else old(st)
    {
      token, lexeme', m', thrown := None, lexeme, m, None;
      if state == 0 {
        state', token, lexeme', m' := Start(c, p, goal);
      } else if state == 1 {
        state', token, lexeme' := InIdentifier(c, lexeme, p, m, goal);
      } else if state == 2 {
        state', token, lexeme', m', thrown := AfterZero(c, lexeme, p, m, goal);
      } else if state == 3 {
        state', token, lexeme', m', thrown := InDigits(c, lexeme, p, m, goal);
      } else if state == 4 {
        state', token, lexeme' := InFraction(c, lexeme, p, m, goal);
      } else if state == 5 {
        state', token, lexeme' := InString(c, lexeme, p, m, goal);
      } else if state == 6 {
        state', token := AfterFirst(c, AMP, And, p, m, goal);
      } else if state == 7 {
        state', token, m' := AfterSlash(c, lexeme, p, m, goal);
      } else if state == 8 {
        state', lexeme' := InLineComment(c, lexeme, p, m, goal);
      } else if state == 9 {
        state' := InBlockComment(c, lexeme, p, m, goal);
      } else if state == 10 {
        state', lexeme' := AfterCommentStar(c, lexeme, p, m, goal);
      } else if state == 11 {
        state', token := AfterFirst(c, PIPE, Or, p, m, goal);
      } else {
        state', token, lexeme' := AfterRelational(c, lexeme, p, m, goal);
      }
    }

    /** State 0: skip blanks and count lines; the first other character picks the token's state. */
    method Start(c: int, ghost p: nat, ghost goal: Lexed)
      returns (state: int, token: Option<Token>, lexeme: string, ghost m: Mark)
      requires Valid() && JustRead(c, p) && At0(input, p, lineCounter, "", goal)
      modifies this
      ensures p <= pos && (state != END && state != ERROR ==> pos == old(pos))
      ensures Valid() && Reached(input, state, pos, lineCounter, lexeme, m, goal, token, c)
      ensures st == if state == END then Registered(old(st), Ok(token.value)) else old(st)
    {
      Step0(input, p, lineCounter, goal);
      token := None;
      lexeme := "";
      m := Mark(p, p, lineCounter);
      if c == EOF {
        token := Some(Token(EndOfFile));
        state := END;
      } else if c == NL {
        lineCounter := lineCounter + 1;
        state := 0;
      } else if c == SPACE || c == TAB || c == CR {
        state := 0;
      } else if IsLetter(c) {
        lexeme := lexeme + [c as char];
        state := 1;
      } else if c == ZERO {
        lexeme := lexeme + [c as char];
        state := 2;
      } else if IsDigit(c) {
        lexeme := lexeme + [c as char];
        state := 3;
      } else if c == QUOTE {
        state := 5;
      } else if c == AMP {
        lexeme := lexeme + [c as char];
        state := 6;
      } else if c == SLASH {
        lexeme := lexeme + [c as char];
        state := 7;
      } else if c == PIPE {
        lexeme := lexeme + [c as char];
        state := 11;
      } else if IsRelStart(c) {
        lexeme := lexeme + [c as char];
        state := 12;
      } else if IsPunct(c) {
        lexeme := lexeme + [c as char];
        PunctLookup(c);
        var kind := GetLexemeType(lexeme);
        token := Some(Token(kind.value));
        state := END;
      } else {
        state := ERROR;
      }
    }

    /** State 1: extend the identifier, or end it and decide between keyword and identifier. */
    method InIdentifier(c: int, lexeme: string, ghost p: nat, ghost m: Mark, ghost goal: Lexed)
      returns (state: int, token: Option<Token>, lexeme': string)
      requires Valid() && JustRead(c, p) && At1(input, p, lineCounter, lexeme, m.t, goal)
      modifies this
      ensures p <= pos && (state != END && state != ERROR ==> pos == old(pos))
      ensures Valid() && Reached(input, state, pos, lineCounter, lexeme', m, goal, token, c)
      ensures st == if state == END then Registered(old(st), Ok(token.value)) else old(st)
    {
      Step1(input, p, lineCounter, lexeme, m.t, goal);
      token := None;
      lexeme' := lexeme;
      if IsIdentChar(c) {
        lexeme' := lexeme + [c as char];
        state := 1;
      } else {
        Unget(c, p);
        var kind := GetLexemeType(lexeme);
        if kind.Some? {
          token := Some(Token(kind.value));
        } else {
          token := Some(WordToken(Identifier, lexeme));
          st := Register(st, lexeme);
        }
        assert token.value == WordOrKeyword(lexeme);
        state := END;
      }
    }

    /** State 2: after a leading zero only a dot continues the number. */
    method AfterZero(c: int, lexeme: string, ghost p: nat, ghost m: Mark, ghost goal: Lexed)
      returns (state: int, token: Option<Token>, lexeme': string, ghost m': Mark, thrown: Option<LexError>)
      requires Valid() && JustRead(c, p) && At2(input, p, lineCounter, lexeme, m.t, goal)
      modifies this
      ensures p <= pos && (state != END && state != ERROR ==> pos == old(pos))
      ensures Valid() && st == old(st)
      ensures thrown.Some? ==> goal == Lexed(Err(thrown.value), pos, lineCounter)
      ensures thrown.None? ==> Reached(input, state, pos, lineCounter, lexeme', m', goal, token, c)
      ensures thrown.None? && state == END ==> Registered(st, Ok(token.value)) == st
    {
      Step2(input, p, lineCounter, lexeme, m.t, goal);
      token, lexeme', m', thrown := None, lexeme, m, None;
      if c == DOT {
        m' := m.(dot := p);
        lexeme' := lexeme + [c as char];
        state := 4;
      } else {
        Unget(c, p);
        state := END;
        var v := DecimalValue(lexeme);
        if v >= 0x8000_0000 {
          thrown := Some(IntegerOutOfRange(lexeme));
        } else {
          token := Some(IntegerToken(v));
        }
      }
    }

    /** State 3: extend the digits, switch to the fraction at a dot, or end the integer. */
    method InDigits(c: int, lexeme: string, ghost p: nat, ghost m: Mark, ghost goal: Lexed)
      returns (state: int, token: Option<Token>, lexeme': string, ghost m': Mark, thrown: Option<LexError>)
      requires Valid() && JustRead(c, p) && At3(input, p, lineCounter, lexeme, m.t, goal)
      modifies this
      ensures p <= pos && (state != END && state != ERROR ==> pos == old(pos))
      ensures Valid() && st == old(st)
      ensures thrown.Some? ==> goal == Lexed(Err(thrown.value), pos, lineCounter)
      ensures thrown.None? ==> Reached(input, state, pos, lineCounter, lexeme', m', goal, token, c)
      ensures thrown.None? && state == END ==> Registered(st, Ok(token.value)) == st
    {
      Step3(input, p, lineCounter, lexeme, m.t, goal);
      token, lexeme', m', thrown := None, lexeme, m, None;
      if IsDigit(c) {
        lexeme' := lexeme + [c as char];
        state := 3;
      } else if c == DOT {
        m' := m.(dot := p);
        lexeme' := lexeme + [c as char];
        state := 4;
      } else {
        Unget(c, p);
        state := END;
        var v := DecimalValue(lexeme);
        if v >= 0x8000_0000 {
          thrown := Some(IntegerOutOfRange(lexeme));
        } else {
          token := Some(IntegerToken(v));
        }
      }
    }

    /** State 4: extend the fraction, or end the float. */
    method InFraction(c: int, lexeme: string, ghost p: nat, ghost m: Mark, ghost goal: Lexed)
      returns (state: int, token: Option<Token>, lexeme': string)
      requires Valid() && JustRead(c, p) && At4(input, p, lineCounter, lexeme, m.t, m.dot, goal)
      modifies this
      ensures p <= pos && (state != END && state != ERROR ==> pos == old(pos))
      ensures Valid() && Reached(input, state, pos, lineCounter, lexeme', m, goal, token, c)
      ensures st == if state == END then Registered(old(st), Ok(token.value)) else old(st)
    {
      Step4(input, p, lineCounter, lexeme, m.t, m.dot, goal);
      token, lexeme' := None, lexeme;
      if IsDigit(c) {
        lexeme' := lexeme + [c as char];
        state := 4;
      } else {
        Unget(c, p);
        token := Some(FloatToken(lexeme));
        state := END;
      }
    }

    /** State 5: collect the literal's characters up to the closing quote. */
    method InString(c: int, lexeme: string, ghost p: nat, ghost m: Mark, ghost goal: Lexed)
      returns (state: int, token: Option<Token>, lexeme': string)
      requires Valid() && JustRead(c, p) && At5(input, p, lineCounter, lexeme, m.t, goal)
      modifies this
      ensures p <= pos && (state != END && state != ERROR ==> pos == old(pos))
      ensures Valid() && Reached(input, state, pos, lineCounter, lexeme', m, goal, token, c)
      ensures st == if state == END then Registered(old(st), Ok(token.value)) else old(st)
    {
      Step5(input, p, lineCounter, lexeme, m.t, goal);
      token, lexeme', state := None, lexeme, 5;
      if c == QUOTE {
        token := Some(WordToken(Literal, lexeme));
        state := END;
      } else if c != EOF {
        lexeme' := lexeme + [c as char];
        state := 5;
      }
    }

    /** States 6 and 11: the second `&` or `|` completes the operator; anything else is an error. */
    method AfterFirst(c: int, first: int, kind: TokenType, ghost p: nat, ghost m: Mark, ghost goal: Lexed)
      returns (state: int, token: Option<Token>)
      requires (first == AMP && kind == And) || (first == PIPE && kind == Or)
      requires Valid() && JustRead(c, p) && AtDoubled(input, p, lineCounter, m.t, first, goal)
      modifies this
      ensures p <= pos && (state != END && state != ERROR ==> pos == old(pos))
      ensures state == END || state == ERROR
      ensures Valid() && Reached(input, state, pos, lineCounter, "", m, goal, token, c)
      ensures st == if state == END then Registered(old(st), Ok(token.value)) else old(st)
    {
      StepDoubled(input, p, lineCounter, m.t, first, kind, goal);
      token := None;
      if c == first {
        token := Some(Token(kind));
        state := END;
      } else {
        Unget(c, p);
        state := ERROR;
      }
    }

    /** State 7: a `/` starts a block comment, a line comment, or is the division operator. */
    method AfterSlash(c: int, lexeme: string, ghost p: nat, ghost m: Mark, ghost goal: Lexed)
      returns (state: int, token: Option<Token>, ghost m': Mark)
      requires Valid() && JustRead(c, p) && At7(input, p, lineCounter, lexeme, m.t, goal)
      modifies this
      ensures p <= pos && (state != END && state != ERROR ==> pos == old(pos))
      ensures Valid() && Reached(input, state, pos, lineCounter, lexeme, m', goal, token, c)
      ensures st == if state == END then Registered(old(st), Ok(token.value)) else old(st)
    {
      Step7(input, p, lineCounter, lexeme, m.t, goal);
      token, m' := None, m;
      if c == STAR {
        m' := m.(line0 := lineCounter);
        state := 9;
      } else if c == SLASH {
        state := 8;
      } else {
        Unget(c, p);
        token := Some(Token(Div));
        state := END;
      }
    }

    /** State 8: a line comment runs to the end of the line. */
    method InLineComment(c: int, lexeme: string, ghost p: nat, ghost m: Mark, ghost goal: Lexed)
      returns (state: int, lexeme': string)
      requires Valid() && JustRead(c, p) && At8(input, p, lineCounter, lexeme, m.t, goal)
      modifies this
      ensures p <= pos && (state != END && state != ERROR ==> pos == old(pos))
      ensures Valid() && st == old(st) && Reached(input, state, pos, lineCounter, lexeme', m, goal, None, c)
    {
      Step8(input, p, lineCounter, lexeme, m.t, goal);
      lexeme' := lexeme;
      if c == NL {
        lexeme' := "";
        lineCounter := lineCounter + 1;
        state := 0;
      } else {
        state := 8;
      }
    }

    /** State 9: inside a block comment; count its lines and watch for a star. */
    method InBlockComment(c: int, lexeme: string, ghost p: nat, ghost m: Mark, ghost goal: Lexed)
      returns (state: int)
      requires Valid() && JustRead(c, p) && At9(input, p, lineCounter, lexeme, m.t, m.line0, goal)
      modifies this
      ensures p <= pos && (state != END && state != ERROR ==> pos == old(pos))
      ensures Valid() && st == old(st) && Reached(input, state, pos, lineCounter, lexeme, m, goal, None, c)
    {
      Step9(input, p, lineCounter, lexeme, m.t, m.line0, goal);
      if c == STAR {
        state := 10;
      } else if c == NL {
        lineCounter := lineCounter + 1;
        state := 9;
      } else {
        state := 9;
      }
    }

    /** State 10: after a star in a block comment, a slash closes the comment. */
    method AfterCommentStar(c: int, lexeme: string, ghost p: nat, ghost m: Mark, ghost goal: Lexed)
      returns (state: int, lexeme': string)
      requires Valid() && JustRead(c, p) && At10(input, p, lineCounter, lexeme, m.t, m.line0, goal)
      modifies this
      ensures p <= pos && (state != END && state != ERROR ==> pos == old(pos))
      ensures Valid() && st == old(st) && Reached(input, state, pos, lineCounter, lexeme', m, goal, None, c)
    {
      Step10(input, p, lineCounter, lexeme, m.t, m.line0, goal);
      lexeme' := lexeme;
      if c == SLASH {
        lexeme' := "";
        state := 0;
      } else if c == STAR {
        state := 10;
      } else {
        state := 9;
      }
    }

    /** State 12: a following `=` makes the two-character operator; otherwise the single one. */
    method AfterRelational(c: int, lexeme: string, ghost p: nat, ghost m: Mark, ghost goal: Lexed)
      returns (state: int, token: Option<Token>, lexeme': string)
      requires Valid() && JustRead(c, p) && At12(input, p, lineCounter, lexeme, m.t, goal)
      modifies this
      ensures p <= pos && (state != END && state != ERROR ==> pos == old(pos))
      ensures Valid() && Reached(input, state, pos, lineCounter, lexeme', m, goal, token, c)
      ensures st == if state == END then Registered(old(st), Ok(token.value)) else old(st)
    {
      Step12(input, p, lineCounter, lexeme, m.t, goal);
      lexeme' := lexeme;
      if c == EQ {
        lexeme' := lexeme + [c as char];
        var kind := GetLexemeType(lexeme');
        token := Some(Token(kind.value));
        state := END;
      } else {
        Unget(c, p);
        var kind := GetLexemeType(lexeme);
        token := Some(Token(kind.value));
        state := END;
      }
    }

    /** getLineCounter: the line the lexer is on; it never goes below 1. */
    function GetLineCounter(): (n: int)
      reads this
      requires Valid()
      ensures n >= 1
    {
      lineCounter
    }
  }
}
