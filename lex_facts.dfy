/**
 * Properties of the lexical rules `Scan`, and so of every token request the
 * lexer answers.
 */
module LexFacts {
  import opened Wrappers
  import opened TokenTypes
  import opened Tokens
  import opened LexSpec
  import opened LexSteps

  /** The characters that state 0 skips without producing anything. */
  predicate IsBlank(c: int)
  {
    c == NL || c == SPACE || c == TAB || c == CR
  }

  /** How many newlines `s[i..j]` holds. */
  function NewlineCount(s: seq<Byte>, i: nat, j: nat): nat
    requires i <= j <= |s|
    decreases j - i
  {
    if i == j then 0 else (if s[i] == NL then 1 else 0) + NewlineCount(s, i + 1, j)
  }

  /** What every token request guarantees about its outcome `r` when it starts at `i`. */
  predicate Sane(s: seq<Byte>, i: nat, line: int, r: Lexed)
  {
    i <= r.next <= |s| && line <= r.line &&
    (i < |s| ==> i < r.next) &&
    (r.result.Ok? ==> r.result.value.WellFormed()) &&
    (r.result.Ok? && r.result.value == Token(EndOfFile) ==> r.next == |s|)
  }

  /** An identifier-shaped lexeme is read up to the first character that cannot continue it. */
  lemma WordScan(s: seq<Byte>, i: nat, line: int)
    requires i < |s| && IsLetter(s[i])
    ensures var e := IdentEnd(s, i + 1);
      Scan(s, i, line) == Lexed(Ok(WordOrKeyword(Text(s[i..e]))), e, line)
  {
  }

  lemma WordSane(s: seq<Byte>, i: nat, line: int)
    requires i < |s| && IsLetter(s[i])
    ensures Sane(s, i, line, Scan(s, i, line))
  {
    WordScan(s, i, line);
    LexemeTypeSound(Text(s[i..IdentEnd(s, i + 1)]));
  }

  lemma RelationalSane(s: seq<Byte>, i: nat, line: int)
    requires i < |s| && IsRelStart(s[i])
    ensures Sane(s, i, line, Scan(s, i, line))
  {
    EmptyLexemeKinds(RelKind(s[i], true));
    EmptyLexemeKinds(RelKind(s[i], false));
  }

  lemma PunctuationSane(s: seq<Byte>, i: nat, line: int)
    requires i < |s| && IsPunct(s[i])
    ensures Sane(s, i, line, Scan(s, i, line))
  {
    EmptyLexemeKinds(PunctKind(s[i]));
  }

  lemma SlashSane(s: seq<Byte>, i: nat, line: int)
    requires i < |s| && s[i] == SLASH && Next(s, i) != STAR && Next(s, i) != SLASH
    ensures Sane(s, i, line, Scan(s, i, line))
  {
    assert Scan(s, i, line) == Lexed(Ok(Token(Div)), i + 1, line);
    EmptyLexemeKinds(Div);
  }

  lemma LiteralSane(s: seq<Byte>, i: nat, line: int)
    requires i < |s| && !IsLetter(s[i]) && (IsDigit(s[i]) || s[i] == QUOTE || s[i] == AMP || s[i] == PIPE)
    ensures Sane(s, i, line, Scan(s, i, line))
  {
    if s[i] == AMP || s[i] == PIPE {
      EmptyLexemeKinds(And);
      EmptyLexemeKinds(Or);
    }
  }

  /**
   * Each request consumes input unless it is at the end, never moves the line
   * counter back, and yields only well-formed tokens; the end-of-file token
   * comes only once the input is used up.
   */
  lemma {:induction false} ScanProgress(s: seq<Byte>, i: nat, line: int)
    requires i <= |s|
    ensures Sane(s, i, line, Scan(s, i, line))
    decreases |s| - i, 2
  {
    if i < |s| {
      var c := s[i];
      if c == NL || c == SPACE || c == TAB || c == CR {
        BlankSane(s, i, line);
      } else if IsLetter(c) {
        WordSane(s, i, line);
      } else if IsDigit(c) || c == QUOTE || c == AMP || c == PIPE {
        LiteralSane(s, i, line);
      } else if c == SLASH && Next(s, i) == STAR {
        BlockCommentSane(s, i, line);
      } else if c == SLASH && Next(s, i) == SLASH {
        LineCommentSane(s, i, line);
      } else if c == SLASH {
        SlashSane(s, i, line);
      } else if IsRelStart(c) {
        RelationalSane(s, i, line);
      } else if IsPunct(c) {
        PunctuationSane(s, i, line);
      } else {
        InvalidSane(s, i, line);
      }
    }
  }

  /** A request that restarts at `j` with line counter `l` after skipping input. */
  lemma SkipSane(s: seq<Byte>, i: nat, line: int, j: nat, l: int)
    requires i < j <= |s| && line <= l
    requires Scan(s, i, line) == Scan(s, j, l) && Sane(s, j, l, Scan(s, j, l))
    ensures Sane(s, i, line, Scan(s, i, line))
  {
  }

  lemma {:induction false} BlankSane(s: seq<Byte>, i: nat, line: int)
    requires i < |s| && (s[i] == NL || s[i] == SPACE || s[i] == TAB || s[i] == CR)
    ensures Sane(s, i, line, Scan(s, i, line))
    decreases |s| - i, 1
  {
    var l := if s[i] == NL then line + 1 else line;
    assert Scan(s, i, line) == Scan(s, i + 1, l);
    ScanProgress(s, i + 1, l);
    SkipSane(s, i, line, i + 1, l);
  }

  /**
   * A block comment runs to the first closer after its opening, and the
   * request goes on after the closer with the line counter raised by the
   * comment's counted newlines; without a closer the input ends inside it.
   */
  lemma BlockCommentScan(s: seq<Byte>, i: nat, line: int)
    requires i < |s| && s[i] == SLASH && Next(s, i) == STAR
    ensures var k := CloseAt(s, i + 2);
      var l := line + CommentNewlines(s, i + 2, k);
      Scan(s, i, line) == if k == |s| then Lexed(Err(UnexpectedEndOfFile(l)), k, l) else Scan(s, k + 2, l)
  {
    assert !IsLetter(s[i]) && !IsDigit(s[i]) && !IsRelStart(s[i]);
  }

  lemma {:induction false} BlockCommentSane(s: seq<Byte>, i: nat, line: int)
    requires i < |s| && s[i] == SLASH && Next(s, i) == STAR
    ensures Sane(s, i, line, Scan(s, i, line))
    decreases |s| - i, 1
  {
    var k := CloseAt(s, i + 2);
    var l := line + CommentNewlines(s, i + 2, k);
    BlockCommentScan(s, i, line);
    if k < |s| {
      ScanProgress(s, k + 2, l);
      SkipSane(s, i, line, k + 2, l);
    } else {
      assert Scan(s, i, line) == Lexed(Err(UnexpectedEndOfFile(l)), k, l);
    }
  }

  /** A `//` comment runs to the next newline, which is counted; without one the input ends inside it. */
  lemma LineCommentScan(s: seq<Byte>, i: nat, line: int)
    requires i < |s| && s[i] == SLASH && Next(s, i) == SLASH
    ensures var e := FindByte(s, i + 2, NL);
      Scan(s, i, line) ==
        if e == |s| then Lexed(Err(UnexpectedEndOfFile(line)), e, line) else Scan(s, e + 1, line + 1)
  {
    assert !IsLetter(s[i]) && !IsDigit(s[i]) && !IsRelStart(s[i]);
  }

  lemma {:induction false} LineCommentSane(s: seq<Byte>, i: nat, line: int)
    requires i < |s| && s[i] == SLASH && Next(s, i) == SLASH
    ensures Sane(s, i, line, Scan(s, i, line))
    decreases |s| - i, 1
  {
    var e := FindByte(s, i + 2, NL);
    LineCommentScan(s, i, line);
    if e < |s| {
      assert Scan(s, i, line) == Scan(s, e + 1, line + 1);
      ScanProgress(s, e + 1, line + 1);
      SkipSane(s, i, line, e + 1, line + 1);
    } else {
      assert Scan(s, i, line) == Lexed(Err(UnexpectedEndOfFile(line)), |s|, line);
    }
  }

  lemma InvalidSane(s: seq<Byte>, i: nat, line: int)
    requires i < |s| && !IsLetter(s[i]) && !IsDigit(s[i]) && !IsRelStart(s[i]) && !IsPunct(s[i])
    requires s[i] !in {NL, SPACE, TAB, CR, QUOTE, AMP, PIPE, SLASH}
    ensures Sane(s, i, line, Scan(s, i, line))
  {
    assert Scan(s, i, line) == Lexed(Err(InvalidCharacter(line)), i + 1, line);
  }

  /**
   * A word that is not a kind's lexeme is an identifier: a letter followed by
   * letters, digits and underscores, read up to the first character that
   * cannot continue it.
   */
  lemma IdentifierShape(s: seq<Byte>, i: nat, line: int)
    requires i < |s| && IsLetter(s[i])
    ensures var r := Scan(s, i, line);
      r.result.Ok? && (r.result.value.WordToken? <==> LexemeType(Text(s[i..r.next])).None?)
    ensures var r := Scan(s, i, line);
      r.result.Ok? && r.result.value.WordToken? ==>
        var x := r.result.value.lexeme;
        r.result.value.kind == Identifier && |x| == r.next - i && IsLetter(x[0] as int) &&
        (forall k :: 1 <= k < |x| ==> IsIdentChar(x[k] as int)) &&
        (forall k :: Lexeme(k) != x) &&
        (r.next < |s| ==> !IsIdentChar(s[r.next]))
  {
    WordScan(s, i, line);
    var e := IdentEnd(s, i + 1);
    var x := Text(s[i..e]);
    LexemeTypeSound(x);
    if LexemeType(x).None? {
      assert Scan(s, i, line) == Lexed(Ok(WordToken(Identifier, x)), e, line);
      forall k | 1 <= k < |x|
        ensures IsIdentChar(x[k] as int)
      {
        assert x[k] as int == s[i + k];
      }
    } else {
      assert Scan(s, i, line) == Lexed(Ok(Token(LexemeType(x).value)), e, line);
    }
  }

  /**
   * A run of blanks produces nothing: the request goes on after it, with the
   * line counter raised by exactly the number of newlines in the run.
   */
  lemma {:induction false} BlanksSkipped(s: seq<Byte>, i: nat, j: nat, line: int)
    requires i <= j <= |s| && forall k :: i <= k < j ==> IsBlank(s[k])
    ensures Scan(s, i, line) == Scan(s, j, line + NewlineCount(s, i, j))
    decreases j - i
  {
    if i < j {
      BlanksSkipped(s, i + 1, j, line + (if s[i] == NL then 1 else 0));
    }
  }

  /** A word at the very end of the input is still returned, keyword or identifier. */
  lemma WordAtEndOfInput(s: seq<Byte>, i: nat, line: int)
    requires i < |s| && IsLetter(s[i])
    requires forall k :: i < k < |s| ==> IsIdentChar(s[k])
    ensures Scan(s, i, line) == Lexed(Ok(WordOrKeyword(Text(s[i..]))), |s|, line)
  {
    WordScan(s, i, line);
    IdentEndAtEnd(s, i + 1);
    assert s[i..IdentEnd(s, i + 1)] == s[i..];
  }

  /** A run of identifier characters that reaches the end of the input ends there. */
  lemma {:induction false} IdentEndAtEnd(s: seq<Byte>, j: nat)
    requires j <= |s| && forall k :: j <= k < |s| ==> IsIdentChar(s[k])
    ensures IdentEnd(s, j) == |s|
    decreases |s| - j
  {
    if j < |s| {
      IdentEndAtEnd(s, j + 1);
    }
  }

  /**
   * A token whose last character is the input's last byte is still returned:
   * the end-of-file check is skipped once the automaton has reached END. This
   * holds for integers, `/`, relational characters with or without their `=`,
   * and the one-character tokens.
   */
  lemma EndingAtEndOfInput(s: seq<Byte>, i: nat, line: int)
    requires i < |s|
    ensures IsDigit(s[i]) && (s[i] != ZERO || i + 1 == |s|) && (forall k :: i < k < |s| ==> IsDigit(s[k])) ==>
      Scan(s, i, line) == IntegerAt(s, i, |s|, line)
    ensures i + 1 == |s| && s[i] == SLASH ==> Scan(s, i, line) == Lexed(Ok(Token(Div)), |s|, line)
    ensures i + 1 == |s| && IsRelStart(s[i]) ==> Scan(s, i, line) == Lexed(Ok(Token(RelKind(s[i], false))), |s|, line)
    ensures i + 2 == |s| && IsRelStart(s[i]) && s[i + 1] == EQ ==>
      Scan(s, i, line) == Lexed(Ok(Token(RelKind(s[i], true))), |s|, line)
    ensures i + 1 == |s| && IsPunct(s[i]) ==> Scan(s, i, line) == Lexed(Ok(Token(PunctKind(s[i]))), |s|, line)
  {
    if IsDigit(s[i]) && s[i] != ZERO && forall k :: i < k < |s| ==> IsDigit(s[k]) {
      assert DigitsEnd(s, i + 1) == |s|;
    }
  }

  /** Input that ends inside a string literal is an unexpected end of file, on the literal's line. */
  lemma UnterminatedString(s: seq<Byte>, i: nat, line: int)
    requires i < |s| && s[i] == QUOTE
    requires forall k :: i < k < |s| ==> s[k] != QUOTE
    ensures Scan(s, i, line) == Lexed(Err(UnexpectedEndOfFile(line)), |s|, line)
  {
    assert FindByte(s, i + 1, QUOTE) == |s|;
  }

  /** Input that ends inside a line comment is an unexpected end of file. */
  lemma UnterminatedLineComment(s: seq<Byte>, i: nat, line: int)
    requires i + 1 < |s| && s[i] == SLASH && s[i + 1] == SLASH
    requires forall k :: i + 1 < k < |s| ==> s[k] != NL
    ensures Scan(s, i, line) == Lexed(Err(UnexpectedEndOfFile(line)), |s|, line)
  {
    assert FindByte(s, i + 2, NL) == |s|;
  }

  /** Input that ends inside a block comment is an unexpected end of file. */
  lemma UnterminatedBlockComment(s: seq<Byte>, i: nat, line: int)
    requires i + 1 < |s| && s[i] == SLASH && s[i + 1] == STAR
    requires forall k :: i + 1 < k < |s| - 1 ==> !(s[k] == STAR && s[k + 1] == SLASH)
    ensures Scan(s, i, line).result.Err? && Scan(s, i, line).result.error.UnexpectedEndOfFile?
    ensures Scan(s, i, line).next == |s|
  {
    assert CloseAt(s, i + 2) == |s|;
  }

  /** A leading 0 not followed by a dot is the integer 0 on its own: `05` is 0 and then 5. */
  lemma LeadingZeroStandsAlone(s: seq<Byte>, i: nat, line: int)
    requires i < |s| && s[i] == ZERO && Next(s, i) != DOT
    ensures Scan(s, i, line) == Lexed(Ok(IntegerToken(0)), i + 1, line)
  {
    assert Text(s[i..i + 1]) == "0";
    assert DecimalValue("0") == DecimalValue("") * 10 + DigitValue('0');
  }

  /**
   * Digits and then a dot at `d` are a real constant, with the digits after
   * the dot if there are any: `1.` is one REAL_CONST. A run that starts with
   * 0 takes a dot only right after that 0.
   */
  lemma TrailingDotIsReal(s: seq<Byte>, i: nat, d: nat, line: int)
    requires i < d < |s| && s[d] == DOT && forall k :: i <= k < d ==> IsDigit(s[k])
    requires s[i] != ZERO || d == i + 1
    ensures var e := DigitsEnd(s, d + 1);
      Scan(s, i, line) == Lexed(Ok(FloatToken(Text(s[i..e]))), e, line)
    ensures !IsDigit(Next(s, d)) ==> Scan(s, i, line) == Lexed(Ok(FloatToken(Text(s[i..d + 1]))), d + 1, line)
  {
    if s[i] != ZERO {
      assert DigitsEnd(s, i + 1) == d;
    }
  }

  /**
   * A closed literal is the text between its quotes, newlines included, and
   * reading it leaves the line counter where it was.
   */
  lemma LiteralKeepsNewlines(s: seq<Byte>, i: nat, e: nat, line: int)
    requires i < e < |s| && s[i] == QUOTE && s[e] == QUOTE
    requires forall k :: i < k < e ==> s[k] != QUOTE
    ensures Scan(s, i, line) == Lexed(Ok(WordToken(Literal, Text(s[i + 1..e]))), e + 1, line)
  {
    assert FindByte(s, i + 1, QUOTE) == e;
  }

  /**
   * `&` and `|` are tokens only when doubled: otherwise the first character,
   * even at the end of the input, is an invalid character and what follows it
   * is left unread.
   */
  lemma LoneAmpersand(s: seq<Byte>, i: nat, line: int)
    requires i < |s| && (s[i] == AMP || s[i] == PIPE)
    ensures Next(s, i) == s[i] ==> Scan(s, i, line) == Lexed(Ok(Token(if s[i] == AMP then And else Or)), i + 2, line)
    ensures Next(s, i) != s[i] ==> Scan(s, i, line) == Lexed(Err(InvalidCharacter(line)), i + 1, line)
  {
    assert !IsLetter(s[i]) && !IsDigit(s[i]);
  }

  /** Characters with no transition out of state 0 are invalid; the lexer moves past them. */
  lemma InvalidStarts(s: seq<Byte>, i: nat, line: int)
    requires i < |s| && s[i] in {DOT, ':' as int, UNDERSCORE, '[' as int}
    ensures Scan(s, i, line) == Lexed(Err(InvalidCharacter(line)), i + 1, line)
  {
  }

  /** The newlines of `s[i..j]` counted from the back: the last byte adds one when it is a newline. */
  lemma {:induction false} NewlineCountLast(s: seq<Byte>, i: nat, j: nat)
    requires i < j <= |s|
    ensures NewlineCount(s, i, j) == NewlineCount(s, i, j - 1) + (if s[j - 1] == NL then 1 else 0)
    decreases j - i
  {
    if i < j - 1 {
      NewlineCountLast(s, i + 1, j);
    }
  }

  /**
   * A block comment text without stars has every one of its newlines counted:
   * only a newline right after a star is passed over.
   */
  lemma {:induction false} StarlessCommentNewlines(s: seq<Byte>, j: nat, upto: nat)
    requires j <= upto <= |s| && forall k :: j <= k < upto ==> s[k] != STAR
    ensures CommentNewlines(s, j, upto) == NewlineCount(s, j, upto)
    decreases upto
  {
    if j < upto {
      StarlessCommentNewlines(s, j, upto - 1);
      NewlineCountLast(s, j, upto);
    }
  }

  // Token streams.

  /**
   * The tokens successive requests answer when the first is made at `i` on
   * line `line`: up to and including end-of-file, or up to the first lexical
   * error, which ends the stream.
   */
  function TokenStream(s: seq<Byte>, i: nat, line: int): (ts: seq<Token>)
    requires i <= |s|
    ensures ts == [] <==> Scan(s, i, line).result.Err?
    ensures ts != [] ==> Scan(s, i, line).result == Ok(ts[0])
    ensures forall k :: 0 <= k < |ts| - 1 ==> ts[k] != Token(EndOfFile)
    decreases |s| - i
  {
    var r := Scan(s, i, line);
    if r.result.Err? then []
    else if r.result.value == Token(EndOfFile) then [r.result.value]
    else
      ScanProgress(s, i, line);
      [r.result.value] + TokenStream(s, r.next, r.line)
  }

  /** Where the lexer stands: the position of the next byte to read and the line counter. */
  datatype Cursor = Cursor(at: nat, line: int)

  /**
   * Where the lexer stands before each request of `TokenStream(s, i, line)`,
   * and after the last.
   */
  ghost function StreamMarks(s: seq<Byte>, i: nat, line: int): (cs: seq<Cursor>)
    requires i <= |s|
    ensures |cs| == |TokenStream(s, i, line)| + 1 && cs[0] == Cursor(i, line)
    decreases |s| - i
  {
    var r := Scan(s, i, line);
    if r.result.Err? then [Cursor(i, line)]
    else if r.result.value == Token(EndOfFile) then [Cursor(i, line), Cursor(r.next, r.line)]
    else
      ScanProgress(s, i, line);
      [Cursor(i, line)] + StreamMarks(s, r.next, r.line)
  }

  /**
   * The k-th of the cursors `cs`. Facts about a request are stated on this
   * term, so that they come into a proof only where a request is made.
   */
  ghost function Mark(cs: seq<Cursor>, k: nat): Cursor
    requires k < |cs|
  {
    cs[k]
  }

  /** Requests made from `cs[0]` answer the tokens `ts` in turn, the k-th leaving the lexer at `cs[k + 1]`. */
  ghost predicate Answers(s: seq<Byte>, ts: seq<Token>, cs: seq<Cursor>)
  {
    |cs| == |ts| + 1 &&
    forall k: nat {:trigger Mark(cs, k)} :: k < |ts| ==>
      Mark(cs, k).at <= |s| &&
      Scan(s, Mark(cs, k).at, Mark(cs, k).line) == Lexed(Ok(ts[k]), cs[k + 1].at, cs[k + 1].line)
  }

  /**
   * The answers `ts` stop where a token stream does: at their only
   * end-of-file, or else because the request made at `c` fails.
   */
  ghost predicate Stops(s: seq<Byte>, ts: seq<Token>, c: Cursor)
  {
    c.at <= |s| &&
    (forall k {:trigger ts[k]} :: 0 <= k < |ts| - 1 ==> ts[k] != Token(EndOfFile)) &&
    (ts == [] || ts[|ts| - 1] != Token(EndOfFile) ==> Scan(s, c.at, c.line).result.Err?)
  }

  /** A token stream is exactly the answers of successive requests, and stops where they stop. */
  lemma {:induction false} StreamAnswers(s: seq<Byte>, i: nat, line: int)
    requires i <= |s|
    ensures var ts, cs := TokenStream(s, i, line), StreamMarks(s, i, line);
      Answers(s, ts, cs) && Stops(s, ts, cs[|ts|])
    decreases |s| - i
  {
    var r := Scan(s, i, line);
    var ts, cs := TokenStream(s, i, line), StreamMarks(s, i, line);
    if r.result.Ok? && r.result.value != Token(EndOfFile) {
      ScanProgress(s, i, line);
      StreamAnswers(s, r.next, r.line);
      var ts', cs' := TokenStream(s, r.next, r.line), StreamMarks(s, r.next, r.line);
      assert ts == [r.result.value] + ts' && cs == [Cursor(i, line)] + cs';
      forall k: nat | k < |ts|
        ensures Mark(cs, k).at <= |s| &&
          Scan(s, Mark(cs, k).at, Mark(cs, k).line) == Lexed(Ok(ts[k]), cs[k + 1].at, cs[k + 1].line)
      {
        if k > 0 {
          assert Mark(cs', k - 1) == cs'[k - 1];
          assert ts[k] == ts'[k - 1] && cs[k] == cs'[k - 1] && cs[k + 1] == cs'[k];
        }
      }
    } else if r.result.Ok? {
      ScanProgress(s, i, line);
    }
  }

  /** The complaint of the request after the last token of the input's token stream, when it fails. */
  ghost function StreamStop(s: seq<Byte>): LexError
  {
    var c := StreamMarks(s, 0, 1)[|TokenStream(s, 0, 1)|];
    var q := if c.at <= |s| then Scan(s, c.at, c.line).result else Ok(Token(EndOfFile));
    if q.Err? then q.error else InvalidCharacter(0)
  }

  /**
   * What a reader of the stream `ts` keeps: requests made from the cursors
   * `cs` answer `ts` in turn, end-of-file comes only last, and when the last
   * token is not end-of-file the next request fails with `stop`. Every fact
   * about a request hangs on `Mark(cs, k)`, so it enters a proof only where
   * that request is made.
   */
  ghost predicate Streamed(s: seq<Byte>, ts: seq<Token>, cs: seq<Cursor>, stop: LexError)
  {
    Answers(s, ts, cs) &&
    (forall k {:trigger ts[k]} :: 0 <= k < |ts| - 1 ==> ts[k] != Token(EndOfFile)) &&
    forall k: nat {:trigger Mark(cs, k)} :: k == |ts| && (ts == [] || ts[|ts| - 1] != Token(EndOfFile)) ==>
      Mark(cs, k).at <= |s| && Scan(s, Mark(cs, k).at, Mark(cs, k).line).result == Err(stop)
  }

  /** The input's token stream, read from the start of the input on line 1, is streamed from its cursors. */
  lemma StreamedFromStart(s: seq<Byte>)
    ensures Streamed(s, TokenStream(s, 0, 1), StreamMarks(s, 0, 1), StreamStop(s))
  {
    var ts, cs := TokenStream(s, 0, 1), StreamMarks(s, 0, 1);
    StreamAnswers(s, 0, 1);
    assert Mark(cs, |ts|) == cs[|ts|];
  }
}
