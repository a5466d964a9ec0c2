# A verified model of a small compiler front end

This project models, in Dafny, the front end of a compiler for a small
teaching language. A program is `class Name [declarations] { statements }`.
Its variables are `int`, `float` or `string`, and its statements are
assignment, `if`/`else`, `do { … } while (…)`, `read` and `write`.

The front end has three parts.

- **The lexer** (`Lexical.Lexer`, file `lexer.dfy`). A hand-written automaton with states 0 to 12 reads one byte at a time.
  - It has one byte of pushback, a line counter, and a shared table where every identifier gets a row.
  - The model is a class over a byte sequence with a cursor `pos`, `lineCounter` and the table `st`.
  - `NextToken` runs the same `while` loop over the same states, one method per state.
  - It is proved to return exactly what `LexSpec.Scan` prescribes. `Scan` states the lexical rules token by token, and `LexFacts` proves the rules' consequences.
- **The syntax-directed analyzer** (`Syntactic.Analyzer`, file `parser.dfy`). A predictive recursive-descent parser with one token of lookahead (`current`) and one of history (`previous`). It checks declarations and types while it parses.
  - Each production is a method that pulls tokens from the lexer. Where the source prints a message and exits, the method returns an `Error`.
  - Each production is specified by a pure function of the tokens still to see and the declared part of the table (module `Descent`, `ParseX` for production `x`). The function makes the same decisions in the same order as the source: which alternative the lookahead selects, which token is demanded next, and which semantic check fails first.
  - Each method's contract says it does exactly what its function prescribes. On success it returns the function's type and leaves exactly the tokens the function leaves. On failure it returns the function's error: lexical, an unexpected token, or a semantic fault, on the line the lexer has reached.
  - `DescentFacts` gives every function two partner lemmas, about `Grammar` (phrases and their token text) and `Typing` (the typing rules as functions over phrases):
    - soundness: the tokens a production read are exactly one phrase's tokens, and the type it returns is that phrase's type;
    - completeness: on the tokens of any phrase, followed by a token that may legally follow it, the production reads that phrase exactly when the phrase is well typed. Otherwise it stops with a semantic error, and the lemma names the error for each rule the phrase can break.
  - The tokens the analyzer sees are the input's token stream: the answers of successive lexer requests (`LexFacts.TokenStream`).
  - `Start` therefore accepts the token stream of a well-formed program followed by end-of-file exactly when the program is well typed. An accepted input is always such a program, and the table then holds exactly its declarations.
- **The small value types.**
  - `TokenTypes`: the token kinds, their lexeme table and its first-match reverse lookup.
  - `Tokens`: the token classes.
  - `Semantic`: `Type` and `Class`, codes whose constructors clamp to ERROR.
  - `LexicalSymbolTable`: the lexer package's lexeme→type-string table.

The typing rules (`Typing`) are written as functions over phrases, and `TypingFacts` states them in closed form:
- `+` keeps equal non-boolean operands;
- `-`, `*` and `/` need equal operands that are neither boolean nor string;
- `||` and `&&` need booleans;
- `/` always passes float on;
- a comparison is boolean when both sides agree;
- void is a wildcard for compatibility.

Some consequences of the source's rules, proved here:
- with int operands, `a/b` is float, while `a/b*c` and `a*b/c` are rejected;
- `a/b*f` with a float `f` is accepted;
- in a block comment, a newline right after a `*` is not counted.

The shared table is `map<string, Row>`, where a `Row` holds an optional type and an optional class.
- The analyzer's calls (`getType`, `getClass`, `updateType`, `updateClass`) are modelled on this map.
- Lexer registration inserts an empty row only when the lexeme has none. The lexical `SymbolTable.put` overwrites the row, which would erase a declaration every time the name is used again. This is an assumption about the table the analyzer actually uses, because that table is not part of this model.

Three behaviours of the lexer's automaton that a reader may not expect:
- a newline inside a string literal is kept in the literal, and state 5 does not raise the line counter (src/lexical/LexicalAnalysis.java:144-154);
- `//` starts a comment that runs to the end of the line: state 7 goes to state 8 on a second `/`, and state 8 counts the newline that ends it (src/lexical/LexicalAnalysis.java:164-183);
- a newline directly after a `*` inside a block comment is not counted: state 10 goes back to state 9 without counting it (src/lexical/LexicalAnalysis.java:194-203).

Helper methods stand for code the source writes inline:
- `UsedVariable`: the usage check followed by the class check;
- `DeclaredName`: one declared identifier;
- `VariableFactor`, `Constant`, `ParenFactor`, `ParenRest`: the cases of factor;
- `Terminated`: one `stmt ";"`, and `TerminatedDecl`: one `decl ";"`;
- `UsedName`: an identifier used as a value; `AssignedValue`: `=` and the assigned simple expression;
- `AddOperand`, `MulOperand`, `UnaryFactor`: one operator with its operand;
- `Guard`: the parenthesised condition of an if statement;
- `Comparison`, `CheckRelationalOperand`: the relational branch of expr-prime and its operand check;
- `OptionalDeclList`: the optional declarations;
- `ClassHeader`: `class` followed by the name.

## Model

| member | source | states |
|---|---|---|
| TokenTypes.Ordinal | src/lexical/TokenType.java:3-58 | each constant has a position in declaration order, and the constant at that position is itself |
| TokenTypes.FirstWithLexeme | src/lexical/TokenType.java:66-74 | the search returns the first position from `from` on whose lexeme equals the text; every earlier position's lexeme differs |
| TokenTypes.GetLexemeType | src/lexical/TokenType.java:66-74 | the loop with early return answers exactly the first-match lookup `LexemeType` (None for null) |
| TokenTypes.LexemeTypeSound | src/lexical/TokenType.java:66-74 | a found kind carries the looked-up lexeme; None exactly when no kind carries it |
| TokenTypes.LexemesDistinct | src/lexical/TokenType.java:11-51 | two kinds with the same non-empty lexeme are the same kind |
| TokenTypes.DecodedLexeme | src/lexical/TokenType.java:11-51 | every non-empty lexeme determines its kind, so the table has no duplicate |
| TokenTypes.LexemeRoundTrip | src/lexical/TokenType.java:66-74 | looking up a kind's own non-empty lexeme gives that kind back |
| TokenTypes.EmptyLexemeKinds | src/lexical/TokenType.java:5-58 | the lexeme is empty exactly for the three specials and IDENTIFIER, INTEGER_CONST, REAL_CONST, LITERAL |
| TokenTypes.EmptyLexemeFindsUnexpectedEof | src/lexical/TokenType.java:66-74 | looking up the empty lexeme finds UNEXPECTED_EOF, the first kind that carries it |
| TokenTypes.BooleanKeywordsAreCapitalised | src/lexical/TokenType.java:39-51 | "True", "False" and "class" are found as keywords |
| TokenTypes.MiscasedKeywordIsNoKind | src/lexical/TokenType.java:39-74 | lookup is case-sensitive: "true", "false" and "Class" find no kind |
| TokenTypes.LexemeInitial | src/lexical/TokenType.java:11-51 | no lexeme starts with `t` or `C`, and the only one starting with `f` is "float" |
| Tokens.GetType | src/lexical/Token.java:7-13 | a plain or word token's kind is the one it was built with; integer tokens are INTEGER_CONST, float tokens REAL_CONST |
| Tokens.PlainTokenKind | src/lexical/Token.java:7-13 | a plain token's kind is its constructor's argument; the lexer only builds plain tokens with a lexeme, or end-of-file |
| Tokens.PlainTokenPrinting | src/lexical/Token.java:15-17 | toString is the enumeration name, with the lexeme in quotes added exactly when it is non-empty (END_OF_FILE, SEMI_COLON ";") |
| Tokens.WordTokenPrinting | src/lexical/WordToken.java:12-15 | a word token prints as the plain rendering of its kind, then " [", its lexeme and "]" (IDENTIFIER [x]) |
| Tokens.IntegerTokenPrinting | src/lexical/IntegerToken.java:7-15 | an integer token prints as INTEGER_CONST [digits], and the digits read back as the stored value |
| Tokens.Digits | src/lexical/IntegerToken.java:12-15 | a natural number's decimal rendering is non-empty, all digits, with no leading zero |
| Tokens.DigitsRoundTrip | src/lexical/IntegerToken.java:12-15 | reading back the decimal rendering of a number gives the number |
| Semantic.MakeType | src/semantic/Type.java:13-19 | new Type(n) keeps n when -1 <= n <= 4 and stores ERROR otherwise; the code is always one of the six |
| Semantic.MakeClass | src/semantic/Class.java:9-15 | new Class(n) keeps n only when it is 1 or 2 and stores ERROR otherwise; the code is always -1, 1 or 2 |
| Semantic.TypeEqualsIsEquality | src/semantic/Type.java:26-36 | equals(Object) holds exactly for equal codes, so it is an equivalence; equals(int) agrees with it |
| Semantic.ClassEqualsIsEquality | src/semantic/Class.java:21-32 | the same for classes |
| Semantic.MakeTypeOfCode | src/semantic/Type.java:13-23 | rebuilding a type from its own code gives it back, so clamping is idempotent |
| Semantic.MakeClassOfCode | src/semantic/Class.java:9-19 | the same for classes, and new Class(0) is ERROR |
| Semantic.TypeNamesDistinct | src/semantic/Type.java:39-49 | toString gives "", "int", "float", "string", "boolean" and "error", and different types print differently |
| Semantic.ClassNamesDistinct | src/semantic/Class.java:35-41 | toString gives "class", "variable" and "error", and different classes print differently |
| LexicalSymbolTable.SymbolTable.constructor | src/lexical/SymbolTable.java:18-20 | a new table has no rows |
| LexicalSymbolTable.SymbolTable.PutWithType | src/lexical/SymbolTable.java:22-25 | put(token, type) maps the lexeme to the type, replacing any earlier row; no other row changes |
| LexicalSymbolTable.SymbolTable.Put | src/lexical/SymbolTable.java:27-30 | put(token) maps the lexeme to " ", replacing any earlier row |
| LexicalSymbolTable.SymbolTable.Update | src/lexical/SymbolTable.java:32-36 | update succeeds exactly when the lexeme has a row; it then changes only that row's type and keeps the keys; otherwise the table is unchanged |
| LexicalSymbolTable.SharedRow | src/lexical/SymbolTable.java:22-35 | two word tokens with equal lexemes reach the same row, whatever their kinds |
| LexicalSymbolTable.PutThenUpdate | src/lexical/SymbolTable.java:27-36 | put then update of the same lexeme leaves exactly the updated type |
| Scope.Register | src/lexical/LexicalAnalysis.java:101-107 | registering an identifier adds an empty row only when the lexeme has none; existing rows are untouched |
| Scope.Declared | src/syntactic/SyntacticAnalysis.java:64-74 | the declared part of the table is exactly the rows with a filled type or class column |
| Scope.RegisterGrows | src/lexical/LexicalAnalysis.java:101-107 | registration only adds empty rows, changes no declaration and keeps both columns filled together |
| Scope.DeclaredAfterFill | src/syntactic/SyntacticAnalysis.java:55-62 | filling both columns of a row declares that name and leaves every other declaration as it was |
| LexSpec.IdentEnd | src/lexical/LexicalAnalysis.java:92-97 | an identifier is read up to the first character that is not a letter, digit or underscore |
| LexSpec.DigitsEnd | src/lexical/LexicalAnalysis.java:121-143 | a digit run is read up to the first non-digit |
| LexSpec.FindByte | src/lexical/LexicalAnalysis.java:144-183 | a literal or line comment runs to the first closing byte, or to the end of the input |
| LexSpec.CloseAt | src/lexical/LexicalAnalysis.java:184-203 | a block comment runs to the first `*/`, or to the end of the input |
| LexSteps.PunctLookup | src/lexical/LexicalAnalysis.java:81-87 | each of `( ) { } ; + - * ,` is found by the lexeme lookup as its own kind (never null) |
| LexSteps.RelLookup | src/lexical/LexicalAnalysis.java:213-222 | each of `< > = !`, alone or followed by `=`, is found by the lookup as its kind (never null) |
| LexSteps.ScanRelational | src/lexical/LexicalAnalysis.java:213-223 | a relational character takes a following `=`; otherwise it is the one-character kind and the next character is left unread |
| LexFacts.WordScan | src/lexical/LexicalAnalysis.java:56-109 | a letter starts a word read up to the first character that cannot continue it; the word is its keyword or an identifier |
| LexFacts.ScanProgress | src/lexical/LexicalAnalysis.java:29-246 | every request consumes input unless at the end, never lowers the line counter, yields only well-formed tokens, and yields end-of-file only when the input is used up |
| LexFacts.BlanksSkipped | src/lexical/LexicalAnalysis.java:45-55 | spaces, tabs, CRs and newlines are skipped, and the line counter rises by exactly the number of newlines |
| LexFacts.IdentifierShape | src/lexical/LexicalAnalysis.java:92-109 | a word is an IDENTIFIER word token exactly when it is no kind's lexeme; it is a letter then letters, digits or underscores, and the next character cannot continue it |
| LexFacts.WordAtEndOfInput | src/lexical/LexicalAnalysis.java:92-110 | a word that runs to the end of the input is still returned |
| LexFacts.UnterminatedString | src/lexical/LexicalAnalysis.java:144-154 | input ending inside a string literal is an unexpected end of file |
| LexFacts.UnterminatedBlockComment | src/lexical/LexicalAnalysis.java:184-233 | input ending inside a block comment is an unexpected end of file |
| LexFacts.InvalidStarts | src/lexical/LexicalAnalysis.java:88-90 | `.`, `:`, `_` and `[` at the start of a token are invalid tokens |
| LexFacts.EndingAtEndOfInput | src/lexical/LexicalAnalysis.java:213-233 | for every input and position: a digit run reaching the last byte (a lone 0, or one not starting with 0) is the integer it spells; a last `/` is DIV; a last relational character is its one-character kind, and with `=` as the last byte the two-character kind; a last punctuation character is its kind. Each ends at the end of the input, never as an unexpected end of file |
| LexFacts.LeadingZeroStandsAlone | src/lexical/LexicalAnalysis.java:59-119 | at any position, a 0 not followed by `.` is the integer 0 on its own, and the next request starts right after it: `05` is 0 and then 5 |
| LexFacts.TrailingDotIsReal | src/lexical/LexicalAnalysis.java:111-143 | a digit run (a lone 0, or one not starting with 0) followed by `.` is one REAL_CONST whose lexeme runs through the digits after the dot; with no digit after the dot the lexeme ends at the dot, so `1.` is one REAL_CONST |
| LexFacts.LiteralKeepsNewlines | src/lexical/LexicalAnalysis.java:144-152 | every closed literal is a LITERAL whose payload is exactly the text between its quotes, newlines included; the next request starts after the closing quote, and the line counter does not move |
| LexFacts.LoneAmpersand | src/lexical/LexicalAnalysis.java:155-163 | `&&` and `||` are AND and OR and consume two bytes; an `&` or `|` not followed by the same character, at the end of the input too, is an invalid character on the current line, and only that byte is consumed |
| LexFacts.UnterminatedLineComment | src/lexical/LexicalAnalysis.java:175-183 | input ending inside a `//` comment is an unexpected end of file |
| LexFacts.BlockCommentScan | src/lexical/LexicalAnalysis.java:164-203 | a block comment runs to the first `*/` after its opening, and the request goes on after it with the line counter raised by the comment's counted newlines; with no closer it is an unexpected end of file at the end of the input |
| LexFacts.LineCommentScan | src/lexical/LexicalAnalysis.java:164-183 | a `//` comment runs to the next newline, and the request goes on after it one line further; with no newline it is an unexpected end of file |
| LexFacts.StarlessCommentNewlines | src/lexical/LexicalAnalysis.java:184-203 | in a block comment with no `*`, every newline is counted |
| LexFacts.TokenStream | src/syntactic/SyntacticAnalysis.java:30-45 | the tokens successive requests return: empty exactly when the first request fails, headed by the first request's token, and with end-of-file only as the last token |
| LexFacts.StreamAnswers | src/syntactic/SyntacticAnalysis.java:30-45 | each token of the stream is what the request made from its cursor answers, and the stream stops at its only end-of-file or at a request that fails |
| LexFacts.StreamedFromStart | src/syntactic/SyntacticAnalysis.java:30-45 | the token stream read from the start of the input on line 1 is what the analyzer's successive requests answer, and the request after its last token fails unless that token is end-of-file |
| Lexical.Lexer.constructor | src/lexical/LexicalAnalysis.java:16-26 | a new lexer is at the start of the input, on line 1, with the given table |
| Lexical.Lexer.Getc | src/lexical/LexicalAnalysis.java:252-258 | getc returns the next byte and moves past it, or EOF at the end without moving |
| Lexical.Lexer.Unget | src/lexical/LexicalAnalysis.java:260-266 | unget makes the byte just read the next one read again; EOF stays EOF |
| Lexical.Lexer.NextToken | src/lexical/LexicalAnalysis.java:29-246 | the outcome, the new position and the line counter are exactly `Scan`'s, and the table gains a row only for a new identifier |
| Lexical.Lexer.Transition | src/lexical/LexicalAnalysis.java:44-233 | one step of the automaton keeps the loop's invariant: what is still pending leads to `Scan`'s answer |
| Lexical.Lexer.Start | src/lexical/LexicalAnalysis.java:45-91 | state 0 skips blanks counting newlines and picks the next state by the first character; punctuation ends at once |
| Lexical.Lexer.InIdentifier | src/lexical/LexicalAnalysis.java:92-110 | state 1 extends the word, then ends it as a keyword, or as a registered identifier |
| Lexical.Lexer.AfterZero | src/lexical/LexicalAnalysis.java:111-120 | state 2 goes to the fraction on `.`, otherwise the integer 0 |
| Lexical.Lexer.InDigits | src/lexical/LexicalAnalysis.java:121-133 | state 3 extends the digits, goes to the fraction on `.`, or ends the integer |
| Lexical.Lexer.InFraction | src/lexical/LexicalAnalysis.java:134-143 | state 4 extends the fraction or ends the real constant |
| Lexical.Lexer.InString | src/lexical/LexicalAnalysis.java:144-154 | state 5 accumulates until the closing quote |
| Lexical.Lexer.AfterFirst | src/lexical/LexicalAnalysis.java:155-212 | states 6 and 11 accept the doubled `&&` or `||`, otherwise an invalid token |
| Lexical.Lexer.AfterSlash | src/lexical/LexicalAnalysis.java:164-174 | state 7 enters a block or line comment, otherwise DIV |
| Lexical.Lexer.InLineComment | src/lexical/LexicalAnalysis.java:175-183 | state 8 skips to the newline, counts it and restarts |
| Lexical.Lexer.InBlockComment | src/lexical/LexicalAnalysis.java:184-193 | state 9 counts newlines and watches for `*` |
| Lexical.Lexer.AfterCommentStar | src/lexical/LexicalAnalysis.java:194-203 | state 10 closes the comment on `/`, stays on `*`, and otherwise returns to 9 without counting a newline |
| Lexical.Lexer.AfterRelational | src/lexical/LexicalAnalysis.java:213-223 | state 12 takes a following `=` or leaves the character unread |
| Lexical.Lexer.GetLineCounter | src/lexical/LexicalAnalysis.java:268-270 | the line counter is at least 1 |
| TypingFacts.CompatibleIsWildcard | src/syntactic/SyntacticAnalysis.java:82-88 | compatibleTypes: void matches anything, other types only themselves; reflexive and symmetric, not transitive |
| TypingFacts.AddTailTypeSpec | src/syntactic/SyntacticAnalysis.java:356-410 | an additive chain is void when empty, the left type when every operand has it and every operator accepts it, rejected otherwise |
| TypingFacts.SimpleExprTyping | src/syntactic/SyntacticAnalysis.java:344-410 | a simple expression has type t exactly when its first term and every further term have type t, `+` refusing booleans, `-` booleans and strings, `||` taking only booleans |
| TypingFacts.MulTailTypeSpec | src/syntactic/SyntacticAnalysis.java:421-476 | closed form of a multiplicative chain: booleans take only `&&`, floats `*` and `/`, strings nothing, ints `*` or one `/` followed by a float chain |
| TypingFacts.TermTyping | src/syntactic/SyntacticAnalysis.java:413-476 | a term's type is its first operand's when the chain is empty or uniform, float when an int is divided and the rest is a float chain, otherwise rejected |
| TypingFacts.FactorConcrete | src/syntactic/SyntacticAnalysis.java:509-532 | with variables typed int, float or string, every accepted factor is int, float, string or boolean |
| TypingFacts.ExprConcrete | src/syntactic/SyntacticAnalysis.java:307-341 | every accepted expression is int, float, string or boolean, never void |
| TypingFacts.ExprTyping | src/syntactic/SyntacticAnalysis.java:307-341 | a comparison is boolean exactly when both sides have the same type, and the ordering operators also refuse strings and booleans; `==` and `!=` take any matching pair |
| TypingFacts.DeclareNamesSpec | src/syntactic/SyntacticAnalysis.java:150-163 | an ident-list is accepted exactly when its names are distinct and undeclared; each then has the declared type and class VARIABLE, every other row unchanged |
| TypingFacts.DistinctAppend | src/syntactic/SyntacticAnalysis.java:133-163 | names from two lists are distinct exactly when each list is and no name is in both |
| TypingFacts.DeclsEnvSpec | src/syntactic/SyntacticAnalysis.java:133-163 | a declaration list is accepted exactly when all its names are distinct and undeclared; each then has its declaration's type and class VARIABLE |
| TypingFacts.DeclsEnvAccepts | src/syntactic/SyntacticAnalysis.java:133-163 | a declaration list is accepted exactly when its names are distinct and none was declared before |
| TypingFacts.DeclsEnvRows | src/syntactic/SyntacticAnalysis.java:133-163 | after an accepted declaration list the table has the old keys and the declared names, each declared name with its declaration's type and class VARIABLE, every other row unchanged |
| TypingFacts.DeclaredAfterNames | src/syntactic/SyntacticAnalysis.java:150-163 | after an ident-list exactly those names and the earlier declared ones are declared |
| TypingFacts.ProgramEnvSpec | src/syntactic/SyntacticAnalysis.java:113-130 | a program's declarations are accepted exactly when the class name and all variable names are distinct; the table then holds the class name (void, class) and each variable (its type, variable) only |
| TypingFacts.DeclTypeIsDeclarable | src/syntactic/SyntacticAnalysis.java:166-173 | a declared variable's type is int, float or string |
| TypingFacts.IntDivChain | src/syntactic/SyntacticAnalysis.java:436-455 | an int operand divided by an int switches the rest of the chain to float typing |
| TypingFacts.IntProductAndQuotient | src/syntactic/SyntacticAnalysis.java:421-476 | with int variables, `a*b` is int and `a/b` is float |
| TypingFacts.IntDivisionMixesRejected | src/syntactic/SyntacticAnalysis.java:436-455 | with int variables, `a/b*c` and `a*b/c` are rejected |
| TypingFacts.IntQuotientTimesFloat | src/syntactic/SyntacticAnalysis.java:421-476 | with int `a`, `b` and float `f`, `a/b*f` is accepted as float |
| TypingFacts.OnlyVariablesAreValues | src/syntactic/SyntacticAnalysis.java:70-80 | the class name and undeclared names are rejected as a factor, an assignment target and a read target |
| DescentFacts.ExpressionSound | src/syntactic/SyntacticAnalysis.java:307-319 | whenever `ParseExpression` reads, the tokens it consumed are exactly an expression's tokens and the type returned is that phrase's type under the table |
| DescentFacts.ExprPrimeSound | src/syntactic/SyntacticAnalysis.java:322-341 | whenever `ParseExprPrime` reads, the tokens it consumed are exactly a relational tail's tokens, and the type is the tail's (void when empty) |
| DescentFacts.ComparisonSound | src/syntactic/SyntacticAnalysis.java:324-337 | whenever `ParseComparison` reads, the tokens it consumed are exactly a relational operator and a simple expression's tokens, and the type is the tail's |
| DescentFacts.SimpleExprSound | src/syntactic/SyntacticAnalysis.java:344-353 | whenever `ParseSimpleExpr` reads, the tokens it consumed are exactly a simple expression's tokens and the type returned is that phrase's type under the table |
| DescentFacts.SimpleExprPrimeSound | src/syntactic/SyntacticAnalysis.java:356-410 | whenever `ParseSimpleExprPrime` reads, the tokens it consumed are exactly an additive chain's tokens, and the type is the chain's after the left type |
| DescentFacts.AddOperandSound | src/syntactic/SyntacticAnalysis.java:361-397 | whenever `ParseAddOperand` reads, the tokens it consumed are exactly the operator and a term's tokens, the term has the left type and the operator accepts it |
| DescentFacts.TermSound | src/syntactic/SyntacticAnalysis.java:413-418 | whenever `ParseTerm` reads, the tokens it consumed are exactly a term's tokens and the type returned is that phrase's type under the table |
| DescentFacts.TermPrimeSound | src/syntactic/SyntacticAnalysis.java:421-476 | whenever `ParseTermPrime` reads, the tokens it consumed are exactly a multiplicative chain's tokens, and the type is the chain's after the left type |
| DescentFacts.MulOperandSound | src/syntactic/SyntacticAnalysis.java:426-462 | whenever `ParseMulOperand` reads, the tokens it consumed are exactly the operator and a factor-a's tokens, the operand has the left type and the operator accepts it |
| DescentFacts.FactorASound | src/syntactic/SyntacticAnalysis.java:479-506 | whenever `ParseFactorA` reads, the tokens it consumed are exactly a factor-a's tokens and the type returned is that phrase's type under the table |
| DescentFacts.UnaryFactorSound | src/syntactic/SyntacticAnalysis.java:482-493 | whenever `ParseUnaryFactor` reads, the tokens it consumed are exactly `!` or `-` and a factor's tokens, and the type is the unary factor's |
| DescentFacts.FactorSound | src/syntactic/SyntacticAnalysis.java:509-532 | whenever `ParseFactor` reads, the tokens it consumed are exactly a factor's tokens and the type returned is that phrase's type under the table |
| DescentFacts.VariableFactorSound | src/syntactic/SyntacticAnalysis.java:511-515 | whenever `ParseVariableFactor` reads, the tokens it consumed are exactly one identifier that names a declared variable, of its declared type |
| DescentFacts.ConstantSound | src/syntactic/SyntacticAnalysis.java:516-524 | whenever `ParseConstant` reads, the tokens it consumed are exactly one constant token, of the constant's type |
| DescentFacts.UsedNameSound | src/syntactic/SyntacticAnalysis.java:222-227 | whenever `ParseUsedName` reads, the tokens it consumed are exactly one identifier, which names a declared variable, and the type is its declared type |
| DescentFacts.ParenFactorSound | src/syntactic/SyntacticAnalysis.java:525-529 | whenever `ParseParenFactor` reads, the tokens it consumed are exactly a parenthesised expression's tokens, of the expression's type |
| DescentFacts.ParenRestSound | src/syntactic/SyntacticAnalysis.java:527-528 | whenever `ParseParenRest` reads, the tokens it consumed are exactly an expression's tokens and `)`, of the expression's type |
| DescentFacts.BodySound | src/syntactic/SyntacticAnalysis.java:176-180 | whenever `ParseBody` reads, the tokens it consumed are exactly `{`, a statement list's tokens and `}`, and every statement is well formed and well typed |
| DescentFacts.StmtListSound | src/syntactic/SyntacticAnalysis.java:183-196 | whenever `ParseStmtList` reads, the tokens it consumed are exactly a non-empty statement list's tokens, and every statement is well formed and well typed |
| DescentFacts.MoreStmtsSound | src/syntactic/SyntacticAnalysis.java:187-195 | whenever `ParseMoreStmts` reads, the tokens it consumed are exactly a possibly empty statement list's tokens, every statement well formed and well typed |
| DescentFacts.TerminatedSound | src/syntactic/SyntacticAnalysis.java:184-194 | whenever `ParseTerminated` reads, the tokens it consumed are exactly a statement's tokens and `;`, and the statement is well formed and well typed |
| DescentFacts.StmtSound | src/syntactic/SyntacticAnalysis.java:199-218 | whenever `ParseStmt` reads, the tokens it consumed are exactly one statement's tokens, and the statement is well formed and well typed |
| DescentFacts.AssignStmtSound | src/syntactic/SyntacticAnalysis.java:221-232 | whenever `ParseAssignStmt` reads, the tokens it consumed are exactly an assignment's tokens, whose target is a declared variable of the value's type |
| DescentFacts.AssignedValueSound | src/syntactic/SyntacticAnalysis.java:228-231 | whenever `ParseAssignedValue` reads, the tokens it consumed are exactly `=` and a simple expression's tokens, whose type is the target's |
| DescentFacts.IfStmtSound | src/syntactic/SyntacticAnalysis.java:235-244 | whenever `ParseIfStmt` reads, the tokens it consumed are exactly an if statement's tokens, with a boolean condition and well-typed branches |
| DescentFacts.ElseStmtSound | src/syntactic/SyntacticAnalysis.java:247-257 | whenever `ParseElseStmt` reads, the tokens it consumed are exactly an else part's tokens (none when absent), and its statements are well typed |
| DescentFacts.GuardSound | src/syntactic/SyntacticAnalysis.java:237-239 | whenever `ParseGuard` reads, the tokens it consumed are exactly `(`, a boolean expression's tokens and `)` |
| DescentFacts.ConditionSound | src/syntactic/SyntacticAnalysis.java:260-263 | whenever `ParseCondition` reads, the tokens it consumed are exactly an expression's tokens, and the expression is boolean |
| DescentFacts.DoStmtSound | src/syntactic/SyntacticAnalysis.java:266-272 | whenever `ParseDoStmt` reads, the tokens it consumed are exactly a do statement's tokens, with a well-typed body and a boolean condition |
| DescentFacts.DoSuffixSound | src/syntactic/SyntacticAnalysis.java:275-280 | whenever `ParseDoSuffix` reads, the tokens it consumed are exactly `while ( e )` for a boolean expression e |
| DescentFacts.ReadStmtSound | src/syntactic/SyntacticAnalysis.java:283-290 | whenever `ParseReadStmt` reads, the tokens it consumed are exactly a read statement's tokens, naming a declared variable |
| DescentFacts.WriteStmtSound | src/syntactic/SyntacticAnalysis.java:293-303 | whenever `ParseWriteStmt` reads, the tokens it consumed are exactly a write statement's tokens, with a well-typed simple expression |
| DescentFacts.DeclTypeSound | src/syntactic/SyntacticAnalysis.java:166-173 | whenever `ParseDeclType` reads, the tokens it consumed are exactly one type keyword |
| DescentFacts.DeclaredNameSound | src/syntactic/SyntacticAnalysis.java:117-120 | whenever `ParseDeclaredName` reads, the tokens it consumed are exactly one identifier that was not declared, and the table is the old one with its row filled |
| DescentFacts.IdentListSound | src/syntactic/SyntacticAnalysis.java:150-163 | whenever `ParseIdentList` reads, the tokens it consumed are exactly an ident-list's tokens, and the table is the one declaring its names, all distinct and new |
| DescentFacts.MoreNamesSound | src/syntactic/SyntacticAnalysis.java:156-162 | whenever `ParseMoreNames` reads, the tokens it consumed are exactly `, x` pairs, and the table is the one declaring those names |
| DescentFacts.DeclSound | src/syntactic/SyntacticAnalysis.java:144-147 | whenever `ParseDecl` reads, the tokens it consumed are exactly a declaration's tokens, and the table declares its names with its type |
| DescentFacts.TerminatedDeclSound | src/syntactic/SyntacticAnalysis.java:134-139 | whenever `ParseTerminatedDecl` reads, the tokens it consumed are exactly a declaration's tokens and `;`, and the table declares its names with its type |
| DescentFacts.DeclListSound | src/syntactic/SyntacticAnalysis.java:133-141 | whenever `ParseDeclList` reads, the tokens it consumed are exactly a non-empty declaration list's tokens, and the table is the one the list builds |
| DescentFacts.MoreDeclsSound | src/syntactic/SyntacticAnalysis.java:137-140 | whenever `ParseMoreDecls` reads, the tokens it consumed are exactly a possibly empty declaration list's tokens, and the table is the one the list builds |
| DescentFacts.OptionalDeclListSound | src/syntactic/SyntacticAnalysis.java:122-124 | whenever `ParseOptionalDeclList` reads, the tokens it consumed are exactly an optional declaration list's tokens, and the table is the one the list builds |
| DescentFacts.ClassHeaderSound | src/syntactic/SyntacticAnalysis.java:114-120 | whenever `ParseClassHeader` reads, the tokens it consumed are exactly `class` and a new name, and the table declares that name with type void and class CLASS |
| DescentFacts.ProgramSound | src/syntactic/SyntacticAnalysis.java:113-130 | whenever `ParseProgram` reads, the tokens it consumed are exactly a program's tokens, the program is well typed, and the table is the one its declarations build |
| DescentFacts.AnalyzeSound | src/syntactic/SyntacticAnalysis.java:103-110 | whenever the analysis accepts, its tokens are a well-typed program's tokens followed by end-of-file, and the table is the one the program's declarations build |
| DescentFacts.ExpressionComplete | src/syntactic/SyntacticAnalysis.java:307-319 | on an expression's tokens and a token that may follow it, `ParseExpression` reads exactly that expression with its type when it is well typed, and stops with a semantic error otherwise; when both sides are typed, the tail is not void and the types differ, that error is BadRelational |
| DescentFacts.ExprPrimeComplete | src/syntactic/SyntacticAnalysis.java:322-341 | on a relational tail's tokens and a token that may follow it, the tail is read with its type when well typed, and a semantic error is reported otherwise |
| DescentFacts.ComparisonComplete | src/syntactic/SyntacticAnalysis.java:324-337 | the same for a comparison, and an ordering operator on a typed string or boolean operand is BadRelationalOperand |
| DescentFacts.SimpleExprComplete | src/syntactic/SyntacticAnalysis.java:344-353 | on a simple expression's tokens and a token that may follow it, it is read with its type exactly when well typed, and otherwise a semantic error; a typed term with an incompatible typed chain is Incompatible |
| DescentFacts.SimpleExprPrimeComplete | src/syntactic/SyntacticAnalysis.java:356-410 | the same for an additive chain after a left type; an operand that passes followed by an incompatible rest of the chain is Incompatible |
| DescentFacts.AddOperandComplete | src/syntactic/SyntacticAnalysis.java:361-397 | an operator and a term are read when the term is typed and the operator accepts the pair, and otherwise a semantic error; a typed term the operator refuses is BadOperands |
| DescentFacts.AddCheck | src/syntactic/SyntacticAnalysis.java:365-397 | the analyzer's check on the operands of an additive operator is exactly the typing rule for that operator |
| DescentFacts.TermComplete | src/syntactic/SyntacticAnalysis.java:413-418 | on a term's tokens and a token that may follow it, the term is read with its type exactly when well typed, and a semantic error is reported otherwise |
| DescentFacts.TermPrimeComplete | src/syntactic/SyntacticAnalysis.java:421-476 | the same for a multiplicative chain after a left type; an operand that passes followed by a rest of the chain that does not fit gives BadAnd for `&&`, and Incompatible otherwise |
| DescentFacts.MulOperandComplete | src/syntactic/SyntacticAnalysis.java:426-462 | an operator and a factor-a are read when the operand is typed and the operator accepts the pair, and otherwise a semantic error; a typed operand the operator refuses is BadOperands |
| DescentFacts.MulCheck | src/syntactic/SyntacticAnalysis.java:430-462 | the analyzer's check on the operands of a multiplicative operator is exactly the typing rule for that operator |
| DescentFacts.FactorAComplete | src/syntactic/SyntacticAnalysis.java:479-506 | on a factor-a's tokens, followed by anything, it is read with its type exactly when well typed, and a semantic error is reported otherwise |
| DescentFacts.NotFactorComplete | src/syntactic/SyntacticAnalysis.java:482-487 | `!` and a factor are read, as boolean, exactly when the factor is boolean; a typed factor of another type is BadUnaryOperand for `!` |
| DescentFacts.MinusFactorComplete | src/syntactic/SyntacticAnalysis.java:488-493 | `-` and a factor are read exactly when the factor is int or float; a typed factor of another type is BadUnaryOperand for `-` |
| DescentFacts.OperandComplete | src/syntactic/SyntacticAnalysis.java:509-532 | after the first token of a unary factor, the factor is read with its type exactly when well typed |
| DescentFacts.FactorComplete | src/syntactic/SyntacticAnalysis.java:509-532 | on a factor's tokens, followed by anything, it is read with its type exactly when well typed, and a semantic error is reported otherwise |
| DescentFacts.VariableFactorComplete | src/syntactic/SyntacticAnalysis.java:511-515 | an identifier factor is read exactly when it names a declared variable, with that variable's type |
| DescentFacts.UsedNameComplete | src/syntactic/SyntacticAnalysis.java:222-227 | a used name is read exactly when it is a declared variable, with its type; an undeclared name is NotDefined, any other name NotA |
| DescentFacts.ConstantComplete | src/syntactic/SyntacticAnalysis.java:516-524 | a constant is always read, as int, string or float |
| DescentFacts.ParenFactorComplete | src/syntactic/SyntacticAnalysis.java:525-529 | a parenthesised expression is read with its type exactly when the expression is well typed |
| DescentFacts.ParenRestComplete | src/syntactic/SyntacticAnalysis.java:527-528 | an expression followed by `)` is read with its type exactly when the expression is well typed |
| DescentFacts.BodyComplete | src/syntactic/SyntacticAnalysis.java:176-180 | on `{`, the tokens of well-formed statements and `}`, the body is read exactly when every statement is well typed, and a semantic error is reported otherwise |
| DescentFacts.StmtListComplete | src/syntactic/SyntacticAnalysis.java:183-196 | a statement list followed by `}` is read exactly when every statement is well typed, and a semantic error is reported otherwise |
| DescentFacts.MoreStmtsComplete | src/syntactic/SyntacticAnalysis.java:187-195 | the same for the statements after the first |
| DescentFacts.TerminatedComplete | src/syntactic/SyntacticAnalysis.java:184-194 | a statement and `;` are read exactly when the statement is well typed |
| DescentFacts.StmtComplete | src/syntactic/SyntacticAnalysis.java:199-218 | a well-formed statement followed by `;` is read exactly when it is well typed, and a semantic error is reported otherwise |
| DescentFacts.AssignStmtComplete | src/syntactic/SyntacticAnalysis.java:221-232 | an assignment is read exactly when its target is a declared variable of the value's type |
| DescentFacts.AssignedValueComplete | src/syntactic/SyntacticAnalysis.java:228-231 | `=` and a simple expression are read exactly when the expression has the target's type; a typed value of another type is CannotAssign |
| DescentFacts.IfStmtComplete | src/syntactic/SyntacticAnalysis.java:235-244 | a well-formed if statement is read exactly when its condition is boolean and its branches are well typed |
| DescentFacts.ElseStmtComplete | src/syntactic/SyntacticAnalysis.java:247-257 | an else part, or none, is read exactly when its statements are well typed |
| DescentFacts.GuardComplete | src/syntactic/SyntacticAnalysis.java:237-239 | `( c )` is read exactly when c is boolean |
| DescentFacts.ConditionComplete | src/syntactic/SyntacticAnalysis.java:260-263 | a condition is read exactly when its expression is boolean; a typed expression of another type is NotBoolean |
| DescentFacts.DoStmtComplete | src/syntactic/SyntacticAnalysis.java:266-272 | a well-formed do statement is read exactly when its body is well typed and its condition boolean |
| DescentFacts.DoSuffixComplete | src/syntactic/SyntacticAnalysis.java:275-280 | `while ( c )` is read exactly when c is boolean |
| DescentFacts.ReadStmtComplete | src/syntactic/SyntacticAnalysis.java:283-290 | `read ( x )` is read exactly when x is a declared variable |
| DescentFacts.WriteStmtComplete | src/syntactic/SyntacticAnalysis.java:293-303 | `write ( e )` is read exactly when e is well typed |
| DescentFacts.WrittenComplete | src/syntactic/SyntacticAnalysis.java:301-303 | the simple expression of a write statement is read with its type exactly when well typed, and the `)` after it is then consumed |
| DescentFacts.DeclTypeComplete | src/syntactic/SyntacticAnalysis.java:166-173 | a type keyword is always read, with its type |
| DescentFacts.DeclaredNameComplete | src/syntactic/SyntacticAnalysis.java:117-120 | a name being declared is read and its row filled exactly when it is not declared yet; a declared one is AlreadyDefined |
| DescentFacts.IdentListComplete | src/syntactic/SyntacticAnalysis.java:150-163 | an ident-list is read, declaring its names, exactly when they are distinct and new, and a semantic error is reported otherwise |
| DescentFacts.MoreNamesComplete | src/syntactic/SyntacticAnalysis.java:156-162 | the same for the names after the first |
| DescentFacts.DeclComplete | src/syntactic/SyntacticAnalysis.java:144-147 | a declaration is read, declaring its names with its type, exactly when they are distinct and new |
| DescentFacts.TerminatedDeclComplete | src/syntactic/SyntacticAnalysis.java:134-139 | a declaration and `;` are read exactly when its names are distinct and new |
| DescentFacts.DeclListComplete | src/syntactic/SyntacticAnalysis.java:133-141 | a non-empty declaration list is read, building its table, exactly when all its names are distinct and new |
| DescentFacts.MoreDeclsComplete | src/syntactic/SyntacticAnalysis.java:137-140 | the same for the declarations after the first |
| DescentFacts.OptionalDeclListComplete | src/syntactic/SyntacticAnalysis.java:122-124 | an optional declaration list is read exactly when all its names are distinct and new |
| DescentFacts.ClassHeaderComplete | src/syntactic/SyntacticAnalysis.java:114-120 | `class x` is read, declaring x with type void and class CLASS, exactly when x is not declared yet |
| DescentFacts.ProgramComplete | src/syntactic/SyntacticAnalysis.java:113-130 | the tokens of a well-formed program are read exactly when the program is well typed, leaving the table its declarations build, and otherwise a semantic error |
| DescentFacts.AnalyzeComplete | src/syntactic/SyntacticAnalysis.java:103-110 | the tokens of a well-formed program followed by end-of-file are accepted exactly when the program is well typed; the analysis then reads that very program and ends with its declarations, and otherwise it reports a semantic error |
| Syntactic.Analyzer.constructor | src/syntactic/SyntacticAnalysis.java:18-28 | a new analyzer has a lexer at the start of the input with an empty table and no tokens |
| Syntactic.Analyzer.GetFirstToken | src/syntactic/SyntacticAnalysis.java:30-40 | the lookahead becomes the first token of the input's token stream; it fails exactly when the lexer's first request fails, and then returns that request's lexical error |
| Syntactic.Analyzer.AdvanceFailsWithLexer | src/syntactic/SyntacticAnalysis.java:42-45 | the pure advance step fails exactly when the lexer's next request from the current cursor fails, and the error reported is that request's complaint |
| Syntactic.Analyzer.Advance | src/syntactic/SyntacticAnalysis.java:42-45 | does what `Descent.Advance` prescribes: previous becomes the lookahead and the next token of the stream the new lookahead; it fails exactly when the lexer's next request fails, and returns that request's lexical error |
| Syntactic.Analyzer.Eat | src/syntactic/SyntacticAnalysis.java:47-53 | does what `Descent.Eat` prescribes: a lookahead of kind t is consumed as by Advance, failing only when the lexer does; any other kind is an unexpected-token error naming t and the kind found |
| Syntactic.Analyzer.CheckDeclarationUniqueness | src/syntactic/SyntacticAnalysis.java:64-68 | succeeds exactly when the name's row has neither type nor class, otherwise an already-defined error |
| Syntactic.Analyzer.CheckUsageUniqueness | src/syntactic/SyntacticAnalysis.java:70-74 | succeeds exactly when the name's row has a type or a class, otherwise a not-defined error |
| Syntactic.Analyzer.CheckClassCompatibility | src/syntactic/SyntacticAnalysis.java:76-80 | succeeds exactly when the name's class has the given code, otherwise a not-a error |
| Syntactic.Analyzer.UsedVariable | src/syntactic/SyntacticAnalysis.java:70-80 | a used name is accepted exactly when it is a declared variable, with its declared type; otherwise the first failing check's error |
| Syntactic.Analyzer.UpdateIdentifier | src/syntactic/SyntacticAnalysis.java:55-62 | refuses the error type, then the error class; otherwise fills both columns of the name's row and nothing else |
| Syntactic.Analyzer.CheckRelationalOperand | src/syntactic/SyntacticAnalysis.java:324-336 | the operand is refused exactly when an ordering operator meets a string or boolean, with a bad-operand error |
| Syntactic.Analyzer.Relop | src/syntactic/SyntacticAnalysis.java:535-547 | does what `Descent.Relop` prescribes: a relational operator is consumed as by Advance; any other lookahead is an unexpected-token error |
| Syntactic.Analyzer.Addop | src/syntactic/SyntacticAnalysis.java:550-559 | does what `Descent.Addop` prescribes: `+`, `-` or `||` is consumed as by Advance; any other lookahead is an unexpected-token error |
| Syntactic.Analyzer.Mulop | src/syntactic/SyntacticAnalysis.java:562-571 | does what `Descent.Mulop` prescribes: `*`, `/` or `&&` is consumed as by Advance; any other lookahead is an unexpected-token error |
| Syntactic.Analyzer.Expression | src/syntactic/SyntacticAnalysis.java:307-319 | does what `ParseExpression` prescribes: on success it returns that type and stands at the tokens `ParseExpression` leaves; on failure it returns the error `ParseExpression` stops with, on the line reached; the table is unchanged. `ParseExpression` reads a simple expression and its relational tail; the type is the simple expression's when the tail is void, boolean when both sides agree, and otherwise the error is BadRelational |
| Syntactic.Analyzer.ExprPrime | src/syntactic/SyntacticAnalysis.java:322-341 | does what `ParseExprPrime` prescribes: on success it returns that type and stands at the tokens `ParseExprPrime` leaves; on failure it returns the error `ParseExprPrime` stops with, on the line reached; the table is unchanged. `ParseExprPrime` reads a comparison when the lookahead is a relational operator, and otherwise nothing, with type void |
| Syntactic.Analyzer.Comparison | src/syntactic/SyntacticAnalysis.java:324-337 | does what `ParseComparison` prescribes: on success it returns that type and stands at the tokens `ParseComparison` leaves; on failure it returns the error `ParseComparison` stops with, on the line reached; the table is unchanged. `ParseComparison` reads a relational operator and a simple expression, of that expression's type; an ordering operator on a string or boolean is BadRelationalOperand |
| Syntactic.Analyzer.SimpleExpr | src/syntactic/SyntacticAnalysis.java:344-353 | does what `ParseSimpleExpr` prescribes: on success it returns that type and stands at the tokens `ParseSimpleExpr` leaves; on failure it returns the error `ParseSimpleExpr` stops with, on the line reached; the table is unchanged. `ParseSimpleExpr` reads a term and its additive chain, of the term's type; a chain incompatible with the term is Incompatible |
| Syntactic.Analyzer.SimpleExprPrime | src/syntactic/SyntacticAnalysis.java:356-410 | does what `ParseSimpleExprPrime` prescribes: on success it returns that type and stands at the tokens `ParseSimpleExprPrime` leaves; on failure it returns the error `ParseSimpleExprPrime` stops with, on the line reached; the table is unchanged. `ParseSimpleExprPrime` reads nothing (void) unless the lookahead is `+`, `-` or `||`; otherwise an operand and the rest of the chain, which must be compatible with the left type (Incompatible otherwise) |
| Syntactic.Analyzer.AddOperand | src/syntactic/SyntacticAnalysis.java:361-397 | does what `ParseAddOperand` prescribes: on success it returns that type and stands at the tokens `ParseAddOperand` leaves; on failure it returns the error `ParseAddOperand` stops with, on the line reached; the table is unchanged. `ParseAddOperand` reads an additive operator and a term of the left operand's type: `+` refuses booleans, `-` booleans and strings, `||` takes only booleans (BadOperands otherwise) |
| Syntactic.Analyzer.Term | src/syntactic/SyntacticAnalysis.java:413-418 | does what `ParseTerm` prescribes: on success it returns that type and stands at the tokens `ParseTerm` leaves; on failure it returns the error `ParseTerm` stops with, on the line reached; the table is unchanged. `ParseTerm` reads a factor-a and its multiplicative chain; the type is the chain's, or the factor's when the chain is void |
| Syntactic.Analyzer.TermPrime | src/syntactic/SyntacticAnalysis.java:421-476 | does what `ParseTermPrime` prescribes: on success it returns that type and stands at the tokens `ParseTermPrime` leaves; on failure it returns the error `ParseTermPrime` stops with, on the line reached; the table is unchanged. `ParseTermPrime` reads nothing (void) unless the lookahead is `*`, `/` or `&&`; otherwise an operand and the rest of the chain, `/` making the result float, `&&` wanting a boolean or void chain (BadAnd), the others a compatible one (Incompatible) |
| Syntactic.Analyzer.MulOperand | src/syntactic/SyntacticAnalysis.java:426-462 | does what `ParseMulOperand` prescribes: on success it returns that type and stands at the tokens `ParseMulOperand` leaves; on failure it returns the error `ParseMulOperand` stops with, on the line reached; the table is unchanged. `ParseMulOperand` reads a multiplicative operator and a factor-a of the left operand's type: `*` and `/` refuse booleans and strings, `&&` takes only booleans (BadOperands otherwise) |
| Syntactic.Analyzer.FactorA | src/syntactic/SyntacticAnalysis.java:479-506 | does what `ParseFactorA` prescribes: on success it returns that type and stands at the tokens `ParseFactorA` leaves; on failure it returns the error `ParseFactorA` stops with, on the line reached; the table is unchanged. `ParseFactorA` reads a unary factor after `!` or `-`, a factor after a factor's first token, and otherwise stops with an unexpected-token error |
| Syntactic.Analyzer.UnaryFactor | src/syntactic/SyntacticAnalysis.java:482-493 | does what `ParseUnaryFactor` prescribes: on success it returns that type and stands at the tokens `ParseUnaryFactor` leaves; on failure it returns the error `ParseUnaryFactor` stops with, on the line reached; the table is unchanged. `ParseUnaryFactor` reads `!` and a boolean factor, or `-` and an int or float factor; any other factor type is BadUnaryOperand |
| Syntactic.Analyzer.Factor | src/syntactic/SyntacticAnalysis.java:509-532 | does what `ParseFactor` prescribes: on success it returns that type and stands at the tokens `ParseFactor` leaves; on failure it returns the error `ParseFactor` stops with, on the line reached; the table is unchanged. `ParseFactor` reads an identifier, a constant or a parenthesised expression as the lookahead selects, and otherwise stops with an unexpected-token error |
| Syntactic.Analyzer.VariableFactor | src/syntactic/SyntacticAnalysis.java:511-515 | does what `ParseVariableFactor` prescribes: on success it returns that type and stands at the tokens `ParseVariableFactor` leaves; on failure it returns the error `ParseVariableFactor` stops with, on the line reached; the table is unchanged. `ParseVariableFactor` reads an identifier that names a declared variable, with its declared type; NotDefined or NotA otherwise |
| Syntactic.Analyzer.UsedName | src/syntactic/SyntacticAnalysis.java:222-227 | does what `ParseUsedName` prescribes: on success it returns that type and stands at the tokens `ParseUsedName` leaves; on failure it returns the error `ParseUsedName` stops with, on the line reached; the table is unchanged. `ParseUsedName` reads an identifier and returns its declared type when it is a declared variable; an undeclared name is NotDefined, any other name NotA |
| Syntactic.Analyzer.Constant | src/syntactic/SyntacticAnalysis.java:516-524 | does what `ParseConstant` prescribes: on success it returns that type and stands at the tokens `ParseConstant` leaves; on failure it returns the error `ParseConstant` stops with, on the line reached; the table is unchanged. `ParseConstant` reads an INTEGER_CONST, LITERAL or REAL_CONST, of type int, string or float |
| Syntactic.Analyzer.ParenFactor | src/syntactic/SyntacticAnalysis.java:525-529 | does what `ParseParenFactor` prescribes: on success it returns that type and stands at the tokens `ParseParenFactor` leaves; on failure it returns the error `ParseParenFactor` stops with, on the line reached; the table is unchanged. `ParseParenFactor` reads `(`, an expression and `)`, of the expression's type |
| Syntactic.Analyzer.ParenRest | src/syntactic/SyntacticAnalysis.java:527-528 | does what `ParseParenRest` prescribes: on success it returns that type and stands at the tokens `ParseParenRest` leaves; on failure it returns the error `ParseParenRest` stops with, on the line reached; the table is unchanged. `ParseParenRest` reads an expression and then `)`; a missing `)` is an unexpected-token error naming CLOSE_PAR |
| Syntactic.Analyzer.Body | src/syntactic/SyntacticAnalysis.java:176-180 | does what `ParseBody` prescribes: on success it stands at the tokens `ParseBody` leaves; on failure it returns the error `ParseBody` stops with, on the line reached; the table is unchanged. `ParseBody` reads `{`, a statement list and `}` |
| Syntactic.Analyzer.StmtList | src/syntactic/SyntacticAnalysis.java:183-196 | does what `ParseStmtList` prescribes: on success it stands at the tokens `ParseStmtList` leaves; on failure it returns the error `ParseStmtList` stops with, on the line reached; the table is unchanged. `ParseStmtList` reads one terminated statement, then more while the lookahead starts a statement |
| Syntactic.Analyzer.Terminated | src/syntactic/SyntacticAnalysis.java:184-194 | does what `ParseTerminated` prescribes: on success it stands at the tokens `ParseTerminated` leaves; on failure it returns the error `ParseTerminated` stops with, on the line reached; the table is unchanged. `ParseTerminated` reads a statement and then `;`; a missing `;` is an unexpected-token error naming SEMI_COLON |
| Syntactic.Analyzer.Stmt | src/syntactic/SyntacticAnalysis.java:199-218 | does what `ParseStmt` prescribes: on success it stands at the tokens `ParseStmt` leaves; on failure it returns the error `ParseStmt` stops with, on the line reached; the table is unchanged. `ParseStmt` reads the statement its first token selects, and otherwise stops with an unexpected-token error |
| Syntactic.Analyzer.AssignStmt | src/syntactic/SyntacticAnalysis.java:221-232 | does what `ParseAssignStmt` prescribes: on success it stands at the tokens `ParseAssignStmt` leaves; on failure it returns the error `ParseAssignStmt` stops with, on the line reached; the table is unchanged. `ParseAssignStmt` reads a used variable and its assigned value |
| Syntactic.Analyzer.AssignedValue | src/syntactic/SyntacticAnalysis.java:228-231 | does what `ParseAssignedValue` prescribes: on success it returns that type and stands at the tokens `ParseAssignedValue` leaves; on failure it returns the error `ParseAssignedValue` stops with, on the line reached; the table is unchanged. `ParseAssignedValue` reads `=` and a simple expression whose type is the target's; any other type is CannotAssign |
| Syntactic.Analyzer.IfStmt | src/syntactic/SyntacticAnalysis.java:235-244 | does what `ParseIfStmt` prescribes: on success it stands at the tokens `ParseIfStmt` leaves; on failure it returns the error `ParseIfStmt` stops with, on the line reached; the table is unchanged. `ParseIfStmt` reads `if`, a parenthesised condition, a body and an optional else |
| Syntactic.Analyzer.ElseStmt | src/syntactic/SyntacticAnalysis.java:247-257 | does what `ParseElseStmt` prescribes: on success it stands at the tokens `ParseElseStmt` leaves; on failure it returns the error `ParseElseStmt` stops with, on the line reached; the table is unchanged. `ParseElseStmt` reads `else` and a body when the lookahead is `else`, and otherwise nothing |
| Syntactic.Analyzer.Guard | src/syntactic/SyntacticAnalysis.java:237-239 | does what `ParseGuard` prescribes: on success it stands at the tokens `ParseGuard` leaves; on failure it returns the error `ParseGuard` stops with, on the line reached; the table is unchanged. `ParseGuard` reads `(`, a condition and `)` |
| Syntactic.Analyzer.Condition | src/syntactic/SyntacticAnalysis.java:260-263 | does what `ParseCondition` prescribes: on success it stands at the tokens `ParseCondition` leaves; on failure it returns the error `ParseCondition` stops with, on the line reached; the table is unchanged. `ParseCondition` reads an expression of type boolean; any other type is NotBoolean |
| Syntactic.Analyzer.DoStmt | src/syntactic/SyntacticAnalysis.java:266-272 | does what `ParseDoStmt` prescribes: on success it stands at the tokens `ParseDoStmt` leaves; on failure it returns the error `ParseDoStmt` stops with, on the line reached; the table is unchanged. `ParseDoStmt` reads `do`, a body and its while suffix |
| Syntactic.Analyzer.DoSuffix | src/syntactic/SyntacticAnalysis.java:275-280 | does what `ParseDoSuffix` prescribes: on success it stands at the tokens `ParseDoSuffix` leaves; on failure it returns the error `ParseDoSuffix` stops with, on the line reached; the table is unchanged. `ParseDoSuffix` reads `while`, `(`, a condition and `)` |
| Syntactic.Analyzer.ReadStmt | src/syntactic/SyntacticAnalysis.java:283-290 | does what `ParseReadStmt` prescribes: on success it stands at the tokens `ParseReadStmt` leaves; on failure it returns the error `ParseReadStmt` stops with, on the line reached; the table is unchanged. `ParseReadStmt` reads `read ( x )` where x is a declared variable of any type; NotDefined or NotA otherwise |
| Syntactic.Analyzer.WriteStmt | src/syntactic/SyntacticAnalysis.java:293-303 | does what `ParseWriteStmt` prescribes: on success it stands at the tokens `ParseWriteStmt` leaves; on failure it returns the error `ParseWriteStmt` stops with, on the line reached; the table is unchanged. `ParseWriteStmt` reads `write (`, a simple expression of any type, and `)` |
| Syntactic.Analyzer.DeclType | src/syntactic/SyntacticAnalysis.java:166-173 | does what `ParseDeclType` prescribes: on success it returns that type and stands at the tokens `ParseDeclType` leaves; on failure it returns the error `ParseDeclType` stops with, on the line reached; the table is unchanged. `ParseDeclType` reads `int`, `string` or `float`, of its type, and otherwise stops with an unexpected-token error |
| Syntactic.Analyzer.DeclaredName | src/syntactic/SyntacticAnalysis.java:117-120 | does what `ParseDeclaredName` prescribes: on success it stands at the tokens `ParseDeclaredName` leaves and the table holds exactly the declarations `ParseDeclaredName` ends with; on failure it returns the error `ParseDeclaredName` stops with. `ParseDeclaredName` reads an identifier that is not declared yet, and fills its row with the given type and class; a declared one is AlreadyDefined |
| Syntactic.Analyzer.IdentList | src/syntactic/SyntacticAnalysis.java:150-163 | does what `ParseIdentList` prescribes: on success it stands at the tokens `ParseIdentList` leaves and the table holds exactly the declarations `ParseIdentList` ends with; on failure it returns the error `ParseIdentList` stops with. `ParseIdentList` reads comma-separated identifiers, declaring each in turn as a variable of the given type |
| Syntactic.Analyzer.Decl | src/syntactic/SyntacticAnalysis.java:144-147 | does what `ParseDecl` prescribes: on success it stands at the tokens `ParseDecl` leaves and the table holds exactly the declarations `ParseDecl` ends with; on failure it returns the error `ParseDecl` stops with. `ParseDecl` reads a type keyword and an ident-list of that type |
| Syntactic.Analyzer.TerminatedDecl | src/syntactic/SyntacticAnalysis.java:134-139 | does what `ParseTerminatedDecl` prescribes: on success it stands at the tokens `ParseTerminatedDecl` leaves and the table holds exactly the declarations `ParseTerminatedDecl` ends with; on failure it returns the error `ParseTerminatedDecl` stops with. `ParseTerminatedDecl` reads a decl and then `;` |
| Syntactic.Analyzer.DeclList | src/syntactic/SyntacticAnalysis.java:133-141 | does what `ParseDeclList` prescribes: on success it stands at the tokens `ParseDeclList` leaves and the table holds exactly the declarations `ParseDeclList` ends with; on failure it returns the error `ParseDeclList` stops with. `ParseDeclList` reads one terminated decl, then more while the lookahead is a type keyword |
| Syntactic.Analyzer.OptionalDeclList | src/syntactic/SyntacticAnalysis.java:122-124 | does what `ParseOptionalDeclList` prescribes: on success it stands at the tokens `ParseOptionalDeclList` leaves and the table holds exactly the declarations `ParseOptionalDeclList` ends with; on failure it returns the error `ParseOptionalDeclList` stops with. `ParseOptionalDeclList` reads a decl-list when the lookahead is a type keyword, and otherwise nothing |
| Syntactic.Analyzer.ClassHeader | src/syntactic/SyntacticAnalysis.java:114-120 | does what `ParseClassHeader` prescribes: on success it stands at the tokens `ParseClassHeader` leaves and the table holds exactly the declarations `ParseClassHeader` ends with; on failure it returns the error `ParseClassHeader` stops with. `ParseClassHeader` reads `class` and a name, declared with type void and class CLASS; any other first token is an unexpected-token error |
| Syntactic.Analyzer.Program | src/syntactic/SyntacticAnalysis.java:113-130 | does what `ParseProgram` prescribes: on success it stands at the tokens `ParseProgram` leaves and the table holds exactly the declarations `ParseProgram` ends with; on failure it returns the error `ParseProgram` stops with. `ParseProgram` reads a class header, optional declarations and a body, from an empty table |
| Syntactic.Analyzer.Start | src/syntactic/SyntacticAnalysis.java:103-110 | does what `Analyze` prescribes on the input's token stream (a program, then END_OF_FILE); when the first request fails it returns that lexical error; the token stream of a well-formed program followed by end-of-file is accepted exactly when the program is well typed |
| Syntactic.Analyzer.Verdict | src/syntactic/SyntacticAnalysis.java:103-110 | once the analysis did what `Analyze` prescribes, a program's token stream followed by end-of-file is accepted exactly when the program is well typed |

## Left out

- Input and output: reading the file, printing tokens, messages and the final success line, and the command-line entry point (`Main`) are not part of this model. The input is a byte sequence, and `getc` and `unget` move a cursor.
- Error text: `System.err` and `System.exit` become an `Error` value carrying its kind, the line counter and the names involved; the message strings are not modelled.
- Lexer.Unget: the stream's `unread(-1)` pushes back the byte 0xFF. The model instead stays at end of input, so a token that ends at end of input is followed by end-of-file rather than by a 0xFF byte.
- Lexical.Lexer.NextToken: a digit run whose value is above 2147483647 makes `Integer.parseInt` throw. The model returns the lexical error `IntegerOutOfRange` for it, without the exception's message.
- Floating point: `Float.parseFloat` and `Float.toString` are not modelled. A real constant keeps its lexeme as an opaque payload, and `FloatToken.toString` is not modelled.
- `Character.isLetter`, `isDigit` and `isLetterOrDigit` are modelled on the characters U+0000 to U+00FF only, because bytes are read one at a time.
- The analyzer's symbol table class is not part of this model. Its interface is inferred from its call sites: `getType`, `getClass`, `updateType`, `updateClass` and the two-argument lexer constructor.
  - It is modelled as a map shared by the lexer and the analyzer.
  - Identifier registration is assumed to insert an empty row only when the lexeme has none.
- The null checks that can fail in the source are not reachable in the model. Either the analyzer's table keeps both columns filled together (`Paired`), or the model returns an error first. These are the calls on a row's class when the row has a type but no class, and `getType` of a name with no type.
- DescentFacts: the completeness lemmas speak of phrase token texts followed by a token that may legally follow the phrase. Token sequences that are not a phrase's text are covered by the soundness lemmas only: whatever a production accepts is a phrase's text.
- LexicalSymbolTable.SymbolTable.Update: the source dereferences a missing row and fails. The model returns `false` and leaves the table as it was.
- `SymbolTable.toString` is not modelled, because the iteration order of a hash map is unspecified.
