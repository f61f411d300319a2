# Grammar recognizer for one assignment statement

This project models the recognizer in `parsing.js` and proves properties of it. The
recognizer is a recursive-descent parser that builds no tree. It accepts one statement,
`Identifier = expression`. Expressions follow a three-level precedence ladder:

- `subtExpression` is a `-`-separated chain of `+`-chains;
- `addExpression` is a `+`-separated chain of `*`-chains;
- `multExpression` is a `*`-separated chain of atoms;
- `atomicExpression` is a parenthesised expression, an `Integer` or an `Identifier`.

Each `MANY` loop is decided by one token of lookahead. So is the atom's `OR`. Recognition
stops at the first mismatch. `parse` resets the shared parser with the new tokens, runs
`assignmentStatement`, and throws `"Sad sad panda, parsing errors detected!\n"` followed
by the first error's message if any error was recorded.

The project has these modules:

- `Tokens`: the twelve token kinds of the vocabulary, and `Lookahead`, which is a token
  or the end of input.
- `Grammar`: the grammar as a ghost predicate `Derives`. Each chain rule is written
  left-recursively (`Chain`), which encodes left associativity. `Spans` says that a rule
  derives `s[p..q]` and that the next token could not continue it.
- `Recognizer`: a pure reference recognizer. `Recognize`, `RecognizeChain` and `Repeat`
  return `Success(end)` or the first `Diagnostic`: a mismatched token, no viable
  alternative, or input left over. `TopLevelErrors` is the error list the parser holds
  after the top-level call.
- `Parser`: the class `ScriptParser`. It has the `tokens` array, the `pos` cursor and the
  `errors` list. There is one method per rule, and each `MANY` is a method with a `while`
  loop. Every rule method is proved equal to the reference recognizer, with its cursor
  left where the reference says. `Parse` models the `parse` entry point.
- `Correctness`: soundness and completeness of the recognizer against `Derives`.
- `Ladder`: the precedence ladder. It proves that an expression is exactly a flat mix of
  atoms and the three operators.
- `Properties`: the unused token kinds, and the accepted and rejected example statements.
- `FirstError`: where the first error can fall.
- `Slices`: how slices of a sequence fit back together.

Chevrotain, the library that runs the rules, is not part of this model. The model follows
its observable behaviour:

- error recovery is off, so the first mismatch ends the rule;
- the top-level rule records that error and moves the cursor past the input;
- when the top-level rule succeeds with tokens left, a not-all-input-parsed error is
  recorded on the first leftover token;
- `MANY` continues exactly while the next token is the loop's operator;
- `OR` with no matching alternative fails with no viable alternative.

Acceptance therefore means that the whole token sequence is one statement.
`Correctness.AcceptsExactlyStatements` states this whole-input form.
`Correctness.RecognizeCorrect` states the prefix form, with the end cursor.

Two points about what is modelled:

- No rule of the grammar checks that the input ends. Whole-input acceptance comes from
  the library's leftover-input error, which the model records as the library does.
- A diagnostic names the index of the offending token, not a character offset and a
  lexeme, because the recognizer sees only token kinds.

## Model

| member | source | states |
|---|---|---|
| Recognizer.Expect | parsing.js:35-36 | CONSUME succeeds exactly when the next token has the required kind and then advances by one token; otherwise it fails with a mismatch naming the expected kind and the token or end of input found at the cursor |
| Recognizer.Recognize | parsing.js:34-78 | every rule that succeeds consumes at least one token and stays within the input; every failure is reported at or after the starting cursor, on the token actually found there |
| Recognizer.RecognizeAssign | parsing.js:34-38 | assignmentStatement consumes the name, the assignment sign and at least one more token when it succeeds; its failures carry the token found where they occur |
| Recognizer.RecognizeAtom | parsing.js:68-78 | atomicExpression consumes at least one token when it succeeds and reports failures on the token found |
| Recognizer.RecognizeChain | parsing.js:44-66 | a chain rule (operand then MANY) consumes at least one token when it succeeds and reports failures on the token found |
| Recognizer.Repeat | parsing.js:44-66 | a MANY loop never moves the cursor back, stops on a token that is not its own operator or at the end of input, and any failure lies strictly after the loop's start |
| Recognizer.TopLevelErrors | parsing.js:103-105 | after the top-level call the parser holds at most one error, and none exactly when assignmentStatement consumed the whole input |
| Correctness.RecognizeSound | parsing.js:34-78 | a rule that succeeds at `p` derives the tokens it consumed, and the token after them cannot continue that rule |
| Correctness.RecognizeComplete | parsing.js:34-78 | if a rule derives `s[p..q]` and the next token cannot continue it, the rule run at `p` succeeds exactly at `q` |
| Correctness.RecognizeCorrect | parsing.js:34-78 | both directions: a rule run at `p` stops successfully at `q` if and only if it spans `s[p..q]` |
| Correctness.RecognizeFails | parsing.js:34-78 | a rule fails at `p` if and only if no stretch of input starting at `p` is a clean derivation of it |
| Correctness.SpansUnique | parsing.js:44-78 | with one token of lookahead, a rule can span from a given start to at most one end |
| Correctness.AcceptsExactlyStatements | parsing.js:96-105 | the top-level call records no error if and only if the whole token sequence is a statement of the grammar |
| Ladder.ExpressionsAreFlat | parsing.js:40-66 | the token sequences derived by expression are exactly the atoms joined by any mix of `-`, `+` and `*`; the ladder fixes only the grouping |
| Properties.DerivesAvoidsUnused | parsing.js:13-20 | no derivation of any rule contains Boolean, Equivalence, LogicalOR or LogicalAND |
| Properties.RecognizedAvoidsUnused | parsing.js:34-78 | the tokens a successful rule consumes contain none of the four unused kinds |
| Properties.UnusedKindsRejected | parsing.js:13-20 | any input holding one of the four unused kinds is rejected |
| Properties.PrecedenceAccepted | parsing.js:52-66 | `x = 1 + 2 * 3` is accepted |
| Properties.ParenthesesAccepted | parsing.js:68-74 | `x = ( 1 + 2 ) * 3` is accepted |
| Properties.DifferencesAccepted | parsing.js:44-50 | `x = a - b - c` is accepted |
| Properties.MixedAccepted | parsing.js:44-58 | `x = a + b - c + d` is accepted |
| Properties.MissingAssignmentRejected | parsing.js:34-38 | `x 1` is rejected with exactly one error: Assignment expected, Integer found at token 1 |
| Properties.LeftoverRejected | parsing.js:103-105 | `x = 1 1` is rejected with exactly one error: input left over, Integer found at token 3 |
| Properties.DanglingOperatorRejected | parsing.js:68-78 | `x = 1 +` is rejected with exactly one error: no viable alternative among LParen, Integer and Identifier, end of input at token 4 |
| Properties.UnclosedRejected | parsing.js:71-73 | `x = ( 1` is rejected with exactly one error: RParen expected, end of input at token 4 |
| FirstError.FailureCompletion | parsing.js:34-78 | the tokens a failing rule read before its failure can be completed into a derivation of that rule |
| FirstError.Locality | parsing.js:34-78 | a rule reads no token beyond where it stops: on any input that agrees up to and including that token it reaches the same result |
| FirstError.NoStatementExtends | parsing.js:103-105 | no statement begins with the input up to and including the token the first error is reported on |
| FirstError.FirstErrorIsFirstUnviableToken | parsing.js:103-108 | the first error falls on the first token that no statement could have there: the input before it can still be completed to a statement, and either the input ends there or no statement begins with the input up to and including it |
| Parser.ScriptParser.constructor | parsing.js:28-29 | a new parser holds an empty token vector, its cursor at 0 and no errors |
| Parser.ScriptParser.SetInput | parsing.js:99-100 | the input setter installs the new token vector and resets the cursor to 0 and the error list to empty |
| Parser.ScriptParser.LA1 | parsing.js:69-77 | LA(1) is the token at the cursor, or the end of input when it is past the last token |
| Parser.ScriptParser.Consume | parsing.js:35-36 | CONSUME behaves as `Expect` on the current tokens and leaves the cursor where `Expect` says |
| Parser.ScriptParser.AssignmentStatementRule | parsing.js:34-38 | the rule body returns what the reference recognizer returns for assignmentStatement at the old cursor and leaves the cursor at its end or failure point |
| Parser.ScriptParser.Expression | parsing.js:40-42 | expression returns the reference result for expression and leaves the cursor where it says |
| Parser.ScriptParser.SubtExpression | parsing.js:44-50 | subtExpression returns the reference result for the `-` chain and leaves the cursor where it says |
| Parser.ScriptParser.SubtMany | parsing.js:46-49 | the `-` loop returns the reference result of the MANY from the old cursor and leaves the cursor there |
| Parser.ScriptParser.AddExpression | parsing.js:52-58 | addExpression returns the reference result for the `+` chain and leaves the cursor where it says |
| Parser.ScriptParser.AddMany | parsing.js:54-57 | the `+` loop returns the reference result of the MANY from the old cursor and leaves the cursor there |
| Parser.ScriptParser.MultExpression | parsing.js:60-66 | multExpression returns the reference result for the `*` chain and leaves the cursor where it says |
| Parser.ScriptParser.MultMany | parsing.js:62-65 | the `*` loop returns the reference result of the MANY from the old cursor and leaves the cursor there |
| Parser.ScriptParser.AtomicExpression | parsing.js:68-78 | atomicExpression chooses its alternative by LA(1) and returns the reference result for an atom, leaving the cursor where it says |
| Parser.ScriptParser.AssignmentStatement | parsing.js:103 | the top-level call appends exactly the reference top-level errors to the error list; after a failure the cursor is past the input, after a success it is at the rule's end |
| Parser.Judge | parsing.js:105-110 | the verdict is acceptance exactly when the tokens form a statement; otherwise exactly one error was recorded and the thrown message is the fixed preamble followed by that error's text |
| Parser.Parse | parsing.js:96-111 | parse reaches the verdict `Judge` gives for the tokens, whatever the shared parser held before, and leaves the parser holding those tokens and their top-level errors |
| Parser.ParseTwice | parsing.js:88-103 | parsing the same tokens twice with the shared parser gives the same verdict both times, acceptance exactly when they form a statement |

## Left out

- The lexer: `lexing.js` is not part of this model. The input is a sequence of token
  kinds, with no lexemes and no offsets. `parse` ignores the lexer's error list
  (parsing.js:97-100), so leaving those errors out changes no verdict.
- `main.js`: a demonstration caller that lexes one fixed string and prints the tokens.
- Chevrotain's grammar self-analysis (`performSelfAnalysis`, parsing.js:84), its general
  LL(k) lookahead computation (only LA(1) is modelled, and it is all this grammar needs),
  error recovery and the constructor `config` (parsing.js:28).
- The library's exact error wording. `Judge`, `Parse` and `ParseTwice` take the
  rendering of a diagnostic as a parameter (`describe`), and the model states only the
  preamble and which diagnostic is rendered.
- Concurrent use of the singleton `parserInstance` (parsing.js:89). The model runs one
  parse at a time on the parser it is given.
