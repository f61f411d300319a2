/** The recognizer as the source runs it: one parser object with a token array and a
    cursor that every rule advances in place, and the `parse` entry point. */
module Parser {
  import opened Tokens
  import opened Grammar
  import opened Recognizer
  import opened Correctness

  class ScriptParser {
    var tokens: array<TokenKind>
    var pos: nat
    var errors: seq<Diagnostic>

    ghost predicate Valid()
      reads this
    {
      pos <= tokens.Length
    }

    /** A parser with no input yet. */
    constructor ()
      ensures Valid() && tokens.Length == 0 && pos == 0 && errors == []
    {
      tokens := new TokenKind[0];
      pos := 0;
      errors := [];
    }

    /** The `input` setter: installs a new token vector and resets the cursor and errors. */
    method SetInput(input: array<TokenKind>)
      modifies this
      ensures Valid() && tokens == input && pos == 0 && errors == []
    {
      tokens := input;
      pos := 0;
      errors := [];
    }

    /** LA(1): the next unconsumed token, or the end of input. */
    method LA1() returns (la: Lookahead)
      requires Valid()
      ensures la == Peek(tokens[..], pos)
    {
      if pos < tokens.Length {
        la := Token(tokens[pos]);
      } else {
        la := EndOfInput;
      }
    }

    /** CONSUME(kind): take the next token if it has that kind, otherwise fail on it. */
    method Consume(kind: TokenKind) returns (o: Result)
      requires Valid()
      modifies this`pos
      ensures Valid()
      ensures o == Expect(tokens[..], old(pos), kind) && pos == Cursor(o)
    {
      var la := LA1();
      if la == Token(kind) {
        pos := pos + 1;
        o := Success(pos);
      } else {
        o := Failure(MismatchedToken(kind, la, pos));
      }
    }

    /** The body of rule assignmentStatement. */
    method AssignmentStatementRule() returns (o: Result)
      requires Valid()
      modifies this`pos
      decreases tokens.Length - pos, Rank(Assign), 2
      ensures Valid()
      ensures o == Recognize(Assign, tokens[..], old(pos)) && pos == Cursor(o)
    {
      var _ :- Consume(Identifier);
      var _ :- Consume(Assignment);
      o := Expression();
    }

    method Expression() returns (o: Result)
      requires Valid()
      modifies this`pos
      decreases tokens.Length - pos, Rank(Expr), 2
      ensures Valid()
      ensures o == Recognize(Expr, tokens[..], old(pos)) && pos == Cursor(o)
    {
      o := SubtExpression();
    }

    /** subtExpression: SUBRULE(addExpression), then the MANY. */
    method SubtExpression() returns (o: Result)
      requires Valid()
      modifies this`pos
      decreases tokens.Length - pos, Rank(Subt), 2
      ensures Valid()
      ensures o == Recognize(Subt, tokens[..], old(pos)) && pos == Cursor(o)
    {
      ChainStart(Subt, tokens[..], pos);
      o := AddExpression();
      if o.Success? {
        o := SubtMany();
      }
    }

    /** The MANY of subtExpression: CONSUME(Subtraction) and SUBRULE2(addExpression) for as long as the next
        token is Subtraction. */
    method SubtMany() returns (o: Result)
      requires Valid()
      modifies this`pos
      decreases tokens.Length - pos, Rank(Subt), 1
      ensures Valid()
      ensures o == Repeat(Subt, tokens[..], old(pos)) && pos == Cursor(o)
    {
      ghost var s := tokens[..];
      ghost var goal := Repeat(Subt, s, pos);
      o := Success(pos);
      while o.Success? && pos < tokens.Length && tokens[pos] == Subtraction
        invariant Valid() && tokens[..] == s && pos == Cursor(o)
        invariant o.Success? ==> Repeat(Subt, s, pos) == goal
        invariant o.Failure? ==> o == goal
        decreases tokens.Length - pos
      {
        ghost var before := pos;
        RepeatStep(Subt, s, before);
        var _ := Consume(Subtraction);
        o := AddExpression();
      }
    }

    /** addExpression: SUBRULE(multExpression), then the MANY. */
    method AddExpression() returns (o: Result)
      requires Valid()
      modifies this`pos
      decreases tokens.Length - pos, Rank(Add), 2
      ensures Valid()
      ensures o == Recognize(Add, tokens[..], old(pos)) && pos == Cursor(o)
    {
      ChainStart(Add, tokens[..], pos);
      o := MultExpression();
      if o.Success? {
        o := AddMany();
      }
    }

    /** The MANY of addExpression: CONSUME(Addition) and SUBRULE2(multExpression) for as long as the next
        token is Addition. */
    method AddMany() returns (o: Result)
      requires Valid()
      modifies this`pos
      decreases tokens.Length - pos, Rank(Add), 1
      ensures Valid()
      ensures o == Repeat(Add, tokens[..], old(pos)) && pos == Cursor(o)
    {
      ghost var s := tokens[..];
      ghost var goal := Repeat(Add, s, pos);
      o := Success(pos);
      while o.Success? && pos < tokens.Length && tokens[pos] == Addition
        invariant Valid() && tokens[..] == s && pos == Cursor(o)
        invariant o.Success? ==> Repeat(Add, s, pos) == goal
        invariant o.Failure? ==> o == goal
        decreases tokens.Length - pos
      {
        ghost var before := pos;
        RepeatStep(Add, s, before);
        var _ := Consume(Addition);
        o := MultExpression();
      }
    }

    /** multExpression: SUBRULE(atomicExpression), then the MANY. */
    method MultExpression() returns (o: Result)
      requires Valid()
      modifies this`pos
      decreases tokens.Length - pos, Rank(Mult), 2
      ensures Valid()
      ensures o == Recognize(Mult, tokens[..], old(pos)) && pos == Cursor(o)
    {
      ChainStart(Mult, tokens[..], pos);
      o := AtomicExpression();
      if o.Success? {
        o := MultMany();
      }
    }

    /** The MANY of multExpression: CONSUME(Multiplication) and SUBRULE2(atomicExpression) for as long as the next
        token is Multiplication. */
    method MultMany() returns (o: Result)
      requires Valid()
      modifies this`pos
      decreases tokens.Length - pos, Rank(Mult), 1
      ensures Valid()
      ensures o == Repeat(Mult, tokens[..], old(pos)) && pos == Cursor(o)
    {
      ghost var s := tokens[..];
      ghost var goal := Repeat(Mult, s, pos);
      o := Success(pos);
      while o.Success? && pos < tokens.Length && tokens[pos] == Multiplication
        invariant Valid() && tokens[..] == s && pos == Cursor(o)
        invariant o.Success? ==> Repeat(Mult, s, pos) == goal
        invariant o.Failure? ==> o == goal
        decreases tokens.Length - pos
      {
        ghost var before := pos;
        RepeatStep(Mult, s, before);
        var _ := Consume(Multiplication);
        o := AtomicExpression();
      }
    }

    /** OR over three alternatives, chosen by the next token. */
    method AtomicExpression() returns (o: Result)
      requires Valid()
      modifies this`pos
      decreases tokens.Length - pos, Rank(Atom), 2
      ensures Valid()
      ensures o == Recognize(Atom, tokens[..], old(pos)) && pos == Cursor(o)
    {
      var la := LA1();
      if la == Token(LParen) {
        var _ := Consume(LParen);
        var _ :- Expression();
        o := Consume(RParen);
      } else if la == Token(Integer) {
        o := Consume(Integer);
      } else if la == Token(Identifier) {
        o := Consume(Identifier);
      } else {
        o := Failure(NoViableAlternative(AtomStarts, la, pos));
      }
    }

    /** assignmentStatement invoked as the top-level rule: a failure is saved and the parser
        moves to its terminated state; a success that leaves input unconsumed saves a
        not-all-input-parsed error on the first leftover token. */
    method AssignmentStatement()
      requires Valid()
      modifies this`pos, this`errors
      ensures Valid()
      ensures errors == old(errors) + TopLevelErrors(tokens[..], old(pos))
      ensures pos == if Recognize(Assign, tokens[..], old(pos)).Failure? then tokens.Length
                     else Recognize(Assign, tokens[..], old(pos)).end
    {
      var o := AssignmentStatementRule();
      if o.Failure? {
        errors := errors + [o.diagnostic];
        pos := tokens.Length;
      } else if pos < tokens.Length {
        errors := errors + [NotAllInputParsed(Token(tokens[pos]), pos)];
      }
    }
  }

  /** The fixed first line of the message `parse` throws. */
  const Preamble: string := "Sad sad panda, parsing errors detected!\n"

  /** How a call to `parse` ends: normally, or by throwing an error with this message. */
  datatype Verdict = Accepted | Thrown(message: string)

  /** The verdict `parse` reaches on `s`, where `describe` renders a diagnostic as the
      parsing library's message text. */
  function Judge(s: seq<TokenKind>, describe: Diagnostic -> string): (v: Verdict)
    ensures v.Accepted? <==> Derives(Assign, s)
    ensures v.Thrown? ==> |TopLevelErrors(s, 0)| == 1 && v.message == Preamble + describe(TopLevelErrors(s, 0)[0])
  {
    AcceptsExactlyStatements(s);
    var errs := TopLevelErrors(s, 0);
    if |errs| > 0 then Thrown(Preamble + describe(errs[0])) else Accepted
  }

  /** `parse`: reset the shared parser with the new tokens, run assignmentStatement, and
      throw if it recorded any error. Whatever the parser held before, the verdict depends
      on the tokens alone. */
  method Parse(parser: ScriptParser, input: array<TokenKind>, describe: Diagnostic -> string)
    returns (v: Verdict)
    modifies parser
    ensures v == Judge(input[..], describe)
    ensures parser.Valid() && parser.tokens == input && parser.errors == TopLevelErrors(input[..], 0)
  {
    parser.SetInput(input);
    parser.AssignmentStatement();
    if |parser.errors| > 0 {
      v := Thrown(Preamble + describe(parser.errors[0]));
    } else {
      v := Accepted;
    }
  }

  /** Parsing the same tokens twice with one shared parser gives the same verdict both times. */
  method ParseTwice(parser: ScriptParser, input: array<TokenKind>, describe: Diagnostic -> string)
    returns (first: Verdict, second: Verdict)
    modifies parser
    ensures first == second
    ensures first.Accepted? <==> Derives(Assign, input[..])
  {
    first := Parse(parser, input, describe);
    second := Parse(parser, input, describe);
  }
}
