/** `Parser.tryParse`: split off the redirection, tokenize the command text, take
    the first token as the command and the rest as its arguments, and check them
    against the argument table. */
module CommandParser {
  import opened Wrappers
  import opened HostPath
  import opened Tokenizer
  import opened Redirection
  import opened PathClassifier
  import opened ArgumentContract

  /** A command name and its arguments, as `tryParse` stores them. */
  datatype Invocation = Invocation(cmd: string, args: seq<string>)

  /** The redirection checks as the code does them: the text before the
      redirection is `res[0]`, which does not exist when the split is empty. */
  function CommandTextAsWritten(valid: Validity, input: string): Result<string, ParseError>
  {
    var res := SplitRedirect(input);
    if |res| > 2 then Failure(MultipleRedirections)
    else if |res| == 2 && IsParsable(valid, res[1]) != SingleFile then Failure(InvalidRedirectionFile(res[1]))
    else if |res| == 0 then Failure(IndexOutOfBounds)
    else Success(res[0])
  }

  /** An input made of `>` characters only has no `res[0]`: the as-written code
      faults with an `ArrayIndexOutOfBoundsException`. */
  lemma OperatorOnlyInputFaults(valid: Validity, input: string)
    requires input != [] && OnlyOperators(input)
    ensures CommandTextAsWritten(valid, input) == Failure(IndexOutOfBounds)
  {
    SplitEmptyExactly(input);
  }

  /** The redirection checks as evidently intended: an input with no command
      text before the redirection is an empty command. */
  function CommandText(valid: Validity, input: string): (r: Result<string, ParseError>)
    ensures r != Failure(IndexOutOfBounds)
  {
    var res := SplitRedirect(input);
    if |res| > 2 then Failure(MultipleRedirections)
    else if |res| == 2 && IsParsable(valid, res[1]) != SingleFile then Failure(InvalidRedirectionFile(res[1]))
    else if |res| == 0 then Failure(EmptyCommand)
    else Success(res[0])
  }

  /** The corrected checks never fault, report an operator-only input as an
      empty command, and otherwise agree with the code as written. */
  lemma CommandTextCorrected(valid: Validity, input: string)
    ensures input != [] && OnlyOperators(input) ==> CommandText(valid, input) == Failure(EmptyCommand)
    ensures !(input != [] && OnlyOperators(input)) ==> CommandText(valid, input) == CommandTextAsWritten(valid, input)
  {
    SplitEmptyExactly(input);
  }

  /** Everything `tryParse` does before it stores the command and arguments. */
  function SplitCommand(valid: Validity, input: string): Result<Invocation, ParseError>
  {
    match CommandText(valid, input)
    case Failure(e) => Failure(e)
    case Success(text) =>
      var data := Tokens(text);
      if |data| == 0 || |data[0]| == 0 then Failure(EmptyCommand)
      else Success(Invocation(data[0], data[1..]))
  }

  lemma {:induction false} NoSpansInBlank(s: string, i: nat)
    requires i <= |s|
    requires forall k :: i <= k < |s| ==> IsSpace(s[k])
    ensures Spans(s, i) == []
    decreases |s| - i
  {
    if i < |s| {
      NoSpansInBlank(s, i + 1);
    }
  }

  /** A line of whitespace only is an empty command. */
  lemma BlankInputIsEmptyCommand(valid: Validity, input: string)
    requires forall k :: 0 <= k < |input| ==> IsSpace(input[k])
    ensures SplitCommand(valid, input) == Failure(EmptyCommand)
  {
    assert '>' !in input by {
      assert forall k :: 0 <= k < |input| ==> input[k] != '>';
    }
    NoSpansInBlank(input, 0);
  }

  /** The redirection does not change the command line: with a target the host
      takes for a file, the command and arguments are those of the text before
      the operator; with any other target the line is refused. */
  lemma RedirectionKeepsCommand(valid: Validity, command: string, op: string, target: string)
    requires '>' !in command && '>' !in target
    requires op == ">" || op == ">>"
    requires target != "" && target[0] != '>'
    ensures IsParsable(valid, target) == SingleFile ==>
              SplitCommand(valid, command + op + target) == SplitCommand(valid, command)
    ensures IsParsable(valid, target) != SingleFile ==>
              SplitCommand(valid, command + op + target) == Failure(InvalidRedirectionFile(target))
  {
    SplitSingleRedirect(command, op, target);
  }

  /** A dangling operator is dropped silently: the line parses as if it were
      not there. */
  lemma DanglingRedirectionIgnored(valid: Validity, command: string, op: string)
    requires '>' !in command && command != ""
    requires op == ">" || op == ">>"
    ensures SplitCommand(valid, command + op) == SplitCommand(valid, command)
  {
    DanglingOperatorVanishes(command, op);
  }

  /** A parsed command is one token of the command text: a word, or a quoted
      run with its quotes, which no entry of the table matches. */
  lemma ParsedCommandIsToken(valid: Validity, input: string)
    requires SplitCommand(valid, input).Success?
    ensures IsWordToken(SplitCommand(valid, input).value.cmd) || IsQuotedToken(SplitCommand(valid, input).value.cmd)
    ensures IsQuotedToken(SplitCommand(valid, input).value.cmd) ==>
              CheckCommandAndArguments(valid, SplitCommand(valid, input).value.cmd, SplitCommand(valid, input).value.args).Fail?
  {
    var text := CommandText(valid, input).value;
    var inv := SplitCommand(valid, input).value;
    assert IsWordToken(inv.cmd) || IsQuotedToken(inv.cmd) by {
      TokenShapes(text);
      assert Tokens(text)[0] in Tokens(text);
    }
    if IsQuotedToken(inv.cmd) {
      QuotedCommandRefused(valid, inv.cmd, inv.args);
    }
  }

  /** No command name starts with a quote. */
  lemma QuotedCommandRefused(valid: Validity, cmd: string, args: seq<string>)
    requires cmd != [] && IsQuote(cmd[0])
    ensures CheckCommandAndArguments(valid, cmd, args) == Fail(NotValidCommand(cmd))
  {
  }

  /** The parser object: `tryParse` fills `cmd` and `args`. */
  class Parser {
    var cmd: string
    var args: seq<string>
    const valid: Validity

    constructor (valid: Validity)
      ensures this.valid == valid && cmd == "" && args == []
    {
      this.valid := valid;
      cmd, args := "", [];
    }

    /** `tryParse`: on a failure before the tokens are stored nothing changes;
        once they are stored the argument check decides the outcome, and the
        fields keep the new values even when it refuses them. */
    method TryParse(input: string) returns (r: Outcome<ParseError>)
      modifies this
      ensures SplitCommand(valid, input).Failure? ==>
                r == Fail(SplitCommand(valid, input).error) && cmd == old(cmd) && args == old(args)
      ensures SplitCommand(valid, input).Success? ==>
                && cmd == SplitCommand(valid, input).value.cmd
                && args == SplitCommand(valid, input).value.args
                && r == CheckCommandAndArguments(valid, cmd, args)
    {
      var res := SplitRedirect(input);
      if |res| > 2 {
        return Fail(MultipleRedirections);
      }
      if |res| == 2 && IsParsable(valid, res[1]) != SingleFile {
        return Fail(InvalidRedirectionFile(res[1]));
      }
      if |res| == 0 {
        return Fail(EmptyCommand);
      }
      var data := SplitInput(res[0]);
      if |data| == 0 || |data[0]| == 0 {
        return Fail(EmptyCommand);
      }
      cmd := data[0];
      args := data[1..];
      r := CheckCommandAndArguments(valid, cmd, args);
    }
  }
}
