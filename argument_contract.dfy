/** `Parser.CheckCommandAndArguments`: the per-command table of how many
    arguments a command takes and what kind of path each must be. */
module ArgumentContract {
  import opened Wrappers
  import opened HostPath
  import opened PathClassifier

  /** The conditions `tryParse` reports; `IndexOutOfBounds` stands for the
      `ArrayIndexOutOfBoundsException` Java raises instead of a
      `ParsingException`. */
  datatype ParseError =
    | MultipleRedirections
    | InvalidRedirectionFile(part: string)
    | EmptyCommand
    | NoArgumentsSupported(cmd: string)
    | ArgumentCountNotSupported(cmd: string, count: nat)
    | NotSupportedCommand(arg: string)
    | NotValidPath(arg: string)
    | NotValidDirectory(arg: string)
    | NotValidDestination(arg: string)
    | NotValidFile(arg: string)
    | NotValidCommand(cmd: string)
    | IndexOutOfBounds

  /** `supportedCommands`: the names `help` and `args` accept. `ls` is not
      among them. */
  const SupportedCommands: seq<string> :=
    ["cp", "mv", "rm", "pwd", "cat", "cd", "mkdir", "rmdir", "more", "args", "date", "help"]

  /** The first argument whose kind `accept` refuses, if any: the `for` loops of
      the mkdir/rmdir and cat cases. */
  function FirstRefused(valid: Validity, args: seq<string>, accept: PathType -> bool): (r: Option<nat>)
    ensures r.None? <==> forall k :: 0 <= k < |args| ==> accept(IdentifyPath(valid, args[k]))
    ensures r.Some? ==> r.value < |args| && !accept(IdentifyPath(valid, args[r.value]))
    ensures r.Some? ==> forall k :: 0 <= k < r.value ==> accept(IdentifyPath(valid, args[k]))
  {
    if args == [] then None
    else if !accept(IdentifyPath(valid, args[0])) then Some(0)
    else
      match FirstRefused(valid, args[1..], accept)
      case None => None
      case Some(k) => Some(k + 1)
  }

  /** Whether a copy or move from a path of kind `source` to one of kind
      `destination` is accepted: neither invalid, the destination never a
      wildcard, and a directory or several files only into a directory. */
  predicate CopyKinds(source: PathType, destination: PathType) {
    && source != Invalid
    && (destination == SingleFile || destination == Directory)
    && (source == Directory || source == MultipleFiles ==> destination == Directory)
  }

  /** The more case as the code does it: the message is built from `args[1]`,
      so refusing a single argument, or having none at all, ends in an
      `ArrayIndexOutOfBoundsException`. */
  function CheckMoreAsWritten(valid: Validity, args: seq<string>): Outcome<ParseError>
  {
    if |args| == 0 then Fail(IndexOutOfBounds)
    else if IdentifyPath(valid, args[0]) != SingleFile then
      if |args| < 2 then Fail(IndexOutOfBounds) else Fail(NotValidFile(args[1]))
    else Pass
  }

  /** A lone argument that is not a file makes the as-written check fault
      instead of reporting the file, and with two arguments it names the
      wrong one. */
  lemma MoreCheckFaults(valid: Validity, a: string, b: string)
    requires IdentifyPath(valid, a) != SingleFile
    ensures CheckMoreAsWritten(valid, [a]) == Fail(IndexOutOfBounds)
    ensures CheckMoreAsWritten(valid, [a, b]) == Fail(NotValidFile(b))
  {
  }

  /** The more case as evidently intended: the message names `args[0]`. */
  function CheckMore(valid: Validity, args: seq<string>): (r: Outcome<ParseError>)
    ensures |args| > 0 ==> (r.Pass? <==> IdentifyPath(valid, args[0]) == SingleFile)
    ensures |args| > 0 && r.Fail? ==> r.error == NotValidFile(args[0])
  {
    if |args| == 0 then Fail(IndexOutOfBounds)
    else if IdentifyPath(valid, args[0]) != SingleFile then Fail(NotValidFile(args[0]))
    else Pass
  }

  /** The table written as one condition per command; `rm` has no row. */
  ghost predicate Admissible(valid: Validity, cmd: string, args: seq<string>) {
    if cmd == "help" then |args| == 0 || (|args| == 1 && args[0] in SupportedCommands)
    else if cmd == "args" then |args| == 1 && args[0] in SupportedCommands
    else if cmd == "pwd" || cmd == "date" then args == []
    else if cmd == "ls" then |args| == 0 || (|args| == 1 && IdentifyPath(valid, args[0]) != Invalid)
    else if cmd == "cd" then |args| == 0 || (|args| == 1 && IdentifyPath(valid, args[0]) == Directory)
    else if cmd == "cp" || cmd == "mv" then
      |args| == 2 && CopyKinds(IdentifyPath(valid, args[0]), IdentifyPath(valid, args[1]))
    else if cmd == "more" then |args| > 0 && IdentifyPath(valid, args[0]) == SingleFile
    else if cmd == "mkdir" || cmd == "rmdir" then
      forall k :: 0 <= k < |args| ==> IdentifyPath(valid, args[k]) == Directory
    else if cmd == "cat" then
      forall k :: 0 <= k < |args| ==> IdentifyPath(valid, args[k]) in {SingleFile, MultipleFiles}
    else false
  }

  /** `CheckCommandAndArguments`: passes exactly the admissible command lines;
      a refused mkdir, rmdir or cat names its first offending argument. */
  function CheckCommandAndArguments(valid: Validity, cmd: string, args: seq<string>): (r: Outcome<ParseError>)
    ensures r.Pass? <==> Admissible(valid, cmd, args)
    ensures (cmd == "mkdir" || cmd == "rmdir") && r.Fail? ==>
              exists k :: 0 <= k < |args| && r.error == NotValidDirectory(args[k])
                && IdentifyPath(valid, args[k]) != Directory
                && forall j :: 0 <= j < k ==> IdentifyPath(valid, args[j]) == Directory
    ensures cmd == "cat" && r.Fail? && args != [] ==>
              exists k :: 0 <= k < |args| && r.error == NotValidFile(args[k])
                && IdentifyPath(valid, args[k]) !in {SingleFile, MultipleFiles}
                && forall j :: 0 <= j < k ==> IdentifyPath(valid, args[j]) in {SingleFile, MultipleFiles}
  {
    if (cmd == "help" || cmd == "ls" || cmd == "cd" || cmd == "cat") && |args| == 0 then Pass
    else if cmd == "pwd" || cmd == "date" then
      if |args| != 0 then Fail(NoArgumentsSupported(cmd)) else Pass
    else if cmd == "help" || cmd == "args" then
      if |args| != 1 then Fail(ArgumentCountNotSupported(cmd, |args|))
      else if args[0] !in SupportedCommands then Fail(NotSupportedCommand(args[0]))
      else Pass
    else if cmd == "ls" then
      if |args| > 1 then Fail(ArgumentCountNotSupported(cmd, |args|))
      else if IdentifyPath(valid, args[0]) == Invalid then Fail(NotValidPath(args[0]))
      else Pass
    else if cmd == "cd" then
      if |args| > 1 then Fail(ArgumentCountNotSupported(cmd, |args|))
      else if IdentifyPath(valid, args[0]) != Directory then Fail(NotValidDirectory(args[0]))
      else Pass
    else if cmd == "mv" || cmd == "cp" then
      if |args| != 2 then Fail(ArgumentCountNotSupported(cmd, |args|))
      else
        var t1, t2 := IdentifyPath(valid, args[0]), IdentifyPath(valid, args[1]);
        if t1 == Invalid then Fail(NotValidDirectory(args[0]))
        else if t2 == Invalid then Fail(NotValidDirectory(args[1]))
        else if t2 == MultipleFiles then Fail(NotValidDestination(args[1]))
        else if (t1 == Directory || t1 == MultipleFiles) && t2 != Directory then Fail(NotValidDestination(args[1]))
        else Pass
    else if cmd == "more" then CheckMore(valid, args)
    else if cmd == "mkdir" || cmd == "rmdir" then
      match FirstRefused(valid, args, t => t == Directory)
      case None => Pass
      case Some(k) => Fail(NotValidDirectory(args[k]))
    else if cmd == "cat" then
      match FirstRefused(valid, args, t => t == MultipleFiles || t == SingleFile)
      case None => Pass
      case Some(k) => Fail(NotValidFile(args[k]))
    else Fail(NotValidCommand(cmd))
  }

  /** The copy guard: an accepted cp or mv has a source and a destination,
      never copies onto a wildcard, and copies a directory or several files
      only into a directory. */
  lemma CopyDestinationGuard(valid: Validity, cmd: string, args: seq<string>)
    requires cmd == "cp" || cmd == "mv"
    requires CheckCommandAndArguments(valid, cmd, args).Pass?
    ensures |args| == 2
    ensures IdentifyPath(valid, args[0]) != Invalid
    ensures IdentifyPath(valid, args[1]) in {SingleFile, Directory}
    ensures IdentifyPath(valid, args[0]) in {Directory, MultipleFiles} ==> IdentifyPath(valid, args[1]) == Directory
  {
  }

  /** Only the twelve names of the table get through, and `rm`, although
      `exec` implements it, is always refused as not a valid command. */
  lemma AcceptedCommands(valid: Validity, cmd: string, args: seq<string>)
    ensures CheckCommandAndArguments(valid, cmd, args).Pass? ==>
              cmd in {"help", "args", "pwd", "date", "ls", "cd", "cp", "mv", "more", "mkdir", "rmdir", "cat"}
    ensures CheckCommandAndArguments(valid, "rm", args) == Fail(NotValidCommand("rm"))
  {
  }
}
