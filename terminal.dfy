/** The terminal: the filesystem its commands act on, the working directory
    `cd` records, the input lines `more` and `cat` read, and the lines they
    print. */
module TerminalShell {
  import opened Wrappers
  import opened HostPath
  import opened JavaStrings
  import opened FileSystem
  import opened TerminalFaults
  import opened FileCommands
  import opened TextCommands
  import opened MorePager

  /** The line interactive `cat` prints before it reads. */
  const CatPrompt := "Accepting input from user: (type '<stop>' to terminate)"

  /** The commands of `exec` that change the file system. */
  predicate ChangesFiles(cmd: string)
  {
    cmd == "cp" || cmd == "mv" || cmd == "rm" || cmd == "mkdir" || cmd == "rmdir"
  }

  /** The commands of `exec` that read the console or print to it. */
  predicate UsesConsole(cmd: string)
  {
    cmd == "cat" || cmd == "more" || cmd == "clear"
  }

  /** The fifteen names `exec` dispatches on. */
  predicate IsCommand(cmd: string)
  {
    ChangesFiles(cmd) || UsesConsole(cmd) ||
    cmd == "cd" || cmd == "pwd" || cmd == "help" || cmd == "args" || cmd == "date" || cmd == "ls" || cmd == "exit"
  }

  /** What `exec` returns for a command that completed with `outcome`. */
  function Reply(outcome: Outcome<Fault>, text: string): Result<Option<string>, Fault>
  {
    if outcome.Pass? then Success(Some(text)) else Failure(outcome.error)
  }

  /** What `exec` returns for a command that produced `r`. */
  function TextReply(r: Result<string, Fault>): Result<Option<string>, Fault>
  {
    match r
    case Failure(e) => Failure(e)
    case Success(s) => Success(Some(s))
  }

  class Terminal {
    var fs: FS
    var workingDir: string
    var input: seq<string>
    var output: seq<string>
    const valid: Validity
    /** The directory the process runs in, as names from the root: every
        path argument is taken from it. */
    const home: Path
    /** The entries of `commandsArgs` in the map's iteration order. */
    const commandsArgs: seq<(string, string)>

    ghost predicate Valid()
      reads this
    {
      WellFormed(fs) && IsHelpTable(commandsArgs)
    }

    constructor (valid: Validity, home: Path, fs: FS, workingDir: string, input: seq<string>, commandsArgs: seq<(string, string)>)
      requires WellFormed(fs) && IsHelpTable(commandsArgs)
      ensures Valid()
      ensures this.valid == valid && this.home == home && this.commandsArgs == commandsArgs
      ensures this.fs == fs && this.workingDir == workingDir && this.input == input && this.output == []
    {
      this.valid := valid;
      this.home := home;
      this.fs := fs;
      this.workingDir := workingDir;
      this.input := input;
      this.output := [];
      this.commandsArgs := commandsArgs;
    }

    /** `cp(Path, Path, String)`. */
    method CopyFile(source: Path, destination: Path, cmd: string, name: string) returns (r: Outcome<Fault>)
      requires WellFormed(fs)
      modifies this`fs
      ensures WellFormed(fs)
      ensures Effect(fs, r) == CopyOne(old(fs), source, destination, cmd, name)
    {
      var target := destination;
      if IsDir(fs, destination) && name != "" {
        target := Descend(destination, [name]);
      }
      if IsDir(fs, source) {
        return Pass;
      } else if IsFile(fs, source) {
        var copied := CopyTo(fs, target, fs[source].lines);
        if copied.None? {
          return Fail(CannotCopy(cmd, name));
        }
        CopyToPreserves(fs, target, fs[source].lines);
        fs := copied.value;
        return Pass;
      } else {
        return Fail(NoSuchSource(cmd, name));
      }
    }

    /** `cp(String[], String)`. */
    method Cp(args: seq<string>, cmd: string) returns (r: Outcome<Fault>)
      requires WellFormed(fs)
      modifies this`fs
      ensures WellFormed(fs)
      ensures Effect(fs, r) == CopyEffect(valid, home, old(fs), args, cmd)
    {
      if |args| == 0 {
        return Fail(IndexOutOfBounds);
      }
      var last := args[|args| - 1];
      if !valid(last) {
        return Fail(InvalidPath(last));
      }
      var destination := Resolve(home, last);
      if |args| > 2 && !IsDir(fs, destination) {
        return Fail(TargetNotDirectory(cmd, FileName(last)));
      }
      var sources := args[..|args| - 1];
      ghost var step := CopyInto(valid, home, destination, cmd);
      var i := 0;
      while i < |sources|
        invariant 0 <= i <= |sources|
        invariant WellFormed(fs)
        invariant ForEach(step, fs, sources[i..]) == CopyEffect(valid, home, old(fs), args, cmd)
      {
        assert sources[i..][1..] == sources[i + 1..];
        var source := sources[i];
        if !valid(source) {
          return Fail(InvalidPath(source));
        }
        r := CopyFile(Resolve(home, source), destination, cmd, FileName(source));
        if r.Fail? {
          return;
        }
        i := i + 1;
      }
      assert sources[i..] == [];
      return Pass;
    }

    /** `mv`: the failure of the removal is dropped. */
    method Mv(args: seq<string>) returns (r: Outcome<Fault>)
      requires WellFormed(fs)
      modifies this`fs
      ensures WellFormed(fs)
      ensures Effect(fs, r) == MoveEffect(valid, home, old(fs), args)
    {
      r := Cp(args, "mv");
      if r.Fail? {
        return;
      }
      var ignored := Rm(args[..|args| - 1]);
      r := Pass;
    }

    method Rm(args: seq<string>) returns (r: Outcome<Fault>)
      requires WellFormed(fs)
      modifies this`fs
      ensures WellFormed(fs)
      ensures Effect(fs, r) == RmEffect(valid, home, old(fs), args)
    {
      var i := 0;
      while i < |args|
        invariant 0 <= i <= |args|
        invariant WellFormed(fs)
        invariant ForEach(RemoveFile(valid, home), fs, args[i..]) == RmEffect(valid, home, old(fs), args)
      {
        assert args[i..][1..] == args[i + 1..];
        var p := Resolve(home, args[i]);
        if IsFile(fs, p) {
          if valid(args[i]) && p != [] && IsDir(fs, Parent(p)) {
            DeletePreserves(fs, p);
            fs := Delete(fs, p);
          } else {
            return Fail(RmIOError(FileName(args[i])));
          }
        } else if IsDir(fs, p) {
          return Fail(RmIsDirectory(FileName(args[i])));
        } else {
          return Fail(RmNoSuch(FileName(args[i])));
        }
        i := i + 1;
      }
      assert args[i..] == [];
      return Pass;
    }

    method Rmdir(args: seq<string>) returns (r: Outcome<Fault>)
      requires WellFormed(fs)
      modifies this`fs
      ensures WellFormed(fs)
      ensures Effect(fs, r) == RmdirEffect(valid, home, old(fs), args)
    {
      var i := 0;
      while i < |args|
        invariant 0 <= i <= |args|
        invariant WellFormed(fs)
        invariant ForEach(RemoveDir(valid, home), fs, args[i..]) == RmdirEffect(valid, home, old(fs), args)
      {
        assert args[i..][1..] == args[i + 1..];
        var arg := args[i];
        var p := Resolve(home, arg);
        if IsFile(fs, p) {
          return Fail(RmdirNotDirectory(FileName(arg)));
        } else if IsDir(fs, p) {
          if !valid(arg) {
            return Fail(InvalidPath(arg));
          } else if fs[p].children != [] {
            return Fail(RmdirNotEmpty(FileName(arg)));
          } else if p == [] || !IsDir(fs, Parent(p)) {
            return Fail(RmdirIOError(FileName(arg)));
          }
          DeletePreserves(fs, p);
          fs := Delete(fs, p);
        } else {
          return Fail(RmdirNoSuch(FileName(arg)));
        }
        i := i + 1;
      }
      assert args[i..] == [];
      return Pass;
    }

    method Mkdir(args: seq<string>) returns (r: Outcome<Fault>)
      requires WellFormed(fs)
      modifies this`fs
      ensures WellFormed(fs)
      ensures Effect(fs, r) == MkdirEffect(home, old(fs), args)
    {
      var i := 0;
      while i < |args|
        invariant 0 <= i <= |args|
        invariant WellFormed(fs)
        invariant ForEach(MakeDir(home), fs, args[i..]) == MkdirEffect(home, old(fs), args)
      {
        assert args[i..][1..] == args[i + 1..];
        var p := Resolve(home, args[i]);
        if p in fs {
          return Fail(MkdirExists(FileName(args[i])));
        }
        var made := Mkdirs(fs, p);
        if made.None? {
          return Fail(MkdirIOError(FileName(args[i])));
        }
        MkdirsPreserves(fs, p);
        fs := made.value;
        i := i + 1;
      }
      assert args[i..] == [];
      return Pass;
    }

    /** `ls(args)`. */
    method Ls(args: seq<string>) returns (r: Result<string, Fault>)
      ensures r == LsText(home, fs, args)
    {
      var names: seq<string> := [];
      var multi := |args| > 1;
      var i := 0;
      PrefixedNothing(LsEntries(home, fs, args, multi));
      while i < |args|
        invariant 0 <= i <= |args|
        invariant LsEntries(home, fs, args, multi) == Prefixed(names, LsEntries(home, fs, args[i..], multi))
      {
        var here := ListArgument(args[i], multi);
        LsEntriesStep(home, fs, args, i, multi);
        if here.Failure? {
          assert LsEntries(home, fs, args, multi) == Failure(here.error);
          return Failure(here.error);
        }
        PrefixedTwice(names, here.value, LsEntries(home, fs, args[i + 1..], multi));
        names := names + here.value;
        i := i + 1;
      }
      assert args[i..] == [];
      assert names + [] == names;
      return Success(JoinWith(names, "\n"));
    }

    /** What `ls` prints for one argument. */
    method ListArgument(arg: string, multi: bool) returns (r: Result<seq<string>, Fault>)
      ensures r == ArgEntries(home, fs, arg, multi)
    {
      var p := Resolve(home, arg);
      if IsFile(fs, p) {
        return Success([FileName(arg)]);
      } else if IsDir(fs, p) {
        var names := if multi then [": " + FileName(arg)] else [];
        var entries := ListDirectory(p, multi);
        return Success(names + entries);
      } else {
        return Failure(LsNoSuch(FileName(arg)));
      }
    }

    /** The entries `ls` prints for the directory `p`. */
    method ListDirectory(p: Path, multi: bool) returns (entries: seq<string>)
      requires IsDir(fs, p)
      ensures entries == ChildEntries(fs, p, fs[p].children, multi)
    {
      entries := [];
      var sub := fs[p].children;
      for j := 0 to |sub|
        invariant |entries| == j
        invariant forall k :: 0 <= k < j ==> entries[k] == ChildEntry(fs, p, sub[k], multi)
      {
        entries := entries + [(if multi then "     " else "") + (if IsDir(fs, p + [sub[j]]) then ": " else " ") + sub[j]];
      }
    }

    /** `cat(String[])` with arguments: the lines of every file. */
    method CatFiles(args: seq<string>) returns (r: Result<string, Fault>)
      ensures r == CatText(valid, home, fs, args)
    {
      var sb := "";
      var i := 0;
      PrefixedNothing(CatText(valid, home, fs, args));
      while i < |args|
        invariant 0 <= i <= |args|
        invariant CatText(valid, home, fs, args) == Prefixed(sb, CatText(valid, home, fs, args[i..]))
      {
        var text := CatFile(args[i]);
        CatTextStep(valid, home, fs, args, i);
        if text.Failure? {
          assert CatText(valid, home, fs, args) == Failure(text.error);
          return Failure(text.error);
        }
        PrefixedTwice(sb, text.value, CatText(valid, home, fs, args[i + 1..]));
        sb := sb + text.value;
        i := i + 1;
      }
      assert args[i..] == [];
      assert sb + "" == sb;
      return Success(sb);
    }

    /** What `cat` prints for one argument: each line of the file followed by
        "\n". */
    method CatFile(arg: string) returns (r: Result<string, Fault>)
      ensures r == CatArg(valid, home, fs, arg)
    {
      var p := Resolve(home, arg);
      if IsDir(fs, p) {
        return Failure(CatIsDirectory(FileName(arg)));
      } else if !IsFile(fs, p) {
        return Failure(CatNoSuch(FileName(arg)));
      } else if !valid(arg) {
        return Failure(InvalidPath(arg));
      }
      var sb := "";
      var data := fs[p].lines;
      for j := 0 to |data|
        invariant sb == Unlines(data[..j])
      {
        sb := sb + data[j] + "\n";
        UnlinesAppend(data[..j], [data[j]]);
        assert data[..j + 1] == data[..j] + [data[j]];
      }
      assert data[..|data|] == data;
      return Success(sb);
    }

    /** `cat()`: the lines typed before "<stop>". */
    method CatInteractive() returns (r: Result<string, Fault>)
      modifies this`input, this`output
      ensures output == old(output) + [CatPrompt]
      ensures CatInput(old(input)).Success? ==>
                r == Success(CatInput(old(input)).value.0) && input == old(input)[CatInput(old(input)).value.1..]
      ensures CatInput(old(input)).Failure? ==> r == Failure(NoSuchElement) && input == []
    {
      output := output + [CatPrompt];
      var sb := "";
      if CatInput(input).Success? {
        assert "" + CatInput(input).value.0 == CatInput(input).value.0;
      }
      while true
        invariant output == old(output) + [CatPrompt]
        invariant |input| <= |old(input)| && input == old(input)[|old(input)| - |input|..]
        invariant match CatInput(input)
                  case Failure(e) => CatInput(old(input)) == Failure(e)
                  case Success(rest) => CatInput(old(input)) == Success((sb + rest.0, |old(input)| - |input| + rest.1))
        decreases |input|
      {
        if input == [] {
          return Failure(NoSuchElement);
        }
        var line := input[0];
        input := input[1..];
        if line == "<stop>" {
          assert sb + "" == sb;
          return Success(sb);
        }
        match CatInput(input)
        case Failure(e) =>
        case Success(rest) =>
          assert sb + (line + "\n" + rest.0) == (sb + line + "\n") + rest.0;
        sb := sb + line + "\n";
      }
    }

    /** `moreText(data)`. */
    method MoreText(data: seq<string>) returns (r: Outcome<Fault>)
      modifies this`input, this`output
      ensures var run := Pager(data, 0, PageSize, old(input));
              output == old(output) + run.printed && input == old(input)[run.consumed..] && r == run.outcome
    {
      var lastLine: nat, display: nat := 0, PageSize;
      ghost var run := Pager(data, 0, PageSize, input);
      ghost var consumed: nat := 0;
      while true
        invariant lastLine <= |data|
        invariant consumed <= |old(input)| && input == old(input)[consumed..]
        invariant var rest := Pager(data, lastLine, display, input);
                  && old(output) + run.printed == output + rest.printed
                  && run.consumed == consumed + rest.consumed
                  && run.outcome == rest.outcome
        decreases |input|
      {
        ghost var printedBefore := output;
        ghost var before := Pager(data, lastLine, display, input);
        ghost var from := lastLine;
        if lastLine < |data| {
          var toLine := Min(display + lastLine, |data|);
          PrintLines(data, lastLine, toLine);
          lastLine := toLine;
        }
        ghost var shown := data[from..lastLine];
        assert output == printedBefore + shown;
        assert lastLine == WindowEnd(|data|, from, display);
        if input == [] {
          return Fail(NoSuchElement);
        }
        var c := input[0];
        input := input[1..];
        assert input == old(input)[consumed + 1..];
        consumed := consumed + 1;
        if c == " " {
          display := PageSize;
        } else if c == "b" {
          display := PageSize;
          lastLine := Max(0, lastLine - 2 * PageSize);
        } else if c == "" {
          display := 1;
        } else if c == "q" {
          return Pass;
        } else {
          return Fail(MoreUnsupportedInput);
        }
        assert before == Continue(shown, Pager(data, lastLine, display, input));
        ConcatAssoc(printedBefore, shown, Pager(data, lastLine, display, input).printed);
      }
    }

    /** Prints `data[from..to]`, a line at a time. */
    method PrintLines(data: seq<string>, from: nat, to: nat)
      requires from <= to <= |data|
      modifies this`output
      ensures output == old(output) + data[from..to]
    {
      for i := from to to
        invariant output == old(output) + data[from..i]
      {
        output := output + [data[i]];
      }
    }

    /** `more(arg)`: the pager over the lines of a regular file. */
    method More(arg: string) returns (r: Outcome<Fault>)
      modifies this`input, this`output
      ensures !valid(arg) ==> r == Fail(InvalidPath(arg)) && input == old(input) && output == old(output)
      ensures valid(arg) && !IsFile(fs, Resolve(home, arg)) ==>
                r == Fail(MoreCannotRead(FileName(arg))) && input == old(input) && output == old(output)
      ensures valid(arg) && IsFile(fs, Resolve(home, arg)) ==>
                var run := Pager(fs[Resolve(home, arg)].lines, 0, PageSize, old(input));
                output == old(output) + run.printed && input == old(input)[run.consumed..] && r == run.outcome
    {
      if !valid(arg) {
        return Fail(InvalidPath(arg));
      }
      var p := Resolve(home, arg);
      if !IsFile(fs, p) {
        return Fail(MoreCannotRead(FileName(arg)));
      }
      r := MoreText(fs[p].lines);
    }

    /** `cd(newDir)`: all or nothing. */
    method Cd(newDir: string) returns (r: Outcome<Fault>)
      modifies this`workingDir
      ensures r.Pass? <==> IsDir(fs, Resolve(home, newDir))
      ensures r.Pass? ==> workingDir == newDir
      ensures r.Fail? ==> r.error == CdNoSuch(FileName(newDir)) && workingDir == old(workingDir)
    {
      if IsDir(fs, Resolve(home, newDir)) {
        workingDir := newDir;
        return Pass;
      }
      return Fail(CdNoSuch(FileName(newDir)));
    }

    /** `help()`. */
    method Help() returns (s: string)
      requires commandsArgs != []
      ensures s == HelpText(commandsArgs)
    {
      var ret := "";
      var i := 0;
      while i < |commandsArgs|
        invariant 0 <= i <= |commandsArgs|
        invariant ret + HelpBlocks(commandsArgs[i..]) == HelpBlocks(commandsArgs)
      {
        assert commandsArgs[i..][1..] == commandsArgs[i + 1..];
        var entry := commandsArgs[i];
        var block := entry.0 + " -> " + entry.1 + "\n\n";
        ConcatAssoc(ret, block, HelpBlocks(commandsArgs[i + 1..]));
        ret := ret + block;
        i := i + 1;
      }
      assert commandsArgs[i..] == [];
      HelpBlocksTrimmed(commandsArgs);
      assert ret == HelpText(commandsArgs) + "\n\n";
      s := ret[..|ret| - 2];
    }

    /** `arg()`. */
    method Arg() returns (s: string)
      requires IsHelpTable(commandsArgs)
      ensures s == ArgSummary(commandsArgs)
    {
      var help := Help();
      var data := SplitLineBreaks(help);
      ArgsFromHelp(commandsArgs);
      s := EveryOtherLine(data);
    }

    /** The loop of `arg()`: the pieces at even positions, each followed by
        "\n". */
    static method EveryOtherLine(data: seq<string>) returns (s: string)
      ensures s == EvenPieces(data)
    {
      var ret := "";
      var i := 0;
      assert data[0..] == data;
      while i < |data|
        invariant 0 <= i <= |data| + 1
        invariant i <= |data| ==> ret + EvenPieces(data[i..]) == EvenPieces(data)
        invariant i > |data| ==> ret == EvenPieces(data)
      {
        if i + 2 <= |data| {
          EvenPiecesStep(data, i);
          ConcatAssoc(ret, data[i] + "\n", EvenPieces(data[i + 2..]));
        } else {
          assert EvenPieces(data[i..]) == data[i] + "\n";
        }
        ret := ret + data[i] + "\n";
        i := i + 2;
      }
      if i == |data| {
        assert data[i..] == [];
      }
      s := ret;
    }

    /** `exec(cmd, args)`; `piped` is the text a pipe hands to `more` (the
        null first argument), `now` the formatted clock. */
    method Exec(cmd: string, args: seq<string>, piped: Option<string>, now: string) returns (r: Result<Option<string>, Fault>)
      requires Valid()
      modifies this
      ensures Valid()
      ensures !ChangesFiles(cmd) ==> fs == old(fs)
      ensures cmd != "cd" ==> workingDir == old(workingDir)
      ensures !UsesConsole(cmd) ==> input == old(input) && output == old(output)
      ensures cmd == "cp" ==> var e := CopyEffect(valid, home, old(fs), args, "cp"); fs == e.fs && r == Reply(e.outcome, "")
      ensures cmd == "mv" ==> var e := MoveEffect(valid, home, old(fs), args); fs == e.fs && r == Reply(e.outcome, "")
      ensures cmd == "rm" ==> var e := RmEffect(valid, home, old(fs), args); fs == e.fs && r == Reply(e.outcome, "")
      ensures cmd == "rmdir" ==> var e := RmdirEffect(valid, home, old(fs), args); fs == e.fs && r == Reply(e.outcome, "")
      ensures cmd == "mkdir" ==> var e := MkdirEffect(home, old(fs), args); fs == e.fs && r == Reply(e.outcome, "")
      ensures cmd == "cat" && |args| == 0 ==>
                output == old(output) + [CatPrompt] &&
                match CatInput(old(input))
                case Success((line, n)) => r == Success(Some(line)) && input == old(input)[n..]
                case Failure(_) => r == Failure(NoSuchElement) && input == []
      ensures cmd == "cat" && |args| > 0 ==> r == TextReply(CatText(valid, home, old(fs), args)) && input == old(input) && output == old(output)
      ensures cmd == "more" && piped.Some? ==>
                var run := Pager(SplitNewline(piped.value), 0, PageSize, old(input));
                output == old(output) + run.printed && input == old(input)[run.consumed..] && r == Reply(run.outcome, "")
      ensures cmd == "more" && piped.None? && |args| == 0 ==> r == Failure(IndexOutOfBounds) && input == old(input) && output == old(output)
      ensures cmd == "more" && piped.None? && |args| > 0 ==>
                var p := Resolve(home, args[0]);
                if !valid(args[0]) then r == Failure(InvalidPath(args[0])) && input == old(input) && output == old(output)
                else if !IsFile(old(fs), p) then r == Failure(MoreCannotRead(FileName(args[0]))) && input == old(input) && output == old(output)
                else
                  var run := Pager(old(fs)[p].lines, 0, PageSize, old(input));
                  output == old(output) + run.printed && input == old(input)[run.consumed..] && r == Reply(run.outcome, "")
      ensures cmd == "clear" ==> r == Success(Some("")) && output == old(output) + seq(100, _ => "") && input == old(input)
      ensures cmd == "cd" && |args| == 0 ==> r == Failure(IndexOutOfBounds) && workingDir == old(workingDir)
      ensures cmd == "cd" && |args| > 0 ==>
                if IsDir(old(fs), Resolve(home, args[0])) then r == Success(Some("")) && workingDir == args[0]
                else r == Failure(CdNoSuch(FileName(args[0]))) && workingDir == old(workingDir)
      ensures cmd == "pwd" ==> r == Success(Some(old(workingDir)))
      ensures cmd == "help" && |args| == 0 ==> r == Success(Some(HelpText(commandsArgs)))
      ensures cmd == "help" && |args| > 0 ==> r == Success(Lookup(commandsArgs, args[0]))
      ensures cmd == "args" && |args| == 0 ==> r == Success(Some(ArgSummary(commandsArgs)))
      ensures cmd == "args" && |args| > 0 ==> r == TextReply(ArgOf(commandsArgs, args[0]))
      ensures cmd == "date" ==> r == Success(Some(now))
      ensures cmd == "ls" ==> r == TextReply(LsText(home, old(fs), args))
      ensures cmd == "exit" ==> r == Failure(Halt)
      ensures !IsCommand(cmd) ==> r == Success(Some("Should never be here."))
    {
      if ChangesFiles(cmd) {
        r := ExecFileCommand(cmd, args);
      } else if UsesConsole(cmd) {
        r := ExecConsoleCommand(cmd, args, piped);
      } else {
        r := ExecQuery(cmd, args, now);
      }
    }

    /** The commands of `exec` that change the file system. */
    method ExecFileCommand(cmd: string, args: seq<string>) returns (r: Result<Option<string>, Fault>)
      requires WellFormed(fs) && ChangesFiles(cmd)
      modifies this`fs
      ensures WellFormed(fs)
      ensures cmd == "cp" ==> var e := CopyEffect(valid, home, old(fs), args, "cp"); fs == e.fs && r == Reply(e.outcome, "")
      ensures cmd == "mv" ==> var e := MoveEffect(valid, home, old(fs), args); fs == e.fs && r == Reply(e.outcome, "")
      ensures cmd == "rm" ==> var e := RmEffect(valid, home, old(fs), args); fs == e.fs && r == Reply(e.outcome, "")
      ensures cmd == "rmdir" ==> var e := RmdirEffect(valid, home, old(fs), args); fs == e.fs && r == Reply(e.outcome, "")
      ensures cmd == "mkdir" ==> var e := MkdirEffect(home, old(fs), args); fs == e.fs && r == Reply(e.outcome, "")
    {
      var o;
      if cmd == "cp" {
        o := Cp(args, "cp");
      } else if cmd == "mv" {
        o := Mv(args);
      } else if cmd == "rm" {
        o := Rm(args);
      } else if cmd == "mkdir" {
        o := Mkdir(args);
      } else {
        o := Rmdir(args);
      }
      r := Reply(o, "");
    }

    /** The commands of `exec` that read the console or print to it. */
    method ExecConsoleCommand(cmd: string, args: seq<string>, piped: Option<string>) returns (r: Result<Option<string>, Fault>)
      requires UsesConsole(cmd)
      modifies this`input, this`output
      ensures cmd == "cat" && |args| == 0 ==>
                output == old(output) + [CatPrompt] &&
                match CatInput(old(input))
                case Success((line, n)) => r == Success(Some(line)) && input == old(input)[n..]
                case Failure(_) => r == Failure(NoSuchElement) && input == []
      ensures cmd == "cat" && |args| > 0 ==> r == TextReply(CatText(valid, home, fs, args)) && input == old(input) && output == old(output)
      ensures cmd == "more" && piped.Some? ==>
                var run := Pager(SplitNewline(piped.value), 0, PageSize, old(input));
                output == old(output) + run.printed && input == old(input)[run.consumed..] && r == Reply(run.outcome, "")
      ensures cmd == "more" && piped.None? && |args| == 0 ==> r == Failure(IndexOutOfBounds) && input == old(input) && output == old(output)
      ensures cmd == "more" && piped.None? && |args| > 0 ==>
                var p := Resolve(home, args[0]);
                if !valid(args[0]) then r == Failure(InvalidPath(args[0])) && input == old(input) && output == old(output)
                else if !IsFile(fs, p) then r == Failure(MoreCannotRead(FileName(args[0]))) && input == old(input) && output == old(output)
                else
                  var run := Pager(fs[p].lines, 0, PageSize, old(input));
                  output == old(output) + run.printed && input == old(input)[run.consumed..] && r == Reply(run.outcome, "")
      ensures cmd == "clear" ==> r == Success(Some("")) && output == old(output) + seq(100, _ => "") && input == old(input)
    {
      if cmd == "cat" {
        var t;
        if |args| == 0 {
          t := CatInteractive();
        } else {
          t := CatFiles(args);
        }
        r := TextReply(t);
      } else if cmd == "more" {
        var o;
        if piped.Some? {
          o := MoreText(SplitNewline(piped.value));
        } else if |args| == 0 {
          return Failure(IndexOutOfBounds);
        } else {
          o := More(args[0]);
        }
        r := Reply(o, "");
      } else {
        for i := 0 to 100
          invariant output == old(output) + seq(i, _ => "")
          invariant input == old(input)
        {
          output := output + [""];
        }
        r := Success(Some(""));
      }
    }

    /** The commands of `exec` that only answer: `cd`, `pwd`, `help`, `args`,
        `date`, `ls`, `exit`, and the fallback for a name the parser should
        have refused. */
    method ExecQuery(cmd: string, args: seq<string>, now: string) returns (r: Result<Option<string>, Fault>)
      requires IsHelpTable(commandsArgs)
      modifies this`workingDir
      ensures cmd != "cd" ==> workingDir == old(workingDir)
      ensures cmd == "cd" && |args| == 0 ==> r == Failure(IndexOutOfBounds) && workingDir == old(workingDir)
      ensures cmd == "cd" && |args| > 0 ==>
                if IsDir(fs, Resolve(home, args[0])) then r == Success(Some("")) && workingDir == args[0]
                else r == Failure(CdNoSuch(FileName(args[0]))) && workingDir == old(workingDir)
      ensures cmd == "pwd" ==> r == Success(Some(old(workingDir)))
      ensures cmd == "help" && |args| == 0 ==> r == Success(Some(HelpText(commandsArgs)))
      ensures cmd == "help" && |args| > 0 ==> r == Success(Lookup(commandsArgs, args[0]))
      ensures cmd == "args" && |args| == 0 ==> r == Success(Some(ArgSummary(commandsArgs)))
      ensures cmd == "args" && |args| > 0 ==> r == TextReply(ArgOf(commandsArgs, args[0]))
      ensures cmd == "date" ==> r == Success(Some(now))
      ensures cmd == "ls" ==> r == TextReply(LsText(home, fs, args))
      ensures cmd == "exit" ==> r == Failure(Halt)
      ensures !IsCommand(cmd) ==> r == Success(Some("Should never be here."))
    {
      if cmd == "cd" {
        if |args| == 0 {
          return Failure(IndexOutOfBounds);
        }
        var o := Cd(args[0]);
        r := Reply(o, "");
      } else if cmd == "pwd" {
        r := Success(Some(workingDir));
      } else if cmd == "help" {
        if |args| == 0 {
          var t := Help();
          r := Success(Some(t));
        } else {
          r := Success(Lookup(commandsArgs, args[0]));
        }
      } else if cmd == "args" {
        if |args| == 0 {
          var t := Arg();
          r := Success(Some(t));
        } else {
          r := TextReply(ArgOf(commandsArgs, args[0]));
        }
      } else if cmd == "date" {
        r := Success(Some(now));
      } else if cmd == "ls" {
        var t := Ls(args);
        r := TextReply(t);
      } else if cmd == "exit" {
        r := Failure(Halt);
      } else {
        r := Success(Some("Should never be here."));
      }
    }
  }
}
