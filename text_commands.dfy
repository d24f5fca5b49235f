/** The text `ls`, `cat`, `help` and `args` return. */
module TextCommands {
  import opened Wrappers
  import opened HostPath
  import opened JavaStrings
  import opened FileSystem
  import opened TerminalFaults

  /** `prefix` in front of a successful result; a failure stays as it is. */
  function Prefixed<T>(prefix: seq<T>, r: Result<seq<T>, Fault>): Result<seq<T>, Fault>
  {
    match r
    case Failure(e) => Failure(e)
    case Success(rest) => Success(prefix + rest)
  }

  lemma PrefixedNothing<T>(r: Result<seq<T>, Fault>)
    ensures Prefixed([], r) == r
  {
    if r.Success? {
      assert [] + r.value == r.value;
    }
  }

  lemma PrefixedTwice<T>(a: seq<T>, b: seq<T>, r: Result<seq<T>, Fault>)
    ensures Prefixed(a, Prefixed(b, r)) == Prefixed(a + b, r)
  {
    if r.Success? {
      assert a + (b + r.value) == (a + b) + r.value;
    }
  }

  // ----- ls -----

  /** The line `ls` prints for one entry of a listed directory: indented when
      several arguments are listed, ": " before a directory, " " before a
      file. */
  function ChildEntry(fs: FS, dir: Path, child: string, multi: bool): string
  {
    (if multi then "     " else "") + (if IsDir(fs, dir + [child]) then ": " else " ") + child
  }

  function ChildEntries(fs: FS, dir: Path, children: seq<string>, multi: bool): (es: seq<string>)
    ensures |es| == |children|
    ensures forall k :: 0 <= k < |es| ==> es[k] == ChildEntry(fs, dir, children[k], multi)
  {
    if children == [] then [] else [ChildEntry(fs, dir, children[0], multi)] + ChildEntries(fs, dir, children[1..], multi)
  }

  /** The lines one argument of `ls` contributes. */
  function ArgEntries(home: Path, fs: FS, arg: string, multi: bool): Result<seq<string>, Fault>
  {
    var p := Resolve(home, arg);
    if IsFile(fs, p) then Success([FileName(arg)])
    else if IsDir(fs, p) then
      Success((if multi then [": " + FileName(arg)] else []) + ChildEntries(fs, p, fs[p].children, multi))
    else Failure(LsNoSuch(FileName(arg)))
  }

  function LsEntries(home: Path, fs: FS, args: seq<string>, multi: bool): Result<seq<string>, Fault>
    decreases |args|
  {
    if args == [] then Success([])
    else match ArgEntries(home, fs, args[0], multi)
      case Failure(e) => Failure(e)
      case Success(here) => Prefixed(here, LsEntries(home, fs, args[1..], multi))
  }

  lemma LsEntriesStep(home: Path, fs: FS, args: seq<string>, i: nat, multi: bool)
    requires i < |args|
    ensures LsEntries(home, fs, args[i..], multi)
         == match ArgEntries(home, fs, args[i], multi)
            case Failure(e) => Failure(e)
            case Success(here) => Prefixed(here, LsEntries(home, fs, args[i + 1..], multi))
  {
    assert args[i..][1..] == args[i + 1..];
  }

  /** `ls(args)`: the entries of every argument, joined by "\n". */
  function LsText(home: Path, fs: FS, args: seq<string>): Result<string, Fault>
  {
    match LsEntries(home, fs, args, |args| > 1)
    case Failure(e) => Failure(e)
    case Success(es) => Success(JoinWith(es, "\n"))
  }

  /** `ls` of a single directory is its entries joined by "\n". */
  lemma LsSingleDirectory(home: Path, fs: FS, arg: string)
    requires IsDir(fs, Resolve(home, arg))
    ensures var p := Resolve(home, arg);
            LsText(home, fs, [arg]) == Success(JoinWith(ChildEntries(fs, p, fs[p].children, false), "\n"))
  {
    var p := Resolve(home, arg);
    var es := ChildEntries(fs, p, fs[p].children, false);
    assert [arg][1..] == [];
    assert ArgEntries(home, fs, arg, false) == Success(es) by {
      assert [] + es == es;
    }
    assert LsEntries(home, fs, [arg], false) == Success(es + []);
    assert es + [] == es;
  }

  /** `ls .` lists the directory the command runs in. */
  lemma LsDotListsHome(home: Path, fs: FS)
    requires IsDir(fs, home)
    ensures LsText(home, fs, ["."]) == Success(JoinWith(ChildEntries(fs, home, fs[home].children, false), "\n"))
  {
    ResolveDots(home);
    LsSingleDirectory(home, fs, ".");
  }

  lemma NoNewlineAppend(a: string, b: string)
    requires '\n' !in a && '\n' !in b
    ensures '\n' !in a + b
  {
  }

  /** Splitting the output of `ls dir` at its newlines gives one line per
      entry of `dir`, in listing order, marked ": " for a directory and " "
      for a file. */
  lemma LsListsDirectory(home: Path, fs: FS, arg: string)
    requires IsDir(fs, Resolve(home, arg))
    requires var ch := fs[Resolve(home, arg)].children;
             ch != [] && forall k :: 0 <= k < |ch| ==> '\n' !in ch[k]
    ensures LsText(home, fs, [arg]).Success?
    ensures var p := Resolve(home, arg);
            var ch := fs[p].children;
            var lines := SplitNewline(LsText(home, fs, [arg]).value);
            |lines| == |ch| &&
            forall k :: 0 <= k < |ch| ==> lines[k] == (if IsDir(fs, p + [ch[k]]) then ": " else " ") + ch[k]
  {
    var p := Resolve(home, arg);
    var ch := fs[p].children;
    var es := ChildEntries(fs, p, ch, false);
    LsSingleDirectory(home, fs, arg);
    assert forall k :: 0 <= k < |es| ==> es[k] == ChildEntry(fs, p, ch[k], false);
    forall k | 0 <= k < |es|
      ensures '\n' !in es[k] && es[k] != "" && es[k] == (if IsDir(fs, p + [ch[k]]) then ": " else " ") + ch[k]
    {
      var marker := if IsDir(fs, p + [ch[k]]) then ": " else " ";
      assert es[k] == "" + marker + ch[k];
      assert "" + marker == marker;
      NoNewlineAppend(marker, ch[k]);
    }
    assert SplitNewline(JoinWith(es, "\n")) == es by {
      SplitJoinNewline(es);
    }
  }

  /** Joining lines without newlines, the last one non-empty, and splitting
      the result again gives the lines back. */
  lemma SplitJoinNewline(parts: seq<string>)
    requires parts != [] && parts[|parts| - 1] != ""
    requires forall k :: 0 <= k < |parts| ==> '\n' !in parts[k]
    ensures SplitNewline(JoinWith(parts, "\n")) == parts
  {
    NewlinePiecesOfJoin(parts);
  }

  lemma {:induction false} NewlinePiecesOfJoin(parts: seq<string>)
    requires parts != []
    requires forall k :: 0 <= k < |parts| ==> '\n' !in parts[k]
    ensures NewlinePieces(JoinWith(parts, "\n")) == parts
    decreases |parts|
  {
    if |parts| == 1 {
      NewlinePiecesOfLine(parts[0]);
    } else {
      NewlinePiecesOfJoin(parts[1..]);
      NewlinePiecesAfterLine(parts[0], JoinWith(parts[1..], "\n"));
    }
  }

  lemma {:induction false} NewlinePiecesOfLine(x: string)
    requires '\n' !in x
    ensures NewlinePieces(x) == [x]
    decreases |x|
  {
    if x != [] {
      assert x[1..] == x[1..] && forall c :: c in x[1..] ==> c in x;
      NewlinePiecesOfLine(x[1..]);
      assert x == [x[0]] + x[1..];
    }
  }

  lemma {:induction false} NewlinePiecesAfterLine(x: string, rest: string)
    requires '\n' !in x
    ensures NewlinePieces(x + "\n" + rest) == [x] + NewlinePieces(rest)
    decreases |x|
  {
    if x == [] {
      assert x + "\n" + rest == "\n" + rest;
      assert ("\n" + rest)[1..] == rest;
    } else {
      var s := x + "\n" + rest;
      assert s[0] == x[0];
      assert s[1..] == x[1..] + "\n" + rest;
      assert forall c :: c in x[1..] ==> c in x;
      NewlinePiecesAfterLine(x[1..], rest);
      assert x == [x[0]] + x[1..];
    }
  }

  // ----- cat -----

  /** Each line followed by "\n", as `cat` appends them. */
  function Unlines(lines: seq<string>): string
  {
    if lines == [] then "" else lines[0] + "\n" + Unlines(lines[1..])
  }

  lemma {:induction false} UnlinesAppend(a: seq<string>, b: seq<string>)
    ensures Unlines(a + b) == Unlines(a) + Unlines(b)
    decreases |a|
  {
    if a == [] {
      assert a + b == b;
    } else {
      assert (a + b)[0] == a[0] && (a + b)[1..] == a[1..] + b;
      UnlinesAppend(a[1..], b);
    }
  }

  /** What `cat` prints for one argument: a directory, a missing file and a
      path the host refuses are errors. */
  function CatArg(valid: Validity, home: Path, fs: FS, arg: string): (r: Result<string, Fault>)
    ensures r.Success? <==> IsFile(fs, Resolve(home, arg)) && valid(arg)
    ensures r.Success? ==> r.value == Unlines(fs[Resolve(home, arg)].lines)
  {
    var p := Resolve(home, arg);
    if IsDir(fs, p) then Failure(CatIsDirectory(FileName(arg)))
    else if !IsFile(fs, p) then Failure(CatNoSuch(FileName(arg)))
    else if !valid(arg) then Failure(InvalidPath(arg))
    else Success(Unlines(fs[p].lines))
  }

  /** `cat(args)` with at least one argument: every line of every file, in
      order; the first argument that fails is the error. */
  function CatText(valid: Validity, home: Path, fs: FS, args: seq<string>): Result<string, Fault>
    decreases |args|
  {
    if args == [] then Success("")
    else match CatArg(valid, home, fs, args[0])
      case Failure(e) => Failure(e)
      case Success(t) => Prefixed(t, CatText(valid, home, fs, args[1..]))
  }

  lemma CatTextStep(valid: Validity, home: Path, fs: FS, args: seq<string>, i: nat)
    requires i < |args|
    ensures CatText(valid, home, fs, args[i..])
         == match CatArg(valid, home, fs, args[i])
            case Failure(e) => Failure(e)
            case Success(t) => Prefixed(t, CatText(valid, home, fs, args[i + 1..]))
  {
    assert args[i..][1..] == args[i + 1..];
  }

  /** The lines of the regular files among `args`, in order. */
  function FileLines(home: Path, fs: FS, args: seq<string>): seq<string>
    decreases |args|
  {
    if args == [] then []
    else (if IsFile(fs, Resolve(home, args[0])) then fs[Resolve(home, args[0])].lines else []) + FileLines(home, fs, args[1..])
  }

  /** A successful `cat` is the lines of its files, each ended by "\n". */
  lemma {:induction false} CatIsFileLines(valid: Validity, home: Path, fs: FS, args: seq<string>)
    requires CatText(valid, home, fs, args).Success?
    ensures CatText(valid, home, fs, args).value == Unlines(FileLines(home, fs, args))
    decreases |args|
  {
    if args != [] {
      CatIsFileLines(valid, home, fs, args[1..]);
      UnlinesAppend(fs[Resolve(home, args[0])].lines, FileLines(home, fs, args[1..]));
    }
  }

  /** Splitting a successful `cat` at its newlines gives back every line of
      every file, in order, then the empty piece after the last "\n". */
  lemma CatReadsBack(valid: Validity, home: Path, fs: FS, args: seq<string>)
    requires CatText(valid, home, fs, args).Success?
    requires forall k :: 0 <= k < |FileLines(home, fs, args)| ==> '\n' !in FileLines(home, fs, args)[k]
    ensures NewlinePieces(CatText(valid, home, fs, args).value) == FileLines(home, fs, args) + [""]
  {
    CatIsFileLines(valid, home, fs, args);
    NewlinePiecesOfUnlines(FileLines(home, fs, args));
  }

  lemma {:induction false} NewlinePiecesOfUnlines(lines: seq<string>)
    requires forall k :: 0 <= k < |lines| ==> '\n' !in lines[k]
    ensures NewlinePieces(Unlines(lines)) == lines + [""]
    decreases |lines|
  {
    if lines != [] {
      NewlinePiecesOfUnlines(lines[1..]);
      NewlinePiecesAfterLine(lines[0], Unlines(lines[1..]));
      assert lines == [lines[0]] + lines[1..];
    }
  }

  /** Interactive `cat()`: the lines typed before "<stop>", each ended by
      "\n", and how many input lines it read. */
  function CatInput(input: seq<string>): (r: Result<(string, nat), Fault>)
    ensures r.Success? ==> 1 <= r.value.1 <= |input|
  {
    if input == [] then Failure(NoSuchElement)
    else if input[0] == "<stop>" then Success(("", 1))
    else match CatInput(input[1..])
      case Failure(e) => Failure(e)
      case Success(r) => Success((input[0] + "\n" + r.0, r.1 + 1))
  }

  /** Interactive `cat()` returns at the first "<stop>" line: the lines
      before it, each ended by "\n", having read up to and including it. */
  lemma {:induction false} CatInputUpToStop(input: seq<string>, k: nat)
    requires k < |input| && input[k] == "<stop>" && "<stop>" !in input[..k]
    ensures CatInput(input) == Success((Unlines(input[..k]), k + 1))
    decreases k
  {
    if k == 0 {
      assert input[..0] == [];
    } else {
      assert input[0] == input[..k][0];
      assert input[1..][..k - 1] == input[..k][1..];
      assert "<stop>" !in input[1..][..k - 1];
      CatInputUpToStop(input[1..], k - 1);
    }
  }

  /** Without a "<stop>" line interactive `cat()` reads every line and then
      fails as `Scanner.nextLine` does on exhausted input. */
  lemma {:induction false} CatInputWithoutStop(input: seq<string>)
    requires "<stop>" !in input
    ensures CatInput(input) == Failure(NoSuchElement)
    decreases |input|
  {
    if input != [] {
      assert input[0] in input;
      assert forall x :: x in input[1..] ==> x in input;
      CatInputWithoutStop(input[1..]);
    }
  }

  // ----- help and args -----

  /** One `key -> value` block of `help()`. */
  function Render(entry: (string, string)): string
  {
    entry.0 + " -> " + entry.1
  }

  function Rendered(entries: seq<(string, string)>): (rs: seq<string>)
    ensures |rs| == |entries|
  {
    if entries == [] then [] else [Render(entries[0])] + Rendered(entries[1..])
  }

  /** `help()`: every entry of the table, separated by a blank line. */
  function HelpText(entries: seq<(string, string)>): string
  {
    JoinWith(Rendered(entries), "\n\n")
  }

  /** What `help()` appends before it trims: every block followed by "\n\n". */
  function HelpBlocks(entries: seq<(string, string)>): string
  {
    if entries == [] then "" else Render(entries[0]) + "\n\n" + HelpBlocks(entries[1..])
  }

  /** Trimming the last two characters of the appended blocks leaves the
      blocks separated by blank lines. */
  lemma {:induction false} HelpBlocksTrimmed(entries: seq<(string, string)>)
    requires entries != []
    ensures HelpBlocks(entries) == HelpText(entries) + "\n\n"
    decreases |entries|
  {
    if |entries| > 1 {
      HelpBlocksTrimmed(entries[1..]);
      assert Rendered(entries)[1..] == Rendered(entries[1..]);
    }
  }

  /** `help(key)`: the value of `key`, `None` standing for Java's null. */
  function Lookup(entries: seq<(string, string)>, key: string): Option<string>
  {
    if entries == [] then None
    else if entries[0].0 == key then Some(entries[0].1)
    else Lookup(entries[1..], key)
  }

  /** Length of the first line of `s`. */
  function LineEnd(s: string): (n: nat)
    ensures n <= |s| && HasNoLineBreak(s[..n])
    ensures n < |s| ==> IsLineBreak(s[n])
  {
    if s == [] || IsLineBreak(s[0]) then 0
    else
      var n := 1 + LineEnd(s[1..]);
      assert forall k :: 0 < k < n ==> s[..n][k] == s[1..][..n - 1][k - 1];
      n
  }

  /** Every value of the table is an arguments line, "\n", and a description,
      both non-empty and free of line breaks. */
  predicate IsHelpValue(v: string) {
    var n := LineEnd(v);
    0 < n < |v| - 1 && v[n] == '\n' && HasNoLineBreak(Description(v))
  }

  /** What follows the first line break of a help value. */
  function Description(v: string): string
  {
    if LineEnd(v) < |v| then v[LineEnd(v) + 1..] else ""
  }

  /** The arguments line of a help value, which `args` prints. */
  function ArgumentsLine(v: string): string
  {
    v[..LineEnd(v)]
  }

  predicate IsHelpTable(entries: seq<(string, string)>) {
    && entries != []
    && (forall k :: 0 <= k < |entries| ==> HasNoLineBreak(entries[k].0) && IsHelpValue(entries[k].1))
    && (forall i, j :: 0 <= i < j < |entries| ==> entries[i].0 != entries[j].0)
  }

  /** Each entry's `key -> arguments line`, each followed by "\n". */
  function ArgSummary(entries: seq<(string, string)>): string
  {
    if entries == [] then ""
    else entries[0].0 + " -> " + ArgumentsLine(entries[0].1) + "\n" + ArgSummary(entries[1..])
  }

  /** What `arg()` appends: the pieces at even positions, each followed by
      "\n". */
  function EvenPieces(data: seq<string>): string
    decreases |data|
  {
    if data == [] then "" else data[0] + "\n" + (if |data| < 2 then "" else EvenPieces(data[2..]))
  }

  lemma EvenPiecesStep(data: seq<string>, i: nat)
    requires i + 2 <= |data|
    ensures EvenPieces(data[i..]) == data[i] + "\n" + EvenPieces(data[i + 2..])
  {
    assert data[i..][2..] == data[i + 2..];
  }

  /** `arg(key)`: the first line of `help(key)`. */
  function ArgOf(entries: seq<(string, string)>, key: string): Result<string, Fault>
  {
    match Lookup(entries, key)
    case None => Failure(NullPointer)
    case Some(v) =>
      var lines := SplitLineBreaks(v);
      if lines == [] then Failure(IndexOutOfBounds) else Success(lines[0])
  }

  /** The lines `help()` splits into: for each entry, `key -> arguments line`
      and then its description. */
  function HelpLines(entries: seq<(string, string)>): seq<string>
  {
    if entries == [] then []
    else
      var v := entries[0].1;
      [entries[0].0 + " -> " + ArgumentsLine(v), Description(v)] + HelpLines(entries[1..])
  }

  lemma HasNoLineBreakAppend(a: string, b: string)
    requires HasNoLineBreak(a) && HasNoLineBreak(b)
    ensures HasNoLineBreak(a + b)
  {
    assert forall k :: 0 <= k < |a + b| ==> (a + b)[k] == if k < |a| then a[k] else b[k - |a|];
  }

  /** A rendered entry is its first line, "\n", and its description. */
  lemma RenderShape(entry: (string, string))
    requires HasNoLineBreak(entry.0) && IsHelpValue(entry.1)
    ensures var v := entry.1;
            var first := entry.0 + " -> " + ArgumentsLine(v);
            HasNoLineBreak(first) && Render(entry) == first + "\n" + Description(v) &&
            first != [] && !IsLineBreak(first[0])
  {
    var v := entry.1;
    var n := LineEnd(v);
    assert v == v[..n] + "\n" + v[n + 1..];
    assert HasNoLineBreak(" -> ");
    HasNoLineBreakAppend(entry.0, " -> ");
    HasNoLineBreakAppend(entry.0 + " -> ", v[..n]);
    var first := entry.0 + " -> " + ArgumentsLine(v);
    assert first[0] == (if entry.0 == [] then ' ' else entry.0[0]);
  }

  lemma HelpTextCons(entries: seq<(string, string)>)
    requires entries != []
    ensures |entries| == 1 ==> HelpText(entries) == Render(entries[0])
    ensures |entries| > 1 ==> HelpText(entries) == Render(entries[0]) + "\n\n" + HelpText(entries[1..])
  {
    assert Rendered(entries)[0] == Render(entries[0]);
    assert Rendered(entries)[1..] == Rendered(entries[1..]);
  }

  /** One entry's two lines, then a blank line, then the rest. */
  lemma EntryPieces(first: string, second: string, rest: string)
    requires HasNoLineBreak(first) && HasNoLineBreak(second) && second != []
    requires rest == [] || !IsLineBreak(rest[0])
    ensures BreakPieces(first + "\n" + second + "\n\n" + rest) == [first, second] + BreakPieces(rest)
  {
    var tail := second + "\n\n" + rest;
    assert first + "\n" + second + "\n\n" + rest == first + "\n" + tail by {
      ConcatAssoc(first + "\n", second, "\n\n");
      ConcatAssoc(first + "\n", second + "\n\n", rest);
    }
    assert BreakPieces(first + "\n" + tail) == [first] + BreakPieces(tail) by {
      assert tail[0] == second[0];
      BreakLiterals();
      BreakPiecesAfterLine(first, "\n", tail);
    }
    assert BreakPieces(tail) == [second] + BreakPieces(rest) by {
      BreakLiterals();
      BreakPiecesAfterLine(second, "\n\n", rest);
    }
    ConcatAssoc([first], [second], BreakPieces(rest));
  }

  lemma BreakLiterals()
    ensures forall k :: 0 <= k < |"\n"| ==> IsLineBreak("\n"[k])
    ensures forall k :: 0 <= k < |"\n\n"| ==> IsLineBreak("\n\n"[k])
  {
  }

  /** Splitting `help()` at its runs of line breaks gives, entry by entry, the
      `key -> arguments line` and the description. */
  lemma {:induction false} HelpTextLines(entries: seq<(string, string)>)
    requires entries != []
    requires forall k :: 0 <= k < |entries| ==> HasNoLineBreak(entries[k].0) && IsHelpValue(entries[k].1)
    ensures BreakPieces(HelpText(entries)) == HelpLines(entries)
    ensures HelpText(entries) != [] && !IsLineBreak(HelpText(entries)[0])
    decreases |entries|
  {
    var e := entries[0];
    var v := e.1;
    var first, second := e.0 + " -> " + ArgumentsLine(v), Description(v);
    RenderShape(e);
    HelpTextCons(entries);
    assert HelpLines(entries) == [first, second] + HelpLines(entries[1..]);
    if |entries| == 1 {
      assert !IsLineBreak(second[0]);
      BreakPiecesAfterLine(first, "\n", second);
      BreakPiecesOfLine(second);
    } else {
      HelpTextLines(entries[1..]);
      EntryPieces(first, second, HelpText(entries[1..]));
    }
  }

  lemma {:induction false} HelpLinesEndNonEmpty(entries: seq<(string, string)>)
    requires entries != []
    requires forall k :: 0 <= k < |entries| ==> IsHelpValue(entries[k].1)
    ensures |HelpLines(entries)| == 2 * |entries|
    ensures HelpLines(entries)[|HelpLines(entries)| - 1] != ""
    decreases |entries|
  {
    if |entries| > 1 {
      HelpLinesEndNonEmpty(entries[1..]);
    }
  }

  /** `help().split("[\\r\\n]+")` are the lines of `HelpLines`. */
  lemma SplitHelpText(entries: seq<(string, string)>)
    requires IsHelpTable(entries)
    ensures SplitLineBreaks(HelpText(entries)) == HelpLines(entries)
  {
    HelpTextLines(entries);
    HelpLinesEndNonEmpty(entries);
    var v := entries[0].1;
    RenderShape(entries[0]);
    assert !HasNoLineBreak(HelpText(entries)) by {
      assert Rendered(entries)[0] == Render(entries[0]);
      var first := entries[0].0 + " -> " + ArgumentsLine(v);
      if |entries| == 1 {
        assert HelpText(entries)[|first|] == '\n';
      } else {
        assert HelpText(entries) == Render(entries[0]) + "\n\n" + HelpText(entries[1..]);
        assert HelpText(entries)[|first|] == '\n';
      }
    }
  }

  /** `arg()`: taking every other line of `help()` lists each entry's
      arguments line. */
  lemma {:induction false} ArgsListsArgumentsLines(entries: seq<(string, string)>)
    requires forall k :: 0 <= k < |entries| ==> IsHelpValue(entries[k].1)
    ensures EvenPieces(HelpLines(entries)) == ArgSummary(entries)
    decreases |entries|
  {
    if entries != [] {
      ArgsListsArgumentsLines(entries[1..]);
      assert HelpLines(entries)[2..] == HelpLines(entries[1..]);
      if |entries| == 1 {
        assert ArgSummary(entries[1..]) == "";
      }
    }
  }

  /** A help value splits into its arguments line and its description. */
  lemma SplitHelpValue(v: string)
    requires IsHelpValue(v)
    ensures SplitLineBreaks(v) == [ArgumentsLine(v), Description(v)]
  {
    var n := LineEnd(v);
    var first, second := v[..n], Description(v);
    assert v == first + "\n" + second;
    assert !HasNoLineBreak(v) by { assert IsLineBreak(v[n]); }
    assert !IsLineBreak(second[0]);
    BreakLiterals();
    BreakPiecesAfterLine(first, "\n", second);
    BreakPiecesOfLine(second);
  }

  /** What `arg()` computes from `help()`: every other piece of its lines is
      an arguments line. */
  lemma ArgsFromHelp(entries: seq<(string, string)>)
    requires IsHelpTable(entries)
    ensures EvenPieces(SplitLineBreaks(HelpText(entries))) == ArgSummary(entries)
  {
    assert SplitLineBreaks(HelpText(entries)) == HelpLines(entries) by {
      SplitHelpText(entries);
    }
    ArgsListsArgumentsLines(entries);
  }

  /** `arg(key)` is the arguments line of the key's entry; an unknown key is
      Java's null dereferenced. */
  lemma ArgOfIsArgumentsLine(entries: seq<(string, string)>, key: string)
    requires forall k :: 0 <= k < |entries| ==> IsHelpValue(entries[k].1)
    ensures Lookup(entries, key).None? ==> ArgOf(entries, key) == Failure(NullPointer)
    ensures Lookup(entries, key).Some? ==> ArgOf(entries, key) == Success(ArgumentsLine(Lookup(entries, key).value))
  {
    if Lookup(entries, key).Some? {
      LookupFound(entries, key);
      SplitHelpValue(Lookup(entries, key).value);
    }
  }

  lemma {:induction false} LookupFound(entries: seq<(string, string)>, key: string)
    requires Lookup(entries, key).Some?
    ensures exists k :: 0 <= k < |entries| && entries[k] == (key, Lookup(entries, key).value)
    decreases |entries|
  {
    if entries[0].0 != key {
      LookupFound(entries[1..], key);
      var k :| 0 <= k < |entries[1..]| && entries[1..][k] == (key, Lookup(entries[1..], key).value);
      assert entries[k + 1] == entries[1..][k];
    }
  }

  /** With distinct keys, `help(key)` finds every entry of the table. */
  lemma {:induction false} LookupFindsEveryEntry(entries: seq<(string, string)>, k: nat)
    requires k < |entries|
    requires forall i, j :: 0 <= i < j < |entries| ==> entries[i].0 != entries[j].0
    ensures Lookup(entries, entries[k].0) == Some(entries[k].1)
    decreases k
  {
    if k > 0 {
      LookupFindsEveryEntry(entries[1..], k - 1);
    }
  }
}
