# OS-CLI command interpreter — a Dafny model

OS-CLI is a small Java command shell. This project models its two core classes:

- **`Parser`** (`src/Parser.java`). `tryParse` splits an input line at the redirection operators `>>|>`. It tokenizes the command text with a quote-aware pattern (`splitInput`) and takes the first token as the command and the rest as its arguments. It then checks them against a per-command table (`CheckCommandAndArguments`). That table uses the three-tier path classifier `IdentifyPath` / `isParsable` / `isValidMultipleFiles`.
- **`Terminal`** (`src/Terminal.java`). `exec` dispatches to the commands. Here they act on an abstract filesystem and a scripted sequence of input lines:
  - `cp` and `mv` (copy, then a best-effort remove);
  - `rm`, `rmdir` and `mkdir`;
  - `ls` and `cat` (of files, or interactive until `<stop>`);
  - the `more` pager;
  - `cd` and `pwd`;
  - `help` and `args`;
  - `date`, `clear` and `exit`.

The filesystem is a map from a path (its sequence of names from the root) to a regular file (its lines) or a directory (its entry names in listing order). A well-formedness invariant says four things:

- the root directory exists;
- every entry is listed by its parent directory;
- every listed name exists;
- no directory lists a name twice.

Every command keeps this invariant.

Whether the host accepts a path string (`Paths.get`) is an uninterpreted parameter `valid`. Every result holds for every host. `new File(s)` and `getName()` are modelled concretely. Names are separated by `\` or `/`, and empty names are dropped. Every path argument is taken from the process directory `home`, a constant of the terminal. A leading separator starts from the root instead. `.` and `..` are resolved by the names alone, the way the Windows path API resolves them, and the parent of the root is the root. So `cd ..`, `ls .` and `mkdir ..` ("File exists") behave as on the host.

Failures are values:

- `ParseError` for the `ParsingException` messages;
- `Fault` for the `TerminalException` messages.

Each carries the argument or name its message quotes. The Java runtime exceptions that escape the code are explicit values too: array index, invalid path, exhausted `Scanner`, and null dereference.

The loops of the source are methods with loop invariants:

- `splitInput`;
- the per-argument loops of `cp`, `rm`, `rmdir`, `mkdir`, `ls` and `cat`;
- the pager loop;
- the `help()` / `arg()` builders.

Each is proved equal to a function that specifies it. The properties are proved as lemmas about those functions.

The code differs from a conventional shell in these ways:

- There is no `|` pipeline, no wildcard expansion against a directory listing, and no resolution of relative paths against the working directory. `cd` records a string that no later lookup uses.
- A dangling `>` at the end of a line is dropped silently rather than refused.
- `cp`/`mv` take exactly two arguments at parse time. The several-sources branch of `cp(String[], String)` is still modelled, as written.
- `rm` has no row in the argument table, so the parser refuses it as "not a valid command".
- `ls` is not in `supportedCommands`, so `help ls` is refused.
- `ls` with no arguments returns the empty string.

## Model

| member | source | states |
|---|---|---|
| HostPath.Components | src/Parser.java:149-150 | the names a path consists of, each non-empty and free of separators |
| HostPath.FileName | src/Parser.java:150 | `getName()` is the last name of the path, or empty |
| HostPath.ResolveDots | src/Terminal.java:333-335 | `.` is the process directory and `..` its parent, the root being its own parent; `getName()` of either is itself |
| HostPath.DescendPlain | src/Terminal.java:217 | without `.` or `..`, taking names from a directory appends them |
| HostPath.ResolveRelative | src/Terminal.java:217 | a relative path without `.` or `..` is its names below the process directory |
| HostPath.ComponentsOfJoin | src/Terminal.java:176 | a directory resolved with names splits back into exactly those names |
| Tokenizer.RunEnd | src/Parser.java:59 | the `[^"'\s]+` alternative ends at the first quote or whitespace |
| Tokenizer.Find | src/Parser.java:59 | the closing quote of a quoted alternative is the first one of its kind |
| Tokenizer.MatchAt | src/Parser.java:55-59 | the pattern matches at a position exactly when that character is not whitespace and is not a quote without a closing partner; a match is a maximal word run or a quoted run |
| Tokenizer.Spans | src/Parser.java:60-63 | `find` reports non-empty matches left to right, without overlap, each a match of the pattern at its start |
| Tokenizer.SplitInput | src/Parser.java:51-65 | the collecting loop returns the text of every match, in order |
| Tokenizer.TokenShapes | src/Parser.java:51-65 | every token is non-empty: a word without quotes or whitespace, or a quoted run with its quotes kept |
| Tokenizer.SkippedCharacters | src/Parser.java:55-61 | a character in no token is whitespace or a quote with no closing partner after it |
| Tokenizer.CoveredOrSkipped | src/Parser.java:61-63 | from any search position, each later character is covered by a match or can start none |
| Tokenizer.WordSpansMaximal | src/Parser.java:55-61 | no word character sits just before a word token |
| Tokenizer.TokensOfInput | src/Parser.java:51-65 | word tokens are maximal on both sides, and every word character of the input lies in a token |
| Redirection.Pieces | src/Parser.java:31 | the pieces between `>>`/`>` matches contain no `>` |
| Redirection.PiecesRoundTrip | src/Parser.java:31 | putting the operators back between the pieces gives the input: the split loses nothing |
| Redirection.SplitEmptyExactly | src/Parser.java:31 | the split is empty exactly for a non-empty input made of `>` only |
| Redirection.CommandTextIsPrefix | src/Parser.java:31 | the first part is the input up to its first `>` |
| Redirection.SplitSingleRedirect | src/Parser.java:31-34 | a command, one operator and a target split into exactly those two parts |
| Redirection.DanglingOperatorVanishes | src/Parser.java:31 | a trailing operator with nothing after it leaves the command text alone |
| PathClassifier.WildcardCut | src/Parser.java:176-179 | the cut is just after the last `\`, or 0 |
| PathClassifier.DegenerateArgumentsInvalid | src/Parser.java:161-168 | the empty string, a lone quote and an empty quoted string are Invalid |
| PathClassifier.QuotingIsTransparent | src/Parser.java:164-169 | exactly one layer of matching quotes is removed before classifying |
| PathClassifier.HostValidClassification | src/Parser.java:171-174 | `~` and `..` are directories; a host-valid string is a file when its name has a dot, else a directory, never several files |
| PathClassifier.MultipleFilesExactly | src/Parser.java:176-184 | MultipleFiles iff the host rejects the string, accepts the part up to the last `\`, and the rest matches the wildcard grammar; every other host-rejected string is Invalid |
| PathClassifier.MultipleFilesHasStar | src/Parser.java:141-144 | on a host that accepts ordinary names, a MultipleFiles argument's file name contains `*` |
| ArgumentContract.FirstRefused | src/Parser.java:125-134 | the loop reports the first argument of the wrong kind, after arguments that were all accepted |
| ArgumentContract.CheckCommandAndArguments | src/Parser.java:67-139 | passes exactly the command lines of the table; a refused mkdir, rmdir or cat names its first offending argument |
| ArgumentContract.CopyDestinationGuard | src/Parser.java:99-117 | an accepted cp/mv has two arguments, a valid source, a file or directory destination, and a directory destination for a directory or wildcard source |
| ArgumentContract.AcceptedCommands | src/Parser.java:72-137 | only the twelve names of the table pass, and `rm` is always refused as not a valid command |
| ArgumentContract.MoreCheckFaults | src/Parser.java:118-120 | as written, refusing a lone `more` argument faults on `args[1]`, and with two arguments it names the wrong one |
| ArgumentContract.CheckMore | src/Parser.java:118-122 | as intended, `more` passes iff its first argument is a file, and a refusal names that argument |
| CommandParser.OperatorOnlyInputFaults | src/Parser.java:31-40 | as written, an input of `>` characters only faults on `res[0]` |
| CommandParser.CommandText | src/Parser.java:31-43 | the redirection checks never fault |
| CommandParser.CommandTextCorrected | src/Parser.java:31-43 | the corrected checks report an operator-only input as an empty command and otherwise agree with the code |
| CommandParser.BlankInputIsEmptyCommand | src/Parser.java:40-43 | a line of whitespace is an empty command |
| CommandParser.RedirectionKeepsCommand | src/Parser.java:31-46 | with a file target the redirection does not change the command and arguments; any other target is refused, naming it |
| CommandParser.DanglingRedirectionIgnored | src/Parser.java:31-46 | a trailing operator is silently accepted and ignored |
| CommandParser.ParsedCommandIsToken | src/Parser.java:40-48 | the command is a word or quoted token, and a quoted command is always refused |
| CommandParser.QuotedCommandRefused | src/Parser.java:136-137 | no command name starting with a quote passes the table |
| CommandParser.Parser.TryParse | src/Parser.java:27-49 | a failure before the tokens are stored leaves the fields as they were; otherwise they hold the first token and the rest, and the table decides the outcome |
| FileSystem.Remove | src/Terminal.java:220 | the listing without the removed name, still without duplicates |
| FileSystem.Delete | src/Terminal.java:220 | exactly the deleted entry disappears, and its parent no longer lists it |
| FileSystem.Add | src/Terminal.java:182 | a new entry appears, listed last by its parent, and nothing else changes |
| FileSystem.DeletePreserves | src/Terminal.java:220 | deleting a file or an empty directory keeps the filesystem well formed |
| FileSystem.AddPreserves | src/Terminal.java:182 | adding a file or an empty directory under a directory keeps it well formed |
| FileSystem.ReplacePreserves | src/Terminal.java:182 | replacing a file or an empty directory by a file keeps it well formed |
| FileSystem.CopyTo | src/Terminal.java:182 | a copy with REPLACE_EXISTING succeeds exactly over a file, an empty directory or a new name in a directory, and writes the lines there |
| FileSystem.CopyToPreserves | src/Terminal.java:182 | a copy keeps the filesystem well formed |
| FileSystem.Mkdirs | src/Terminal.java:258 | `mkdirs` creates the directory and only missing ancestors, changes the kind of no entry and the lines of no regular file |
| FileSystem.MkdirsPreserves | src/Terminal.java:258 | `mkdirs` keeps the filesystem well formed |
| FileSystem.AncestorsAreDirs | src/Terminal.java:258 | every proper prefix of an existing path is a directory |
| FileSystem.MkdirsFailsBelowFile | src/Terminal.java:258 | `mkdirs` of a missing path fails only below a regular file |
| FileSystem.MkdirsFailsOnFile | src/Terminal.java:258 | `mkdirs` below a regular file fails |
| FileCommands.CopyTargetNames | src/Terminal.java:175-176 | into a directory, the source argument's own last name is resolved from it: an ordinary name lands below it, `.` on the directory itself and `..` on its parent |
| FileCommands.CopyOne | src/Terminal.java:172-189 | a directory source is ignored, a missing source is an error, a file source's lines land at the target named by the argument's last name; a file copy succeeds exactly when `Files.copy` can write the target, and then the new filesystem is that copy and nothing else; otherwise it is "cannot copy" and nothing changes |
| FileCommands.RmOne | src/Terminal.java:216-228 | only a regular file is deleted, and exactly it, from its parent directory; a directory or missing path is the matching error; a file that cannot be deleted is an I/O error; a failure changes nothing |
| FileCommands.RmdirOne | src/Terminal.java:233-247 | only an empty directory is deleted, and exactly it, from its parent directory; a file, a non-empty directory or a missing path is the matching error; a failure changes nothing |
| FileCommands.MkdirOne | src/Terminal.java:253-261 | "File exists" exactly when the path exists; on success the new filesystem is the result of `mkdirs`, which adds the directory and only its missing ancestors; a failure changes nothing |
| FileCommands.CopyEffect | src/Terminal.java:195-204 | no arguments, a host-rejected last argument, or several sources with a last argument that is not a directory: that error, nothing changed; otherwise the sources copied into the last argument one by one, stopping at the first failure |
| FileCommands.ForEachAppend | src/Terminal.java:201-203 | the argument loop over `a + b` runs `a`, then `b` only if `a` completed |
| FileCommands.FailureIsFirstFailingArgument | src/Terminal.java:216-261 | a failed loop failed at some argument, after all earlier ones completed, and keeps what they did |
| FileCommands.ApplyPreserves | src/Terminal.java:172-261 | every per-argument step keeps the filesystem well formed |
| FileCommands.ForEachPreserves | src/Terminal.java:201-261 | every argument loop keeps the filesystem well formed |
| FileCommands.RemovalsOnlyRemove | src/Terminal.java:215-250 | `rm` deletes only regular files and `rmdir` only directories, and neither changes an entry's kind |
| FileCommands.MkdirMakesEveryDirectory | src/Terminal.java:252-262 | a completed `mkdir` removes nothing, changes no entry's kind and no regular file, adds only directories, and leaves every argument a directory |
| FileCommands.DotsAreDirectories | src/Terminal.java:254-255 | `.` is the process directory, `..` its parent and a lone separator the root, all existing directories |
| FileCommands.MkdirDotsExist | src/Terminal.java:254-256 | `mkdir .` and `mkdir ..` report "File exists" and change nothing |
| FileCommands.RmdirParentNotEmpty | src/Terminal.java:237-241 | below the root, `rmdir ..` reports "Directory not empty" and changes nothing |
| FileCommands.MkdirOneFails | src/Terminal.java:254-260 | `mkdir` of a path fails iff the path exists or one of its ancestors is a regular file |
| FileCommands.CopyOverwrites | src/Terminal.java:180-182 | copying over an existing file replaces its lines and changes nothing else |
| FileCommands.ForEachSingle | src/Terminal.java:201-202 | the loop over one argument is that argument's step |
| FileCommands.MoveSingle | src/Terminal.java:206-213 | `mv` is `cp`, then `rm` of the source with its failure dropped |
| FileCommands.MoveDirectoryIsNoOp | src/Terminal.java:206-213 | `mv` of a directory changes nothing and reports success |
| FileCommands.MoveFile | src/Terminal.java:206-213 | `mv` of a file to another writable place puts its lines at the target and removes the source |
| FileCommands.CopyKeepsSource | src/Terminal.java:182 | copying to another path leaves the source a file in a directory |
| TextCommands.PrefixedTwice | src/Terminal.java:270-278 | appending two runs of output is appending their concatenation |
| TextCommands.ChildEntries | src/Terminal.java:277-279 | one line per listed entry, in listing order |
| TextCommands.LsSingleDirectory | src/Terminal.java:264-284 | `ls dir` is the directory's entries joined by "\n" |
| TextCommands.LsDotListsHome | src/Terminal.java:264-284 | `ls .` lists the entries of the process directory |
| TextCommands.LsListsDirectory | src/Terminal.java:264-284 | splitting `ls dir` at newlines gives each entry, in order, marked ": " for a directory and " " for a file |
| TextCommands.SplitJoinNewline | src/Terminal.java:284 | splitting a newline join gives the parts back |
| TextCommands.UnlinesAppend | src/Terminal.java:321-324 | the lines of two runs, each ended by "\n", concatenate |
| TextCommands.CatArg | src/Terminal.java:312-327 | one argument succeeds iff it is a file the host accepts, and gives its lines, each ended by "\n" |
| TextCommands.CatIsFileLines | src/Terminal.java:305-331 | a successful `cat` is every line of every file, in order, each ended by "\n" |
| TextCommands.CatReadsBack | src/Terminal.java:305-331 | splitting a successful `cat` at newlines gives every file line back, then the empty piece after the last "\n" |
| TextCommands.CatInput | src/Terminal.java:291-303 | interactive `cat()` reads at least one and at most all input lines |
| TextCommands.CatInputUpToStop | src/Terminal.java:295-302 | interactive `cat()` returns the lines before the first "<stop>", each ended by "\n", having read through it |
| TextCommands.CatInputWithoutStop | src/Terminal.java:295-296 | without "<stop>", interactive `cat()` fails when the input runs out |
| TextCommands.HelpBlocksTrimmed | src/Terminal.java:111-114 | the appended blocks end with exactly the "\n\n" that `help()` trims |
| TextCommands.LineEnd | src/Terminal.java:120 | the first line ends at the first line break |
| TextCommands.RenderShape | src/Terminal.java:112 | an entry renders as its `key -> arguments line`, "\n", and its description |
| TextCommands.HelpTextLines | src/Terminal.java:109-115 | `help()` splits at line-break runs into, entry by entry, `key -> arguments line` and the description |
| TextCommands.SplitHelpText | src/Terminal.java:125 | `help().split("[\\r\\n]+")` is those lines |
| TextCommands.ArgsListsArgumentsLines | src/Terminal.java:127-129 | every other of those lines is an entry's `key -> arguments line` |
| TextCommands.ArgsFromHelp | src/Terminal.java:124-131 | `arg()` lists each entry's `key -> arguments line`, each followed by "\n" |
| TextCommands.SplitHelpValue | src/Terminal.java:120-121 | a help value splits into its arguments line and its description |
| TextCommands.ArgOfIsArgumentsLine | src/Terminal.java:117-122 | `arg(key)` is the arguments line of the key's entry; an unknown key dereferences null |
| TextCommands.LookupFound | src/Terminal.java:105-107 | a value `help(key)` finds is the value of an entry with that key |
| TextCommands.LookupFindsEveryEntry | src/Terminal.java:105-107 | with distinct keys, `help(key)` finds every entry |
| MorePager.WindowEnd | src/Terminal.java:137-142 | a display step moves at most `display` lines and never past the end; it moves when lines remain |
| MorePager.Pager | src/Terminal.java:133-160 | the pager reads no more input than there is, and runs out of input only after reading all of it |
| MorePager.ForwardKeysShowContiguousLines | src/Terminal.java:136-153 | forward keys show the lines from the offset on, each once, in order, with nothing skipped |
| MorePager.SpacesShowPages | src/Terminal.java:147-148 | `k` spaces then "q" show `k + 1` pages of ten lines, at most up to the end |
| MorePager.EndOfDataDoesNotStop | src/Terminal.java:136-159 | at the end of the data, forward keys show nothing and the pager keeps reading |
| MorePager.BackShowsPreviousPage | src/Terminal.java:149-151 | "b" after the second page shows the first page again |
| MorePager.QuitShows | src/Terminal.java:154-155 | "q" ends the pager after the current window |
| MorePager.MoveKeyShows | src/Terminal.java:147-151 | " " and "b" show the window, then page on or go back two pages |
| MorePager.UnsupportedKeyStops | src/Terminal.java:156-157 | any other input line ends the pager with an error after the window |
| TerminalShell.Terminal.constructor | src/Terminal.java:20-40 | the terminal starts on the given filesystem, input and help table, with nothing printed |
| TerminalShell.Terminal.CopyFile | src/Terminal.java:172-189 | single-source `cp` changes the filesystem as its specification says and keeps it well formed |
| TerminalShell.Terminal.Cp | src/Terminal.java:195-204 | the `cp` loop leaves the filesystem and outcome of its specification |
| TerminalShell.Terminal.Mv | src/Terminal.java:206-213 | `mv` leaves the filesystem and outcome of its specification |
| TerminalShell.Terminal.Rm | src/Terminal.java:215-230 | the `rm` loop leaves the filesystem and outcome of its specification |
| TerminalShell.Terminal.Rmdir | src/Terminal.java:232-250 | the `rmdir` loop leaves the filesystem and outcome of its specification |
| TerminalShell.Terminal.Mkdir | src/Terminal.java:252-262 | the `mkdir` loop leaves the filesystem and outcome of its specification |
| TerminalShell.Terminal.Ls | src/Terminal.java:264-285 | `ls` returns the text of its specification |
| TerminalShell.Terminal.ListArgument | src/Terminal.java:268-282 | the lines one argument of `ls` contributes |
| TerminalShell.Terminal.ListDirectory | src/Terminal.java:277-279 | the lines of a directory's entries |
| TerminalShell.Terminal.CatFiles | src/Terminal.java:305-331 | `cat(args)` returns the text of its specification |
| TerminalShell.Terminal.CatFile | src/Terminal.java:312-327 | one argument of `cat`: its specification, built line by line |
| TerminalShell.Terminal.CatInteractive | src/Terminal.java:291-303 | interactive `cat()` prints its prompt, consumes the lines through "<stop>", and returns the text before it |
| TerminalShell.Terminal.MoreText | src/Terminal.java:133-160 | the pager loop prints, consumes and ends as the pager specification says |
| TerminalShell.Terminal.PrintLines | src/Terminal.java:139-141 | the lines of the window are printed in order |
| TerminalShell.Terminal.More | src/Terminal.java:162-170 | `more file` pages the file's lines; an unreadable path prints nothing |
| TerminalShell.Terminal.Cd | src/Terminal.java:333-339 | the working directory changes iff the target is a directory; otherwise it is unchanged and the error names the target |
| TerminalShell.Terminal.Help | src/Terminal.java:109-115 | `help()` is the entries separated by blank lines, with no trailing blank line |
| TerminalShell.Terminal.Arg | src/Terminal.java:124-131 | `arg()` lists each entry's `key -> arguments line` |
| TerminalShell.Terminal.EveryOtherLine | src/Terminal.java:127-130 | the loop of `arg()` keeps the pieces at even positions |
| TerminalShell.Terminal.Exec | src/Terminal.java:46-98 | each command name runs its command; only file commands change files, only a successful `cd` the directory, only cat/more/clear the console; an unknown name gives the fallback text |
| TerminalShell.Terminal.ExecFileCommand | src/Terminal.java:48-62 | cp, mv, rm, mkdir and rmdir leave the filesystem and outcome of their specifications, and keep it well formed |
| TerminalShell.Terminal.ExecConsoleCommand | src/Terminal.java:63-94 | cat reads files or the console; more pages a file or piped text; clear prints a hundred empty lines; nothing else changes the console |
| TerminalShell.Terminal.ExecQuery | src/Terminal.java:65-97 | cd, pwd, help, args, date, ls and exit answer from the state and table without touching files or console; an unknown name gives the fallback text |

## Left out

- `src/Main.java` (the read loop, redirection writing, the exit check) and `src/ConsoleColor.java` are not part of this model. `ParsingException` and `TerminalException` are the `ParseError` and `Fault` datatypes, not classes.
- Host path validity (`Paths.get`) is a parameter. Drive prefixes are not modelled: `C:` is an ordinary name. A `cp` source with no name (`getFileName()` returning null, as for a lone separator) is copied onto the destination itself rather than faulting in `resolve(null)`.
- HostPath.Resolve: `.` and `..` are resolved by the names alone, with no look at links or at whether the names exist, as the Windows path API does. An empty argument stands for the process directory, where `new File("")` exists nowhere; no token the parser produces is empty.
- `cd` only records its argument. The process directory `home` never changes, so no later lookup depends on `cd`.
- FileCommands.RmdirOne: `rmdir .` of an empty process directory deletes it. The host's refusal to delete a directory a process runs in is an I/O failure and is not modelled.
- Real I/O failures of `Files.copy`, `Files.delete`, `listFiles` and `readAllLines` are not modelled. Only failures the abstract filesystem itself exhibits are kept: a copy onto a non-empty directory, a deletion without a parent, `mkdirs` below a file. The `ls` branch for a null `listFiles()` cannot arise.
- The "Directory ignored" line `cp` prints for a directory source is not modelled; only its effect (nothing changes) is.
- TerminalShell.Terminal.Exec: `date` returns the `now` parameter. The clock and `SimpleDateFormat` are not modelled.
- TerminalShell.Terminal.Exec: the piped text of `more` is the `piped` parameter. The code's null first argument and its second argument are not modelled as such.
- MorePager.Pager: the percentage prompt `moreText` prints after each window is float formatting and is not modelled. Only the lines of the data are recorded as printed.
- TerminalShell.Terminal.Help: the help table is a constructor parameter in an arbitrary fixed order, standing for the `HashMap` iteration order. Its fifteen literal strings are not checked. Each value is required to be one arguments line, "\n" and one description. The table is non-empty, as the fifteen entries make it. On an empty map the code would throw in `substring`.
- `getCmd` and `getArguments` are plain getters; the model reads the fields.
- CommandParser.Parser.TryParse: on an input made only of `>` characters it reports "Empty Command", the corrected path of the second Findings row. The code as written faults on `res[0]`; CommandParser.CommandTextAsWritten and CommandParser.OperatorOnlyInputFaults model that.
- CommandParser.SplitCommand: the same corrected path as CommandParser.Parser.TryParse.
- ArgumentContract.CheckCommandAndArguments: a `more` argument that is not a file is refused naming that argument, the corrected path of the first Findings row. The code as written reads `args[1]`: it faults with one argument and names the wrong one with two. ArgumentContract.CheckMoreAsWritten and ArgumentContract.MoreCheckFaults model that.
- A MultipleFiles argument is host-invalid by construction, and no command expands it. Where the code passes it to `Paths.get` (`cp`, `mv`, `more`, and `cat`/`rmdir` when they read or delete), the model gives the `InvalidPath` fault that call would raise. `rm` catches every exception of its delete, so it reports a host-rejected file path as its I/O error.

## Findings

| source | as written | input that shows it | evidently intended | confidence | as-written member | corrected member |
|---|---|---|---|---|---|---|
| src/Parser.java:119-120 | a `more` argument that is not a file is reported through `args[1]` | `more dir`: one argument, `args[1]` is out of bounds and faults instead of reporting; `more dir x.txt` names `x.txt` | the message names `args[0]`, the argument that was checked | high, not executed | ArgumentContract.MoreCheckFaults | ArgumentContract.CheckMore |
| src/Parser.java:31-40 | `res[0]` is read without checking that the split has a part | `>` or `>>`: `split` drops every empty piece and returns no parts, so `res[0]` faults | an input without command text is an "Empty Command" | high, not executed | CommandParser.OperatorOnlyInputFaults | CommandParser.CommandTextCorrected |
