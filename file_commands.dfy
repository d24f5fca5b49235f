/** What `cp`, `mv`, `rm`, `rmdir` and `mkdir` do to the filesystem. Each of
    them runs a loop over its arguments whose body either changes the
    filesystem or throws; `ForEach` is that loop, `Apply` its body. */
module FileCommands {
  import opened Wrappers
  import opened HostPath
  import opened FileSystem
  import opened TerminalFaults

  /** The filesystem after a command, and whether it completed. */
  datatype Effect = Effect(fs: FS, outcome: Outcome<Fault>)

  /** The body of a command's loop over its arguments. */
  datatype Step =
    | CopyInto(valid: Validity, home: Path, destination: Path, cmd: string)
    | RemoveFile(valid: Validity, home: Path)
    | RemoveDir(valid: Validity, home: Path)
    | MakeDir(home: Path)

  /** Where `cp` writes a source whose argument's last name is `name`: that
      name taken from `destination` when `destination` is a directory, else
      `destination` itself. */
  function CopyTarget(fs: FS, name: string, destination: Path): Path
  {
    if IsDir(fs, destination) && name != "" then Descend(destination, [name]) else destination
  }

  /** Into a directory, an ordinary name lands below it, while `.` lands on
      the directory itself and `..` on its parent. */
  lemma CopyTargetNames(fs: FS, name: string, destination: Path)
    requires IsDir(fs, destination)
    ensures name != "" && !IsDotName(name) ==> CopyTarget(fs, name, destination) == destination + [name]
    ensures CopyTarget(fs, ".", destination) == destination
    ensures CopyTarget(fs, "..", destination) == if destination == [] then [] else destination[..|destination| - 1]
  {
    if name != "" && !IsDotName(name) {
      DescendPlain(destination, [name]);
    }
    var up := if destination == [] then [] else destination[..|destination| - 1];
    assert Descend(destination, ["."]) == Descend(destination, []);
    assert Descend(destination, [".."]) == Descend(up, []);
  }

  /** `cp(Path, Path, String)`: a directory source is ignored, a regular file
      is copied over whatever regular file or empty directory is at the
      target, and a missing source is an error. */
  function CopyOne(fs: FS, source: Path, destination: Path, cmd: string, name: string): (e: Effect)
    ensures e.outcome.Fail? ==> e.fs == fs
    ensures IsDir(fs, source) ==> e == Effect(fs, Pass)
    ensures source !in fs ==> e.outcome == Fail(NoSuchSource(cmd, name))
    ensures IsFile(fs, source) && e.outcome.Pass? ==>
              var t := CopyTarget(fs, name, destination);
              IsFile(e.fs, t) && e.fs[t].lines == fs[source].lines
    ensures IsFile(fs, source) ==>
              var c := CopyTo(fs, CopyTarget(fs, name, destination), fs[source].lines);
              (e.outcome.Pass? <==> c.Some?) && (c.Some? ==> e.fs == c.value) &&
              (c.None? ==> e.outcome == Fail(CannotCopy(cmd, name)))
  {
    if IsDir(fs, source) then Effect(fs, Pass)
    else if IsFile(fs, source) then
      match CopyTo(fs, CopyTarget(fs, name, destination), fs[source].lines)
      case Some(fs') => Effect(fs', Pass)
      case None => Effect(fs, Fail(CannotCopy(cmd, name)))
    else Effect(fs, Fail(NoSuchSource(cmd, name)))
  }

  /** One argument of `rm`, run in the directory `home`: only a regular file
      is deleted. */
  function RmOne(valid: Validity, home: Path, fs: FS, arg: string): (e: Effect)
    ensures e.outcome.Fail? ==> e.fs == fs
    ensures e.outcome.Pass? ==>
              var p := Resolve(home, arg);
              IsFile(fs, p) && p != [] && IsDir(fs, Parent(p)) && e.fs == Delete(fs, p) &&
              e.fs.Keys == fs.Keys - {p}
    ensures IsFile(fs, Resolve(home, arg)) && e.outcome.Fail? ==> e.outcome == Fail(RmIOError(FileName(arg)))
    ensures IsDir(fs, Resolve(home, arg)) ==> e.outcome == Fail(RmIsDirectory(FileName(arg)))
    ensures Resolve(home, arg) !in fs ==> e.outcome == Fail(RmNoSuch(FileName(arg)))
  {
    var p := Resolve(home, arg);
    if IsFile(fs, p) then
      if valid(arg) && p != [] && IsDir(fs, Parent(p)) then Effect(Delete(fs, p), Pass)
      else Effect(fs, Fail(RmIOError(FileName(arg))))
    else if IsDir(fs, p) then Effect(fs, Fail(RmIsDirectory(FileName(arg))))
    else Effect(fs, Fail(RmNoSuch(FileName(arg))))
  }

  /** One argument of `rmdir`: only an empty directory is deleted. */
  function RmdirOne(valid: Validity, home: Path, fs: FS, arg: string): (e: Effect)
    ensures e.outcome.Fail? ==> e.fs == fs
    ensures e.outcome.Pass? ==>
              var p := Resolve(home, arg);
              IsDir(fs, p) && fs[p].children == [] && p != [] && IsDir(fs, Parent(p)) &&
              e.fs == Delete(fs, p) && e.fs.Keys == fs.Keys - {p}
    ensures IsFile(fs, Resolve(home, arg)) ==> e.outcome == Fail(RmdirNotDirectory(FileName(arg)))
    ensures valid(arg) && IsDir(fs, Resolve(home, arg)) && fs[Resolve(home, arg)].children != [] ==>
              e.outcome == Fail(RmdirNotEmpty(FileName(arg)))
    ensures Resolve(home, arg) !in fs ==> e.outcome == Fail(RmdirNoSuch(FileName(arg)))
  {
    var p := Resolve(home, arg);
    if IsFile(fs, p) then Effect(fs, Fail(RmdirNotDirectory(FileName(arg))))
    else if IsDir(fs, p) then
      if !valid(arg) then Effect(fs, Fail(InvalidPath(arg)))
      else if fs[p].children != [] then Effect(fs, Fail(RmdirNotEmpty(FileName(arg))))
      else if p == [] || !IsDir(fs, Parent(p)) then Effect(fs, Fail(RmdirIOError(FileName(arg))))
      else Effect(Delete(fs, p), Pass)
    else Effect(fs, Fail(RmdirNoSuch(FileName(arg))))
  }

  /** One argument of `mkdir`: an existing path is an error, otherwise the
      directory is made with its missing ancestors. */
  function MkdirOne(home: Path, fs: FS, arg: string): (e: Effect)
    ensures e.outcome.Fail? ==> e.fs == fs
    ensures e.outcome == Fail(MkdirExists(FileName(arg))) <==> Resolve(home, arg) in fs
    ensures e.outcome.Pass? ==> Resolve(home, arg) !in fs && IsDir(e.fs, Resolve(home, arg))
    ensures e.outcome.Pass? ==> Mkdirs(fs, Resolve(home, arg)).Some? && e.fs == Mkdirs(fs, Resolve(home, arg)).value
  {
    var p := Resolve(home, arg);
    if p in fs then Effect(fs, Fail(MkdirExists(FileName(arg))))
    else match Mkdirs(fs, p)
      case None => Effect(fs, Fail(MkdirIOError(FileName(arg))))
      case Some(fs') => Effect(fs', Pass)
  }

  function Apply(step: Step, fs: FS, arg: string): Effect
  {
    match step
    case CopyInto(valid, home, destination, cmd) =>
      if !valid(arg) then Effect(fs, Fail(InvalidPath(arg)))
      else CopyOne(fs, Resolve(home, arg), destination, cmd, FileName(arg))
    case RemoveFile(valid, home) => RmOne(valid, home, fs, arg)
    case RemoveDir(valid, home) => RmdirOne(valid, home, fs, arg)
    case MakeDir(home) => MkdirOne(home, fs, arg)
  }

  /** The loop over `args`: it stops at the first argument that fails and
      keeps what the earlier ones did. */
  function ForEach(step: Step, fs: FS, args: seq<string>): Effect
    decreases |args|
  {
    if args == [] then Effect(fs, Pass)
    else
      var first := Apply(step, fs, args[0]);
      if first.outcome.Fail? then first else ForEach(step, first.fs, args[1..])
  }

  /** `cp(String[], String)`: with more than two arguments the last must be a
      directory, checked before anything is copied; then every other argument
      is copied into the last, in order. */
  function CopyEffect(valid: Validity, home: Path, fs: FS, args: seq<string>, cmd: string): (e: Effect)
    ensures e.outcome.Pass? ==> |args| > 0 && valid(args[|args| - 1])
    ensures e.outcome.Pass? && |args| > 2 ==> IsDir(fs, Resolve(home, args[|args| - 1]))
    ensures |args| == 0 ==> e == Effect(fs, Fail(IndexOutOfBounds))
    ensures |args| > 0 && !valid(args[|args| - 1]) ==> e == Effect(fs, Fail(InvalidPath(args[|args| - 1])))
    ensures |args| > 2 && valid(args[|args| - 1]) && !IsDir(fs, Resolve(home, args[|args| - 1])) ==>
              e == Effect(fs, Fail(TargetNotDirectory(cmd, FileName(args[|args| - 1]))))
    ensures |args| > 0 && valid(args[|args| - 1]) && (|args| <= 2 || IsDir(fs, Resolve(home, args[|args| - 1]))) ==>
              e == ForEach(CopyInto(valid, home, Resolve(home, args[|args| - 1]), cmd), fs, args[..|args| - 1])
  {
    if |args| == 0 then Effect(fs, Fail(IndexOutOfBounds))
    else
      var last := args[|args| - 1];
      if !valid(last) then Effect(fs, Fail(InvalidPath(last)))
      else if |args| > 2 && !IsDir(fs, Resolve(home, last)) then
        Effect(fs, Fail(TargetNotDirectory(cmd, FileName(last))))
      else ForEach(CopyInto(valid, home, Resolve(home, last), cmd), fs, args[..|args| - 1])
  }

  /** `mv`: `cp` under the name "mv", then `rm` of the sources, whose failure
      is ignored. */
  function MoveEffect(valid: Validity, home: Path, fs: FS, args: seq<string>): Effect
  {
    var copied := CopyEffect(valid, home, fs, args, "mv");
    if copied.outcome.Fail? then copied
    else Effect(ForEach(RemoveFile(valid, home), copied.fs, args[..|args| - 1]).fs, Pass)
  }

  function RmEffect(valid: Validity, home: Path, fs: FS, args: seq<string>): Effect
  {
    ForEach(RemoveFile(valid, home), fs, args)
  }

  function RmdirEffect(valid: Validity, home: Path, fs: FS, args: seq<string>): Effect
  {
    ForEach(RemoveDir(valid, home), fs, args)
  }

  function MkdirEffect(home: Path, fs: FS, args: seq<string>): Effect
  {
    ForEach(MakeDir(home), fs, args)
  }

  /** Running the loop over `a + b` is running it over `a`, then, if that
      completed, over `b`. */
  lemma {:induction false} ForEachAppend(step: Step, fs: FS, a: seq<string>, b: seq<string>)
    ensures ForEach(step, fs, a + b) ==
              var first := ForEach(step, fs, a);
              if first.outcome.Fail? then first else ForEach(step, first.fs, b)
    decreases |a|
  {
    if a == [] {
      assert a + b == b;
    } else {
      assert (a + b)[0] == a[0];
      assert (a + b)[1..] == a[1..] + b;
      ForEachAppend(step, Apply(step, fs, a[0]).fs, a[1..], b);
    }
  }

  /** A loop that fails failed at some argument `k`: the arguments before it
      all completed, and the result is that argument's failure on the
      filesystem they left. */
  lemma {:induction false} FailureIsFirstFailingArgument(step: Step, fs: FS, args: seq<string>)
    requires ForEach(step, fs, args).outcome.Fail?
    ensures exists k :: 0 <= k < |args| && ForEach(step, fs, args[..k]).outcome.Pass? &&
              ForEach(step, fs, args) == Apply(step, ForEach(step, fs, args[..k]).fs, args[k])
    decreases |args|
  {
    var first := Apply(step, fs, args[0]);
    assert args[..0] == [];
    if first.outcome.Pass? {
      FailureIsFirstFailingArgument(step, first.fs, args[1..]);
      var k :| 0 <= k < |args[1..]| && ForEach(step, first.fs, args[1..][..k]).outcome.Pass? &&
                ForEach(step, first.fs, args[1..]) == Apply(step, ForEach(step, first.fs, args[1..][..k]).fs, args[1..][k]);
      var pre := args[..k + 1];
      assert pre[0] == args[0] && pre[1..] == args[1..][..k];
      assert ForEach(step, fs, pre) == ForEach(step, first.fs, args[1..][..k]);
      assert ForEach(step, fs, args) == ForEach(step, first.fs, args[1..]);
      assert args[k + 1] == args[1..][k];
    } else {
      assert ForEach(step, fs, args) == Apply(step, ForEach(step, fs, args[..0]).fs, args[0]);
    }
  }

  /** Every step keeps the filesystem well formed. */
  lemma ApplyPreserves(step: Step, fs: FS, arg: string)
    requires WellFormed(fs)
    ensures WellFormed(Apply(step, fs, arg).fs)
  {
    var p := Resolve(step.home, arg);
    match step
    case CopyInto(valid, home, destination, cmd) =>
      if valid(arg) && IsFile(fs, p) {
        var t := CopyTarget(fs, FileName(arg), destination);
        if CopyTo(fs, t, fs[p].lines).Some? {
          CopyToPreserves(fs, t, fs[p].lines);
        }
      }
    case RemoveFile(valid, home) =>
      if RmOne(valid, home, fs, arg).outcome.Pass? {
        DeletePreserves(fs, p);
      }
    case RemoveDir(valid, home) =>
      if RmdirOne(valid, home, fs, arg).outcome.Pass? {
        DeletePreserves(fs, p);
      }
    case MakeDir(home) =>
      if p !in fs && Mkdirs(fs, p).Some? {
        MkdirsPreserves(fs, p);
      }
  }

  lemma {:induction false} ForEachPreserves(step: Step, fs: FS, args: seq<string>)
    requires WellFormed(fs)
    ensures WellFormed(ForEach(step, fs, args).fs)
    decreases |args|
  {
    if args != [] {
      ApplyPreserves(step, fs, args[0]);
      ForEachPreserves(step, Apply(step, fs, args[0]).fs, args[1..]);
    }
  }

  /** `after` is `before` with some entries deleted, all regular files
      (`files`) or all directories, and every other entry of the same kind. */
  ghost predicate OnlyRemoves(before: FS, after: FS, files: bool) {
    && after.Keys <= before.Keys
    && (forall q :: q in before && q !in after ==> before[q].File? == files)
    && (forall q :: q in after ==> (after[q].File? <==> before[q].File?))
  }

  /** `rm` deletes only regular files and `rmdir` only directories. */
  lemma {:induction false} RemovalsOnlyRemove(step: Step, fs: FS, args: seq<string>)
    requires step.RemoveFile? || step.RemoveDir?
    ensures OnlyRemoves(fs, ForEach(step, fs, args).fs, step.RemoveFile?)
    decreases |args|
  {
    if args != [] {
      var p := Resolve(step.home, args[0]);
      var first := Apply(step, fs, args[0]);
      assert OnlyRemoves(fs, first.fs, step.RemoveFile?) by {
        if first.outcome.Pass? {
          assert first.fs == Delete(fs, p);
        }
      }
      if first.outcome.Pass? {
        RemovalsOnlyRemove(step, first.fs, args[1..]);
      }
    }
  }

  /** Nothing `mkdir` does removes an entry, changes its kind or changes a
      regular file; every entry it adds is a directory. */
  ghost predicate OnlyAdds(before: FS, after: FS) {
    && before.Keys <= after.Keys
    && (forall q :: q in before ==> (after[q].File? <==> before[q].File?))
    && (forall q :: IsFile(before, q) ==> after[q] == before[q])
    && (forall q :: q in after && q !in before ==> after[q].Dir?)
  }

  /** When `mkdir` completes, every argument is a directory. */
  lemma {:induction false} MkdirMakesEveryDirectory(home: Path, fs: FS, args: seq<string>)
    requires MkdirEffect(home, fs, args).outcome.Pass?
    ensures OnlyAdds(fs, MkdirEffect(home, fs, args).fs)
    ensures forall k :: 0 <= k < |args| ==> IsDir(MkdirEffect(home, fs, args).fs, Resolve(home, args[k]))
    decreases |args|
  {
    if args != [] {
      var first := MkdirOne(home, fs, args[0]);
      MkdirMakesEveryDirectory(home, first.fs, args[1..]);
      var last := MkdirEffect(home, first.fs, args[1..]).fs;
      forall k | 0 <= k < |args|
        ensures IsDir(last, Resolve(home, args[k]))
      {
        if k > 0 {
          assert args[k] == args[1..][k - 1];
        }
      }
    }
  }

  /** `mkdir` of a path reports "File exists" exactly when the path exists,
      and fails otherwise exactly when one of its ancestors is a regular file. */
  lemma MkdirOneFails(home: Path, fs: FS, arg: string)
    requires WellFormed(fs)
    ensures var p := Resolve(home, arg);
            MkdirOne(home, fs, arg).outcome.Fail? <==> p in fs || exists k :: 0 < k < |p| && IsFile(fs, p[..k])
  {
    var p := Resolve(home, arg);
    if p !in fs {
      assert p != [];
      if Mkdirs(fs, p).None? {
        MkdirsFailsBelowFile(fs, p);
      } else if k :| 0 < k < |p| && IsFile(fs, p[..k]) {
        MkdirsFailsOnFile(fs, p, k);
      }
    }
  }

  /** In a well-formed filesystem run from a directory `home`, `.` is that
      directory, `..` its parent (the root's being the root itself) and a
      lone separator the root: all three are directories. */
  lemma DotsAreDirectories(home: Path, fs: FS)
    requires RootIsDir(fs) && ParentsList(fs) && IsDir(fs, home)
    ensures IsDir(fs, Resolve(home, ".")) && IsDir(fs, Resolve(home, ".."))
    ensures Resolve(home, "\\") == [] && IsDir(fs, Resolve(home, "\\"))
  {
    ResolveDots(home);
    assert "\\"[1..] == [];
  }

  /** `mkdir .` and `mkdir ..` report "File exists". */
  lemma MkdirDotsExist(home: Path, fs: FS)
    requires RootIsDir(fs) && ParentsList(fs) && IsDir(fs, home)
    ensures MkdirOne(home, fs, ".") == Effect(fs, Fail(MkdirExists(".")))
    ensures MkdirOne(home, fs, "..") == Effect(fs, Fail(MkdirExists("..")))
  {
    DotsAreDirectories(home, fs);
    ResolveDots(home);
  }

  /** `rmdir ..` below the root reports "Directory not empty": the parent
      lists the directory the command runs in. */
  lemma RmdirParentNotEmpty(valid: Validity, home: Path, fs: FS)
    requires WellFormed(fs) && IsDir(fs, home) && home != [] && valid("..")
    ensures RmdirOne(valid, home, fs, "..") == Effect(fs, Fail(RmdirNotEmpty("..")))
  {
    ResolveDots(home);
    assert Name(home) in fs[Parent(home)].children;
  }

  /** Copying a regular file over an existing regular file replaces its lines
      and changes nothing else. */
  lemma CopyOverwrites(fs: FS, source: Path, destination: Path, cmd: string, name: string)
    requires WellFormed(fs) && IsFile(fs, source) && IsFile(fs, CopyTarget(fs, name, destination))
    ensures CopyOne(fs, source, destination, cmd, name) ==
              Effect(fs[CopyTarget(fs, name, destination) := File(fs[source].lines)], Pass)
  {
    assert CopyTarget(fs, name, destination) != [];
  }

  /** The loop over a single argument is that argument's step. */
  lemma ForEachSingle(step: Step, fs: FS, arg: string)
    ensures ForEach(step, fs, [arg]) == Apply(step, fs, arg)
  {
    assert [arg][1..] == [];
  }

  /** `mv` of one source is `cp` of it, then `rm` of it. */
  lemma MoveSingle(valid: Validity, home: Path, fs: FS, source: string, destination: string)
    ensures var copied := CopyEffect(valid, home, fs, [source, destination], "mv");
            MoveEffect(valid, home, fs, [source, destination]) ==
              if copied.outcome.Fail? then copied
              else Effect(RmOne(valid, home, copied.fs, source).fs, Pass)
    ensures valid(destination) ==>
              CopyEffect(valid, home, fs, [source, destination], "mv") ==
                Apply(CopyInto(valid, home, Resolve(home, destination), "mv"), fs, source)
  {
    var args := [source, destination];
    assert args[..1] == [source];
    ForEachSingle(RemoveFile(valid, home), CopyEffect(valid, home, fs, args, "mv").fs, source);
    ForEachSingle(CopyInto(valid, home, Resolve(home, destination), "mv"), fs, source);
  }

  /** `mv` of a directory leaves the filesystem as it was and reports success:
      `cp` ignores it and the failure of `rm` on it is dropped. */
  lemma MoveDirectoryIsNoOp(valid: Validity, home: Path, fs: FS, source: string, destination: string)
    requires valid(source) && valid(destination) && IsDir(fs, Resolve(home, source))
    ensures MoveEffect(valid, home, fs, [source, destination]) == Effect(fs, Pass)
  {
    MoveSingle(valid, home, fs, source, destination);
  }

  /** `mv` of a regular file to a different, writable place: the target holds
      its lines and the source is gone. */
  lemma MoveFile(valid: Validity, home: Path, fs: FS, source: string, destination: string)
    requires WellFormed(fs) && valid(source) && valid(destination)
    requires IsFile(fs, Resolve(home, source))
    requires var t := CopyTarget(fs, FileName(source), Resolve(home, destination));
             t != Resolve(home, source) && CopyTo(fs, t, fs[Resolve(home, source)].lines).Some?
    ensures var e := MoveEffect(valid, home, fs, [source, destination]);
            var t := CopyTarget(fs, FileName(source), Resolve(home, destination));
            && e.outcome.Pass?
            && Resolve(home, source) !in e.fs
            && IsFile(e.fs, t) && e.fs[t].lines == fs[Resolve(home, source)].lines
  {
    var p, d := Resolve(home, source), Resolve(home, destination);
    var t := CopyTarget(fs, FileName(source), d);
    var fs1 := CopyTo(fs, t, fs[p].lines).value;
    assert CopyEffect(valid, home, fs, [source, destination], "mv") == Effect(fs1, Pass) by {
      MoveSingle(valid, home, fs, source, destination);
    }
    CopyKeepsSource(fs, t, fs[p].lines, p);
    var fs2 := Delete(fs1, p);
    assert MoveEffect(valid, home, fs, [source, destination]) == Effect(fs2, Pass) by {
      MoveSingle(valid, home, fs, source, destination);
      assert RmOne(valid, home, fs1, source) == Effect(fs2, Pass);
    }
    assert t != Parent(p);
  }

  /** Copying to another path leaves a regular file where it was, in a
      directory. */
  lemma CopyKeepsSource(fs: FS, t: Path, lines: seq<string>, p: Path)
    requires WellFormed(fs) && CopyTo(fs, t, lines).Some? && IsFile(fs, p) && t != p
    ensures var fs1 := CopyTo(fs, t, lines).value;
            IsFile(fs1, p) && p != [] && IsDir(fs1, Parent(p)) && IsFile(fs1, t) && fs1[t].lines == lines
  {
    CopyToPreserves(fs, t, lines);
  }
}
