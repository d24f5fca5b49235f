/** How a path string is seen by `java.io.File` and `java.nio.file.Paths` on the
    host. Whether `Paths.get` accepts a string depends on the host operating
    system and is left uninterpreted: every definition and lemma that needs it
    takes it as a parameter of type `Validity`. The component structure is the
    Windows one the source assumes: `\` and `/` separate names, repeated or
    trailing separators are ignored, and `.` and `..` are resolved by the
    names alone, the parent of the root being the root. */
module HostPath {

  /** `Paths.get(s)` returns normally exactly when `valid(s)`. */
  type Validity = string -> bool

  predicate IsSeparator(c: char) { c == '\\' || c == '/' }

  /** Length of the leading run of non-separator characters of `s`. */
  function SegmentLength(s: string): (n: nat)
    ensures n <= |s|
    ensures forall k :: 0 <= k < n ==> !IsSeparator(s[k])
    ensures n == |s| || IsSeparator(s[n])
  {
    if s == [] || IsSeparator(s[0]) then 0 else 1 + SegmentLength(s[1..])
  }

  /** The names a path string consists of, in order: what `File` keeps after
      normalising the separators. Every name is non-empty and separator-free. */
  function Components(s: string): (cs: seq<string>)
    ensures forall i :: 0 <= i < |cs| ==> IsName(cs[i])
    decreases |s|
  {
    if s == [] then []
    else if IsSeparator(s[0]) then Components(s[1..])
    else
      var n := SegmentLength(s);
      [s[..n]] + Components(s[n..])
  }

  predicate IsName(n: string) {
    n != [] && forall k :: 0 <= k < |n| ==> !IsSeparator(n[k])
  }

  /** `new File(s).getName()`: the last name of the path, or "" when it has none. */
  function FileName(s: string): (name: string)
    ensures name == "" || IsName(name)
  {
    var cs := Components(s);
    if cs == [] then "" else cs[|cs| - 1]
  }

  /** `.` names the directory it is in and `..` that directory's parent. */
  predicate IsDotName(n: string) { n == "." || n == ".." }

  /** The names of `names`, one after the other, taken from the directory
      `dir`: `.` stays, `..` moves to the parent (the root stays the root),
      and any other name moves into the entry of that name. */
  function Descend(dir: seq<string>, names: seq<string>): seq<string>
    decreases |names|
  {
    if names == [] then dir
    else if names[0] == "." then Descend(dir, names[1..])
    else if names[0] == ".." then Descend(if dir == [] then [] else dir[..|dir| - 1], names[1..])
    else Descend(dir + [names[0]], names[1..])
  }

  /** The entry `new File(s)` stands for when the process runs in the
      directory `home` (names from the root): a string that starts with a
      separator is taken from the root, any other from `home`. */
  function Resolve(home: seq<string>, s: string): seq<string>
  {
    Descend(if s != [] && IsSeparator(s[0]) then [] else home, Components(s))
  }

  /** Without dot names, descending appends the names. */
  lemma {:induction false} DescendPlain(dir: seq<string>, names: seq<string>)
    requires forall i :: 0 <= i < |names| ==> !IsDotName(names[i])
    ensures Descend(dir, names) == dir + names
    decreases |names|
  {
    if names != [] {
      DescendPlain(dir + [names[0]], names[1..]);
      assert dir + [names[0]] + names[1..] == dir + names;
    }
  }

  /** A relative path without dot names is its names below `home`. */
  lemma ResolveRelative(home: seq<string>, s: string)
    requires s == [] || !IsSeparator(s[0])
    requires forall i :: 0 <= i < |Components(s)| ==> !IsDotName(Components(s)[i])
    ensures Resolve(home, s) == home + Components(s)
  {
    DescendPlain(home, Components(s));
  }

  /** `.` stands for `home` and `..` for its parent; the root is its own
      parent. */
  lemma ResolveDots(home: seq<string>)
    ensures Resolve(home, ".") == home
    ensures Resolve(home, "..") == if home == [] then [] else home[..|home| - 1]
    ensures FileName(".") == "." && FileName("..") == ".."
  {
    ComponentsOfName(".", "");
    assert "." + "" == ".";
    assert Components(".") == ["."];
    assert Descend(home, ["."]) == Descend(home, []);
    ComponentsOfName("..", "");
    assert ".." + "" == "..";
    assert Components("..") == [".."];
    var up := if home == [] then [] else home[..|home| - 1];
    assert Descend(home, [".."]) == Descend(up, []);
  }

  /** The path string that `dir.resolve(name)` denotes, for a separator-free name. */
  function Join(cs: seq<string>): string
  {
    if cs == [] then "" else if |cs| == 1 then cs[0] else cs[0] + "\\" + Join(cs[1..])
  }

  /** Splitting a joined path gives back its names: `Components` inverts `Join`. */
  lemma {:induction false} ComponentsOfJoin(cs: seq<string>)
    requires forall i :: 0 <= i < |cs| ==> IsName(cs[i])
    ensures Components(Join(cs)) == cs
  {
    if |cs| == 1 {
      ComponentsOfName(cs[0], "");
      assert cs[0] + "" == cs[0];
    } else if |cs| > 1 {
      var rest := "\\" + Join(cs[1..]);
      ComponentsOfName(cs[0], rest);
      assert Join(cs) == cs[0] + rest;
      assert Components(rest) == Components(Join(cs[1..])) by {
        assert rest[1..] == Join(cs[1..]);
      }
      ComponentsOfJoin(cs[1..]);
    }
  }

  /** A name followed by text that starts with a separator (or nothing) is the
      first component. */
  lemma ComponentsOfName(n: string, rest: string)
    requires IsName(n)
    requires rest == [] || IsSeparator(rest[0])
    ensures Components(n + rest) == [n] + Components(rest)
  {
    var s := n + rest;
    SegmentPrefix(n, rest);
    assert s[..|n|] == n;
    assert s[|n|..] == rest;
  }

  lemma SegmentPrefix(n: string, rest: string)
    requires IsName(n)
    requires rest == [] || IsSeparator(rest[0])
    ensures SegmentLength(n + rest) == |n|
  {
    if |n| > 1 {
      assert IsName(n[1..]);
      assert (n + rest)[1..] == n[1..] + rest;
      SegmentPrefix(n[1..], rest);
    } else {
      assert (n + rest)[1..] == rest;
    }
  }
}
