/** The `java.lang.String` operations the core relies on: `split` with no limit
    and `String.join`. */
module JavaStrings {
  /** Concatenation regrouped. */
  lemma ConcatAssoc<T>(a: seq<T>, b: seq<T>, c: seq<T>)
    ensures a + (b + c) == (a + b) + c
  {
  }

  /** Drops the trailing empty strings, as `String.split` does with limit 0. */
  function DropTrailingEmpty(ps: seq<string>): (r: seq<string>)
    ensures |r| <= |ps| && r == ps[..|r|]
    ensures r == [] || r[|r| - 1] != ""
    ensures forall k :: |r| <= k < |ps| ==> ps[k] == ""
  {
    if ps != [] && ps[|ps| - 1] == "" then DropTrailingEmpty(ps[..|ps| - 1]) else ps
  }

  /** The pieces of `s` between its `\n` characters, empty pieces kept. */
  function NewlinePieces(s: string): (ps: seq<string>)
    ensures |ps| >= 1
    ensures forall k :: 0 <= k < |ps| ==> '\n' !in ps[k]
    decreases |s|
  {
    if s == [] then [""]
    else if s[0] == '\n' then [""] + NewlinePieces(s[1..])
    else
      var ps := NewlinePieces(s[1..]);
      [[s[0]] + ps[0]] + ps[1..]
  }

  /** `s.split("\n")`. */
  function SplitNewline(s: string): seq<string>
  {
    if '\n' !in s then [s] else DropTrailingEmpty(NewlinePieces(s))
  }

  /** `\r` or `\n`. */
  predicate IsLineBreak(c: char) { c == '\r' || c == '\n' }

  predicate HasNoLineBreak(s: string) {
    forall k :: 0 <= k < |s| ==> !IsLineBreak(s[k])
  }

  /** Length of the leading run of line breaks. */
  function BreakRun(s: string): (n: nat)
    ensures n <= |s|
    ensures forall k :: 0 <= k < n ==> IsLineBreak(s[k])
    ensures n == |s| || !IsLineBreak(s[n])
  {
    if s == [] || !IsLineBreak(s[0]) then 0 else 1 + BreakRun(s[1..])
  }

  /** The pieces of `s` between its maximal runs of line breaks, empty pieces
      kept. */
  function BreakPieces(s: string): (ps: seq<string>)
    ensures |ps| >= 1
    decreases |s|
  {
    if s == [] then [""]
    else if IsLineBreak(s[0]) then [""] + BreakPieces(s[BreakRun(s)..])
    else
      var ps := BreakPieces(s[1..]);
      [[s[0]] + ps[0]] + ps[1..]
  }

  /** `s.split("[\\r\\n]+")`. */
  function SplitLineBreaks(s: string): seq<string>
  {
    if HasNoLineBreak(s) then [s] else DropTrailingEmpty(BreakPieces(s))
  }

  lemma {:induction false} BreakPiecesOfLine(x: string)
    requires HasNoLineBreak(x)
    ensures BreakPieces(x) == [x]
    decreases |x|
  {
    if x != [] {
      BreakPiecesOfLine(x[1..]);
      assert x == [x[0]] + x[1..];
    }
  }

  /** A line, a run of breaks, then text that does not start with a break: the
      line is the first piece. */
  lemma {:induction false} BreakPiecesAfterLine(x: string, breaks: string, rest: string)
    requires HasNoLineBreak(x)
    requires breaks != [] && forall k :: 0 <= k < |breaks| ==> IsLineBreak(breaks[k])
    requires rest == [] || !IsLineBreak(rest[0])
    ensures BreakPieces(x + breaks + rest) == [x] + BreakPieces(rest)
    decreases |x|
  {
    var s := x + breaks + rest;
    if x == [] {
      assert s == breaks + rest;
      BreakRunOf(breaks, rest);
      assert s[|breaks|..] == rest;
    } else {
      assert s[0] == x[0];
      assert s[1..] == x[1..] + breaks + rest;
      BreakPiecesAfterLine(x[1..], breaks, rest);
      assert x == [x[0]] + x[1..];
    }
  }

  lemma {:induction false} BreakRunOf(breaks: string, rest: string)
    requires forall k :: 0 <= k < |breaks| ==> IsLineBreak(breaks[k])
    requires rest == [] || !IsLineBreak(rest[0])
    ensures BreakRun(breaks + rest) == |breaks|
    decreases |breaks|
  {
    if breaks == [] {
      assert breaks + rest == rest;
    } else {
      assert (breaks + rest)[1..] == breaks[1..] + rest;
      BreakRunOf(breaks[1..], rest);
    }
  }

  /** `String.join(sep, parts)`. */
  function JoinWith(parts: seq<string>, sep: string): string
  {
    if parts == [] then "" else if |parts| == 1 then parts[0] else parts[0] + sep + JoinWith(parts[1..], sep)
  }
}
