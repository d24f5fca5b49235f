/** The `more` pager (`moreText`): it shows a window of lines, then reads one
    input line that moves or resizes the window, until "q". */
module MorePager {
  import opened Wrappers
  import opened TerminalFaults
  import opened JavaStrings

  const PageSize: nat := 10

  /** What a pager session printed, how many input lines it read, and how it
      ended. */
  datatype PagerRun = PagerRun(printed: seq<string>, consumed: nat, outcome: Outcome<Fault>)

  function Min(a: nat, b: nat): nat { if a < b then a else b }

  function Max(a: int, b: int): int { if a < b then b else a }

  /** Where a display step stops: `display` lines on, at most the end; past
      the end nothing is shown. */
  function WindowEnd(n: nat, lastLine: nat, display: nat): (t: nat)
    requires lastLine <= n
    ensures lastLine <= t <= n
    ensures t - lastLine <= display
    ensures lastLine < n && display > 0 ==> lastLine < t
  {
    if lastLine < n then Min(display + lastLine, n) else lastLine
  }

  /** One step more on the printed lines and the input read. */
  function Continue(shown: seq<string>, run: PagerRun): PagerRun
  {
    PagerRun(shown + run.printed, run.consumed + 1, run.outcome)
  }

  /** The pager from offset `lastLine` with step `display` reading `input`:
      " " pages on, "" moves one line, "b" goes back two windows, "q" quits,
      anything else is an error, and no input left is Java's
      NoSuchElementException. */
  function Pager(data: seq<string>, lastLine: nat, display: nat, input: seq<string>): (run: PagerRun)
    requires lastLine <= |data|
    ensures run.consumed <= |input|
    ensures run.outcome == Fail(NoSuchElement) ==> run.consumed == |input|
    decreases |input|
  {
    var toLine := WindowEnd(|data|, lastLine, display);
    var shown := data[lastLine..toLine];
    if input == [] then PagerRun(shown, 0, Fail(NoSuchElement))
    else
      var c := input[0];
      if c == " " then Continue(shown, Pager(data, toLine, PageSize, input[1..]))
      else if c == "b" then Continue(shown, Pager(data, Max(0, toLine - 2 * PageSize), PageSize, input[1..]))
      else if c == "" then Continue(shown, Pager(data, toLine, 1, input[1..]))
      else if c == "q" then PagerRun(shown, 1, Pass)
      else PagerRun(shown, 1, Fail(MoreUnsupportedInput))
  }

  predicate IsForwardKey(c: string) { c == " " || c == "" }

  /** Keys that only move forward show the lines from `lastLine` on, each
      once, in order, with nothing skipped. */
  lemma {:induction false} ForwardKeysShowContiguousLines(data: seq<string>, lastLine: nat, display: nat, keys: seq<string>)
    requires lastLine <= |data|
    requires forall k :: 0 <= k < |keys| ==> IsForwardKey(keys[k])
    ensures exists m :: lastLine <= m <= |data| && Pager(data, lastLine, display, keys + ["q"]).printed == data[lastLine..m]
    decreases |keys|
  {
    var t := WindowEnd(|data|, lastLine, display);
    if keys == [] {
      assert keys + ["q"] == ["q"];
      assert Pager(data, lastLine, display, ["q"]).printed == data[lastLine..t];
    } else {
      assert (keys + ["q"])[0] == keys[0];
      assert (keys + ["q"])[1..] == keys[1..] + ["q"];
      var d := if keys[0] == " " then PageSize else 1;
      ForwardKeysShowContiguousLines(data, t, d, keys[1..]);
      var m :| t <= m <= |data| && Pager(data, t, d, keys[1..] + ["q"]).printed == data[t..m];
      assert data[lastLine..t] + data[t..m] == data[lastLine..m];
    }
  }

  /** `k` spaces then "q" from `lastLine`: `k + 1` pages, the end of the data
      at the latest. */
  lemma {:induction false} SpacesShowPages(data: seq<string>, lastLine: nat, k: nat)
    requires lastLine <= |data|
    ensures Pager(data, lastLine, PageSize, Spaces(k) + ["q"]) ==
              PagerRun(data[lastLine..Min(lastLine + PageSize * (k + 1), |data|)], k + 1, Pass)
    decreases k
  {
    var t := WindowEnd(|data|, lastLine, PageSize);
    if k == 0 {
      assert Spaces(0) + ["q"] == ["q"];
    } else {
      var input := Spaces(k) + ["q"];
      assert input[0] == " ";
      assert input[1..] == Spaces(k - 1) + ["q"];
      SpacesShowPages(data, t, k - 1);
      var end := Min(lastLine + PageSize * (k + 1), |data|);
      assert Min(t + PageSize * k, |data|) == end;
      assert data[lastLine..t] + data[t..end] == data[lastLine..end];
    }
  }

  function Spaces(k: nat): (s: seq<string>)
    ensures |s| == k && forall i :: 0 <= i < k ==> s[i] == " "
  {
    if k == 0 then [] else [" "] + Spaces(k - 1)
  }

  /** Reaching the end of the data does not end the pager: forward keys show
      nothing more and it waits for input until none is left. */
  lemma {:induction false} EndOfDataDoesNotStop(data: seq<string>, display: nat, keys: seq<string>)
    requires forall k :: 0 <= k < |keys| ==> IsForwardKey(keys[k])
    ensures Pager(data, |data|, display, keys) == PagerRun([], |keys|, Fail(NoSuchElement))
    decreases |keys|
  {
    if keys != [] {
      EndOfDataDoesNotStop(data, if keys[0] == " " then PageSize else 1, keys[1..]);
    }
  }

  /** "b" after the second page shows the first page again. */
  lemma BackShowsPreviousPage(data: seq<string>)
    requires |data| >= 2 * PageSize
    ensures Pager(data, 0, PageSize, [" ", "b", "q"]).printed ==
              data[..PageSize] + data[PageSize..2 * PageSize] + data[..PageSize]
  {
    var first, second := data[..PageSize], data[PageSize..2 * PageSize];
    var last := Pager(data, 0, PageSize, ["q"]);
    assert last.printed == first by {
      QuitShows(data, 0, PageSize);
      assert WindowEnd(|data|, 0, PageSize) == PageSize;
      assert data[0..PageSize] == first;
    }
    var back := Pager(data, PageSize, PageSize, ["b", "q"]);
    assert back.printed == second + last.printed by {
      MoveKeyShows(data, PageSize, PageSize, "b", ["q"]);
      assert WindowEnd(|data|, PageSize, PageSize) == 2 * PageSize;
      assert ["b"] + ["q"] == ["b", "q"];
    }
    var run := Pager(data, 0, PageSize, [" ", "b", "q"]);
    assert run.printed == first + back.printed by {
      MoveKeyShows(data, 0, PageSize, " ", ["b", "q"]);
      assert WindowEnd(|data|, 0, PageSize) == PageSize;
      assert [" "] + ["b", "q"] == [" ", "b", "q"];
      assert data[0..PageSize] == first;
    }
    ConcatAssoc(first, second, first);
  }

  lemma QuitShows(data: seq<string>, lastLine: nat, display: nat)
    requires lastLine <= |data|
    ensures Pager(data, lastLine, display, ["q"]) == PagerRun(data[lastLine..WindowEnd(|data|, lastLine, display)], 1, Pass)
  {
  }

  lemma MoveKeyShows(data: seq<string>, lastLine: nat, display: nat, c: string, rest: seq<string>)
    requires lastLine <= |data|
    requires c == " " || c == "b"
    ensures var t := WindowEnd(|data|, lastLine, display);
            Pager(data, lastLine, display, [c] + rest) ==
              Continue(data[lastLine..t], Pager(data, if c == " " then t else Max(0, t - 2 * PageSize), PageSize, rest))
  {
    assert ([c] + rest)[1..] == rest;
  }

  /** An input line other than the four keys ends the pager with an error
      after the current window. */
  lemma UnsupportedKeyStops(data: seq<string>, lastLine: nat, display: nat, c: string, rest: seq<string>)
    requires lastLine <= |data|
    requires c != " " && c != "b" && c != "" && c != "q"
    ensures Pager(data, lastLine, display, [c] + rest) ==
              PagerRun(data[lastLine..WindowEnd(|data|, lastLine, display)], 1, Fail(MoreUnsupportedInput))
  {
  }
}
