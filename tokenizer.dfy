/** `Parser.splitInput`: the quote-aware tokenizer. Java runs the pattern
    `[^"'\s]+|"[^"]*"|'[^']*'` with `Matcher.find` and collects every match.
    Here the three alternatives are written out as predicates; `Spans` is the
    sequence of matches `find` reports, and `SplitInput` is the collecting loop. */
module Tokenizer {
  import opened Wrappers

  /** `\s` in a Java regular expression. */
  predicate IsSpace(c: char) {
    c == ' ' || c == '\t' || c == '\n' || c == '\U{000B}' || c == '\U{000C}' || c == '\r'
  }

  predicate IsQuote(c: char) { c == '"' || c == '\'' }

  /** A character of the class `[^"'\s]`. */
  predicate IsWordChar(c: char) { !IsQuote(c) && !IsSpace(c) }

  /** A match: the half-open range [start, end) of the subject string. */
  datatype Span = Span(start: nat, end: nat)

  /** End of the maximal run of word characters that starts at `i`. */
  function RunEnd(s: string, i: nat): (j: nat)
    requires i <= |s|
    ensures i <= j <= |s|
    ensures forall k :: i <= k < j ==> IsWordChar(s[k])
    ensures j == |s| || !IsWordChar(s[j])
    decreases |s| - i
  {
    if i == |s| || !IsWordChar(s[i]) then i else RunEnd(s, i + 1)
  }

  /** Index of the first `c` at or after `i`, if there is one. */
  function Find(s: string, i: nat, c: char): (r: Option<nat>)
    requires i <= |s|
    ensures r.Some? ==> i <= r.value < |s| && s[r.value] == c
    ensures r.Some? ==> forall k :: i <= k < r.value ==> s[k] != c
    ensures r.None? ==> forall k :: i <= k < |s| ==> s[k] != c
    decreases |s| - i
  {
    if i == |s| then None else if s[i] == c then Some(i) else Find(s, i + 1, c)
  }

  /** `sp` is a run of word characters that cannot be extended to the right. */
  ghost predicate IsWordSpan(s: string, sp: Span)
    requires sp.start <= sp.end <= |s|
  {
    && sp.start < sp.end
    && (forall k :: sp.start <= k < sp.end ==> IsWordChar(s[k]))
    && (sp.end == |s| || !IsWordChar(s[sp.end]))
  }

  /** `sp` is a quote, then no quote of the same kind, then the closing quote. */
  ghost predicate IsQuotedSpan(s: string, sp: Span)
    requires sp.start <= sp.end <= |s|
  {
    && sp.end - sp.start >= 2
    && IsQuote(s[sp.start])
    && s[sp.end - 1] == s[sp.start]
    && forall k :: sp.start < k < sp.end - 1 ==> s[k] != s[sp.start]
  }

  /** End of the match of the pattern that starts at `i`, trying the three
      alternatives in order; None when none of them matches there. */
  function MatchAt(s: string, i: nat): (r: Option<nat>)
    requires i < |s|
    ensures r.Some? ==> i < r.value <= |s|
    ensures r.Some? ==> (IsWordChar(s[i]) && IsWordSpan(s, Span(i, r.value))) || IsQuotedSpan(s, Span(i, r.value))
    ensures r.None? <==> IsSpace(s[i]) || (IsQuote(s[i]) && Find(s, i + 1, s[i]).None?)
  {
    if IsWordChar(s[i]) then Some(RunEnd(s, i + 1))
    else if IsQuote(s[i]) then
      match Find(s, i + 1, s[i])
      case Some(j) => Some(j + 1)
      case None => None
    else None
  }

  /** `sp` is the match of the pattern that starts at `sp.start`. */
  ghost predicate IsMatch(s: string, sp: Span) {
    sp.start < sp.end <= |s| && MatchAt(s, sp.start) == Some(sp.end)
  }

  /** The matches `Matcher.find` reports when it searches from position `i`:
      inside the subject, non-empty, left to right and not overlapping, each one
      a match of the pattern at its start. */
  function Spans(s: string, i: nat): (sp: seq<Span>)
    requires i <= |s|
    ensures forall k :: 0 <= k < |sp| ==> i <= sp[k].start && IsMatch(s, sp[k])
    ensures forall k :: 0 <= k < |sp| - 1 ==> sp[k].end <= sp[k + 1].start
    decreases |s| - i
  {
    if i == |s| then []
    else
      match MatchAt(s, i)
      case Some(e) => [Span(i, e)] + Spans(s, e)
      case None => Spans(s, i + 1)
  }

  /** The text of each span. */
  function Texts(s: string, sp: seq<Span>): (ts: seq<string>)
    requires forall k :: 0 <= k < |sp| ==> sp[k].start <= sp[k].end <= |s|
    ensures |ts| == |sp|
  {
    seq(|sp|, k requires 0 <= k < |sp| => s[sp[k].start..sp[k].end])
  }

  /** What `splitInput` returns: the text of every match, in order. */
  function Tokens(s: string): seq<string>
  {
    Texts(s, Spans(s, 0))
  }

  /** `splitInput`: the `while (regexMatcher.find())` loop. At each position the
      pattern either matches, and the match is appended, or the search moves on
      by one character. */
  method SplitInput(subject: string) returns (matchList: seq<string>)
    ensures matchList == Tokens(subject)
  {
    matchList := [];
    var i := 0;
    while i < |subject|
      invariant 0 <= i <= |subject|
      invariant matchList + Texts(subject, Spans(subject, i)) == Tokens(subject)
    {
      match MatchAt(subject, i) {
        case Some(e) =>
          TextsCons(subject, Span(i, e), Spans(subject, e));
          matchList := matchList + [subject[i..e]];
          i := e;
        case None =>
          i := i + 1;
      }
    }
  }

  lemma TextsCons(s: string, first: Span, rest: seq<Span>)
    requires first.start <= first.end <= |s|
    requires forall k :: 0 <= k < |rest| ==> rest[k].start <= rest[k].end <= |s|
    ensures Texts(s, [first] + rest) == [s[first.start..first.end]] + Texts(s, rest)
  {
    var all := [first] + rest;
    assert forall k :: 0 < k < |all| ==> all[k] == rest[k - 1];
  }

  /** A word token: non-empty, no quotes, no whitespace. */
  predicate IsWordToken(t: string) {
    t != [] && forall k :: 0 <= k < |t| ==> IsWordChar(t[k])
  }

  /** A quoted token: its quotes retained, no quote of the same kind inside. */
  predicate IsQuotedToken(t: string) {
    |t| >= 2 && IsQuote(t[0]) && t[|t| - 1] == t[0] && forall k :: 0 < k < |t| - 1 ==> t[k] != t[0]
  }

  /** Every token is non-empty and has one of the three shapes; quoted tokens
      keep their surrounding quotes. */
  lemma TokenShapes(s: string)
    ensures forall t :: t in Tokens(s) ==> IsWordToken(t) || IsQuotedToken(t)
  {
    var sp := Spans(s, 0);
    forall k | 0 <= k < |sp|
      ensures IsWordToken(Tokens(s)[k]) || IsQuotedToken(Tokens(s)[k])
    {
      var t := s[sp[k].start..sp[k].end];
      assert Tokens(s)[k] == t;
      if IsWordChar(s[sp[k].start]) {
        assert IsWordSpan(s, sp[k]);
        assert forall j :: 0 <= j < |t| ==> t[j] == s[sp[k].start + j];
      } else {
        assert IsQuotedSpan(s, sp[k]);
        assert forall j :: 0 <= j < |t| ==> t[j] == s[sp[k].start + j];
      }
    }
  }

  /** Position `p` lies inside one of the spans. */
  ghost predicate Covered(sp: seq<Span>, p: nat) {
    exists k :: 0 <= k < |sp| && sp[k].start <= p < sp[k].end
  }

  /** The characters no token contains are whitespace and quotes that have no
      closing partner after them: every other character ends up in a token. */
  lemma SkippedCharacters(s: string)
    ensures forall p :: 0 <= p < |s| && !Covered(Spans(s, 0), p) ==>
              IsSpace(s[p]) || (IsQuote(s[p]) && Find(s, p + 1, s[p]).None?)
  {
    forall p | 0 <= p < |s|
      ensures Covered(Spans(s, 0), p) || IsSpace(s[p]) || (IsQuote(s[p]) && Find(s, p + 1, s[p]).None?)
    {
      CoveredOrSkipped(s, 0, p);
    }
  }

  /** One position at or after `i`: a match found from `i` covers it, or no
      match can start there. */
  lemma {:induction false} CoveredOrSkipped(s: string, i: nat, p: nat)
    requires i <= p < |s|
    ensures Covered(Spans(s, i), p) || IsSpace(s[p]) || (IsQuote(s[p]) && Find(s, p + 1, s[p]).None?)
    decreases |s| - i
  {
    match MatchAt(s, i)
    case Some(e) =>
      if p < e {
        assert Spans(s, i)[0] == Span(i, e);
      } else {
        CoveredOrSkipped(s, e, p);
        if Covered(Spans(s, e), p) {
          CoveredAfterMatch(s, i, e, p);
        }
      }
    case None =>
      if p > i {
        CoveredOrSkipped(s, i + 1, p);
      }
  }

  lemma CoveredAfterMatch(s: string, i: nat, e: nat, p: nat)
    requires i < |s| && MatchAt(s, i) == Some(e)
    requires Covered(Spans(s, e), p)
    ensures Covered(Spans(s, i), p)
  {
    var sp, rest := Spans(s, i), Spans(s, e);
    var k :| 0 <= k < |rest| && rest[k].start <= p < rest[k].end;
    assert sp[k + 1] == rest[k];
  }

  /** No word character sits just before the start of a word span. */
  ghost predicate LeftMaximal(s: string, sp: Span)
    requires sp.start < |s|
  {
    sp.start == 0 || !IsWordChar(s[sp.start - 1]) || !IsWordChar(s[sp.start])
  }

  /** A word token is a maximal run: the characters just before and just after it
      are not word characters. */
  lemma {:induction false} WordSpansMaximal(s: string, i: nat)
    requires i <= |s|
    requires i == 0 || i == |s| || !IsWordChar(s[i - 1]) || !IsWordChar(s[i])
    ensures forall k :: 0 <= k < |Spans(s, i)| ==> LeftMaximal(s, Spans(s, i)[k])
    decreases |s| - i
  {
    if i < |s| {
      match MatchAt(s, i)
      case Some(e) =>
        WordSpansMaximal(s, e);
        var sp := Spans(s, i);
        assert sp == [Span(i, e)] + Spans(s, e);
        assert forall k :: 0 < k < |sp| ==> sp[k] == Spans(s, e)[k - 1];
      case None =>
        WordSpansMaximal(s, i + 1);
    }
  }

  /** The tokens of the whole input: a word token is a run of word characters
      that cannot be extended either way, and no word character is dropped. */
  lemma TokensOfInput(s: string)
    ensures forall k :: 0 <= k < |Spans(s, 0)| && IsWordChar(s[Spans(s, 0)[k].start]) ==>
              IsWordSpan(s, Spans(s, 0)[k]) && LeftMaximal(s, Spans(s, 0)[k])
    ensures forall p :: 0 <= p < |s| && IsWordChar(s[p]) ==> Covered(Spans(s, 0), p)
  {
    WordSpansMaximal(s, 0);
    SkippedCharacters(s);
  }
}
