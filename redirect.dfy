/** The first step of `Parser.tryParse`: `input.split(">>|>")`. The pattern is
    searched left to right, `>>` is tried before `>`, and Java's `split` with no
    limit drops the trailing empty pieces, except that a string without any match
    comes back whole. */
module Redirection {
  import opened JavaStrings

  /** Length of the operator matched at the start of `s`: `>>` is preferred. */
  function OperatorLength(s: string): (n: nat)
    requires s != [] && s[0] == '>'
    ensures 1 <= n <= |s|
  {
    if |s| > 1 && s[1] == '>' then 2 else 1
  }

  /** The pieces between the operator matches, with every empty piece kept. */
  function Pieces(s: string): (ps: seq<string>)
    ensures |ps| >= 1
    ensures forall k :: 0 <= k < |ps| ==> '>' !in ps[k]
    decreases |s|
  {
    if s == [] then [""]
    else if s[0] == '>' then [""] + Pieces(s[OperatorLength(s)..])
    else
      var ps := Pieces(s[1..]);
      [[s[0]] + ps[0]] + ps[1..]
  }

  /** The operator matches, in order. */
  function Operators(s: string): (ops: seq<string>)
    ensures forall k :: 0 <= k < |ops| ==> ops[k] == ">" || ops[k] == ">>"
    decreases |s|
  {
    if s == [] then []
    else if s[0] == '>' then [s[..OperatorLength(s)]] + Operators(s[OperatorLength(s)..])
    else Operators(s[1..])
  }

  /** The pieces with the operators put back between them. */
  function Interleave(ps: seq<string>, ops: seq<string>): string
    requires |ps| == |ops| + 1
    decreases |ops|
  {
    if ops == [] then ps[0] else ps[0] + ops[0] + Interleave(ps[1..], ops[1..])
  }

  /** Splitting loses nothing: there is one piece more than there are operators,
      and putting the operators back between the pieces gives the input. */
  lemma {:induction false} PiecesRoundTrip(s: string)
    ensures |Pieces(s)| == |Operators(s)| + 1
    ensures Interleave(Pieces(s), Operators(s)) == s
    decreases |s|
  {
    if s == [] {
    } else if s[0] == '>' {
      var n := OperatorLength(s);
      var rest := s[n..];
      PiecesRoundTrip(rest);
      var ps, ops := Pieces(s), Operators(s);
      assert ps == [""] + Pieces(rest) && ops == [s[..n]] + Operators(rest);
      assert ps[1..] == Pieces(rest) && ops[1..] == Operators(rest);
      calc {
        Interleave(ps, ops);
        ps[0] + ops[0] + Interleave(ps[1..], ops[1..]);
        "" + s[..n] + rest;
        { assert "" + s[..n] == s[..n]; }
        s[..n] + s[n..];
        { assert s == s[..n] + s[n..]; }
        s;
      }
    } else {
      PiecesRoundTrip(s[1..]);
      var ps, ops := Pieces(s[1..]), Operators(s[1..]);
      assert Operators(s) == ops;
      InterleaveHead([s[0]], ps, ops);
      assert s == [s[0]] + s[1..];
    }
  }

  lemma InterleaveHead(c: string, ps: seq<string>, ops: seq<string>)
    requires |ps| == |ops| + 1
    ensures Interleave([c + ps[0]] + ps[1..], ops) == c + Interleave(ps, ops)
  {
    var qs := [c + ps[0]] + ps[1..];
    if ops != [] {
      assert qs[1..] == ps[1..];
      assert Interleave(qs, ops) == (c + ps[0]) + ops[0] + Interleave(ps[1..], ops[1..]);
    }
  }

  /** `input.split(">>|>")`. */
  function SplitRedirect(s: string): seq<string>
  {
    if '>' !in s then [s] else DropTrailingEmpty(Pieces(s))
  }

  /** `s` is made of `>` characters only. */
  predicate OnlyOperators(s: string) {
    forall k :: 0 <= k < |s| ==> s[k] == '>'
  }

  lemma {:induction false} PiecesOfOperatorsAreEmpty(s: string)
    requires OnlyOperators(s)
    ensures forall k :: 0 <= k < |Pieces(s)| ==> Pieces(s)[k] == ""
    decreases |s|
  {
    if s != [] {
      PiecesOfOperatorsAreEmpty(s[OperatorLength(s)..]);
    }
  }

  lemma {:induction false} SomePieceNonEmpty(s: string, j: nat)
    requires j < |s| && s[j] != '>'
    ensures exists k :: 0 <= k < |Pieces(s)| && Pieces(s)[k] != ""
    decreases |s|
  {
    if s[0] == '>' {
      var n := OperatorLength(s);
      SomePieceNonEmpty(s[n..], j - n);
      var k :| 0 <= k < |Pieces(s[n..])| && Pieces(s[n..])[k] != "";
      assert Pieces(s)[k + 1] == Pieces(s[n..])[k];
    } else {
      assert Pieces(s)[0] != "";
    }
  }

  /** The split comes back empty exactly for a non-empty input made of `>` only;
      it then has no first part at all. */
  lemma SplitEmptyExactly(s: string)
    ensures SplitRedirect(s) == [] <==> s != [] && OnlyOperators(s)
  {
    if s != [] && OnlyOperators(s) {
      assert s[0] == '>';
      PiecesOfOperatorsAreEmpty(s);
    } else if '>' in s {
      var j :| 0 <= j < |s| && s[j] != '>';
      SomePieceNonEmpty(s, j);
    }
  }

  /** Index of the first `>` of `s`, or `|s|` when there is none. */
  function FirstOperator(s: string): (i: nat)
    ensures i <= |s|
    ensures forall k :: 0 <= k < i ==> s[k] != '>'
    ensures i < |s| ==> s[i] == '>'
  {
    if s == [] || s[0] == '>' then 0 else 1 + FirstOperator(s[1..])
  }

  lemma {:induction false} FirstPieceIsPrefix(s: string)
    ensures Pieces(s)[0] == s[..FirstOperator(s)]
    decreases |s|
  {
    if s != [] && s[0] != '>' {
      FirstPieceIsPrefix(s[1..]);
    }
  }

  /** When the split has parts, the first one, the command text, is exactly the
      input up to its first `>`. */
  lemma CommandTextIsPrefix(s: string)
    ensures SplitRedirect(s) != [] ==> SplitRedirect(s)[0] == s[..FirstOperator(s)]
  {
    FirstPieceIsPrefix(s);
  }

  /** A command followed by one operator and a target splits into exactly those
      two texts. */
  lemma {:induction false} SplitSingleRedirect(command: string, op: string, target: string)
    requires '>' !in command && '>' !in target
    requires op == ">" || op == ">>"
    requires target != "" && target[0] != '>'
    ensures SplitRedirect(command + op + target) == [command, target]
  {
    var rest := op + target;
    var s := command + rest;
    assert command + op + target == s;
    assert s[|command|] == '>';
    PiecesAfterText(command, rest);
    assert OperatorLength(rest) == |op|;
    assert rest[|op|..] == target;
    NoOperatorPieces(target);
    assert Pieces(s) == [command, target];
  }

  /** A `>` at the end with nothing after it vanishes: the split is the command
      text alone, as if no redirection had been written. */
  lemma {:induction false} DanglingOperatorVanishes(command: string, op: string)
    requires '>' !in command && command != ""
    requires op == ">" || op == ">>"
    ensures SplitRedirect(command + op) == [command]
  {
    var s := command + op;
    assert s[|command|] == '>';
    PiecesAfterText(command, op);
    assert op[OperatorLength(op)..] == "";
    assert Pieces(s) == [command, ""];
    assert DropTrailingEmpty([command, ""]) == DropTrailingEmpty([command]);
  }

  lemma {:induction false} NoOperatorPieces(s: string)
    requires '>' !in s
    ensures Pieces(s) == [s]
    decreases |s|
  {
    if s != [] {
      NoOperatorPieces(s[1..]);
      assert s == [s[0]] + s[1..];
    }
  }

  lemma {:induction false} PiecesAfterText(text: string, rest: string)
    requires '>' !in text && rest != [] && rest[0] == '>'
    ensures Pieces(text + rest) == [text] + Pieces(rest[OperatorLength(rest)..])
    decreases |text|
  {
    if text == [] {
      assert text + rest == rest;
    } else {
      assert text[0] in text;
      assert (text + rest)[0] == text[0] && (text + rest)[1..] == text[1..] + rest;
      PiecesAfterText(text[1..], rest);
      assert text == [text[0]] + text[1..];
    }
  }
}
