/** `Parser.IdentifyPath`, `Parser.isParsable` and `Parser.isValidMultipleFiles`:
    the three-tier classification of an argument as one file, a wildcard over
    several files, a directory, or nothing valid. Host validity (`Paths.get`) is
    the parameter `valid`. */
module PathClassifier {
  import opened HostPath

  datatype PathType = SingleFile | MultipleFiles | Directory | Invalid

  /** A character of the class `[^<>:"/\\|?*\0]`. */
  predicate IsNameChar(c: char) {
    c !in {'<', '>', ':', '"', '/', '\\', '|', '?', '*', '\0'}
  }

  /** One side of the dot in the pattern: `\*` or `[^<>:"/\\|?*\0]+`. */
  predicate IsPatternPart(x: string) {
    x == "*" || (x != [] && forall k :: 0 <= k < |x| ==> IsNameChar(x[k]))
  }

  /** `isValidMultipleFiles`: the whole string matches
      `(\*|[^<>:"/\\|?*\0]+)\.(\*|[^<>:"/\\|?*\0]+)` for some choice of the dot. */
  predicate IsValidMultipleFiles(str: string) {
    exists k :: 0 <= k < |str| && str[k] == '.' && IsPatternPart(str[..k]) && IsPatternPart(str[k + 1..])
  }

  /** `isParsable`: Invalid when `Paths.get` rejects the string, otherwise
      SingleFile when the file name contains a dot and Directory when not. */
  function IsParsable(valid: Validity, str: string): PathType
  {
    if !valid(str) then Invalid
    else if '.' in FileName(str) then SingleFile
    else Directory
  }

  /** Number of characters up to and including the last `\`; 0 when there is
      none (`lastIndexOf('\\') + 1`). */
  function WildcardCut(path: string): (cut: nat)
    ensures cut <= |path|
    ensures cut == 0 || path[cut - 1] == '\\'
    ensures forall k :: cut <= k < |path| ==> path[k] != '\\'
  {
    if path == [] then 0
    else if path[|path| - 1] == '\\' then |path|
    else WildcardCut(path[..|path| - 1])
  }

  /** `IdentifyPath` once the quotes are dealt with. */
  function ClassifyUnquoted(valid: Validity, path: string): PathType
  {
    if path == "~" || path == ".." then Directory
    else
      var initial := IsParsable(valid, path);
      if initial != Invalid then initial
      else
        var cut := WildcardCut(path);
        if IsParsable(valid, path[..cut]) != Invalid && IsValidMultipleFiles(path[cut..])
        then MultipleFiles
        else Invalid
  }

  predicate IsQuoteChar(c: char) { c == '\'' || c == '"' }

  /** The string begins and ends with the same kind of quote. */
  predicate QuoteWrapped(path: string) {
    path != [] && IsQuoteChar(path[0]) && path[|path| - 1] == path[0]
  }

  /** `IdentifyPath`: empty strings and a lone quote are Invalid; one layer of
      matching quotes is removed, and a string that is nothing but the two quotes
      is Invalid. */
  function IdentifyPath(valid: Validity, path: string): PathType
  {
    if |path| == 0 then Invalid
    else if |path| == 1 && IsQuoteChar(path[0]) then Invalid
    else if QuoteWrapped(path) then
      if |path| > 2 then ClassifyUnquoted(valid, path[1..|path| - 1]) else Invalid
    else ClassifyUnquoted(valid, path)
  }

  /** The strings with no path in them. */
  lemma DegenerateArgumentsInvalid(valid: Validity)
    ensures IdentifyPath(valid, "") == Invalid
    ensures IdentifyPath(valid, "'") == Invalid && IdentifyPath(valid, "\"") == Invalid
    ensures IdentifyPath(valid, "''") == Invalid && IdentifyPath(valid, "\"\"") == Invalid
  {
  }

  /** Quoting an argument that is not already quoted does not change how it is
      classified: exactly one layer of quotes is removed. */
  lemma QuotingIsTransparent(valid: Validity, q: char, x: string)
    requires IsQuoteChar(q)
    requires x != [] && !QuoteWrapped(x) && !(|x| == 1 && IsQuoteChar(x[0]))
    ensures IdentifyPath(valid, [q] + x + [q]) == IdentifyPath(valid, x)
  {
    var w := [q] + x + [q];
    assert w[1..|w| - 1] == x;
  }

  /** After the quotes, `~` and `..` are directories, and a string the host
      accepts is a file when its name has a dot and a directory otherwise: such a
      string is never taken for several files. */
  lemma HostValidClassification(valid: Validity, x: string)
    requires valid(x) && x != "~" && x != ".."
    ensures ClassifyUnquoted(valid, x) == (if '.' in FileName(x) then SingleFile else Directory)
    ensures ClassifyUnquoted(valid, "~") == Directory && ClassifyUnquoted(valid, "..") == Directory
  {
  }

  /** The wildcard tier: a string is several files exactly when the host rejects
      it, the host accepts everything up to its last `\` (possibly nothing), and
      what follows matches the wildcard file-name pattern. Everything else the
      host rejects is Invalid. */
  lemma MultipleFilesExactly(valid: Validity, x: string)
    requires x != "~" && x != ".."
    ensures ClassifyUnquoted(valid, x) == MultipleFiles <==>
              !valid(x) && valid(x[..WildcardCut(x)]) && IsValidMultipleFiles(x[WildcardCut(x)..])
    ensures !valid(x) ==> ClassifyUnquoted(valid, x) in {MultipleFiles, Invalid}
  {
  }

  /** A host that accepts every path whose file name is made of ordinary name
      characters below an accepted directory. */
  ghost predicate AcceptsOrdinaryNames(valid: Validity) {
    forall d: string, n: string {:trigger valid(d + n)} ::
      valid(d) && (forall k :: 0 <= k < |n| ==> IsNameChar(n[k])) ==> valid(d + n)
  }

  /** On such a host the wildcard tier only fires for a real pattern: the file
      name of a MultipleFiles argument contains a `*`. */
  lemma MultipleFilesHasStar(valid: Validity, x: string)
    requires AcceptsOrdinaryNames(valid)
    requires ClassifyUnquoted(valid, x) == MultipleFiles
    ensures '*' in x[WildcardCut(x)..]
  {
    var cut := WildcardCut(x);
    var name := x[cut..];
    if '*' !in name {
      var k :| 0 <= k < |name| && name[k] == '.' && IsPatternPart(name[..k]) && IsPatternPart(name[k + 1..]);
      OrdinaryName(name, k);
      OrdinaryNameAccepted(valid, x, cut);
      assert false;
    }
  }

  lemma OrdinaryName(name: string, k: nat)
    requires '*' !in name
    requires k < |name| && name[k] == '.' && IsPatternPart(name[..k]) && IsPatternPart(name[k + 1..])
    ensures forall j :: 0 <= j < |name| ==> IsNameChar(name[j])
  {
    var before, after := name[..k], name[k + 1..];
    assert forall j :: 0 <= j < |before| ==> before[j] in name;
    assert forall j :: 0 <= j < |after| ==> after[j] in name;
    forall j | 0 <= j < |name|
      ensures IsNameChar(name[j])
    {
      if j < k {
        assert name[..k][j] == name[j];
      } else if j > k {
        assert name[k + 1..][j - k - 1] == name[j];
      }
    }
  }

  lemma OrdinaryNameAccepted(valid: Validity, x: string, cut: nat)
    requires cut <= |x| && AcceptsOrdinaryNames(valid) && valid(x[..cut])
    requires forall j :: 0 <= j < |x[cut..]| ==> IsNameChar(x[cut..][j])
    ensures valid(x)
  {
    assert x == x[..cut] + x[cut..];
  }
}
