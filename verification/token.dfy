/**
 * The marker-token extraction of the classifier: the regular expression
 * `(?<type>@backstage\/\w+)` applied with `String.prototype.match` to the
 * rendered declaration text of a `$$type` property.
 *
 * A non-global JavaScript match reports the leftmost position at which the
 * pattern matches; at that position the greedy `\w+` takes the longest run of
 * word characters.  Without the `u` flag, `\w` is exactly `[A-Za-z0-9_]`, so a
 * `-` ends the token.
 */
module TokenPattern {
  import opened Options

  /** The literal part of the pattern. */
  const Scope: string := "@backstage/"

  /** `\w`: an ASCII letter, a digit or an underscore. */
  predicate IsWordChar(c: char) {
    ('A' <= c <= 'Z') || ('a' <= c <= 'z') || ('0' <= c <= '9') || c == '_'
  }

  /** The pattern matches starting at position `i`: the scope, then at least one word character. */
  predicate MatchesAt(s: string, i: nat) {
    i + |Scope| < |s| && s[i..i + |Scope|] == Scope && IsWordChar(s[i + |Scope|])
  }

  /** `i` is the position a non-global match reports. */
  predicate IsLeftmostMatch(s: string, i: nat) {
    MatchesAt(s, i) && forall j: nat :: j < i ==> !MatchesAt(s, j)
  }

  /** The shape of every token the pattern can produce. */
  predicate IsMarkerToken(t: string) {
    |t| > |Scope| && t[..|Scope|] == Scope &&
    forall k :: |Scope| <= k < |t| ==> IsWordChar(t[k])
  }

  /** Length of the longest run of word characters starting at `j` (what greedy `\w*` consumes). */
  function WordRun(s: string, j: nat): (n: nat)
    requires j <= |s|
    ensures j + n <= |s|
    ensures forall k :: j <= k < j + n ==> IsWordChar(s[k])
    ensures j + n == |s| || !IsWordChar(s[j + n])
    decreases |s| - j
  {
    if j < |s| && IsWordChar(s[j]) then 1 + WordRun(s, j + 1) else 0
  }

  /** The first position at or after `from` where the pattern matches. */
  function FindMatch(s: string, from: nat): (r: Option<nat>)
    ensures r.Some? ==> from <= r.value && MatchesAt(s, r.value)
    ensures forall j: nat :: from <= j && (r.None? || j < r.value) ==> !MatchesAt(s, j)
    decreases if from <= |s| then |s| - from else 0
  {
    if |s| <= from + |Scope| then None
    else if MatchesAt(s, from) then Some(from)
    else FindMatch(s, from + 1)
  }

  /** The token a match at `i` captures: the scope and the whole word run after it. */
  function TokenAt(s: string, i: nat): (t: string)
    requires MatchesAt(s, i)
    ensures IsMarkerToken(t)
    ensures i + |t| <= |s| && t == s[i..i + |t|]
    ensures i + |t| == |s| || !IsWordChar(s[i + |t|])
  {
    var n := WordRun(s, i + |Scope|);
    assert s[i..i + |Scope| + n][..|Scope|] == s[i..i + |Scope|];
    s[i..i + |Scope| + n]
  }

  /**
   * `text.match(/(?<type>@backstage\/\w+)/)?.groups?.type`: the captured
   * token of the leftmost match, or nothing when the pattern does not match.
   */
  function ExtractToken(text: string): (r: Option<string>)
    ensures r.None? <==> forall i: nat :: !MatchesAt(text, i)
    ensures r.Some? ==> IsMarkerToken(r.value)
    ensures r.Some? ==> exists i: nat :: IsLeftmostMatch(text, i) && r.value == TokenAt(text, i)
  {
    match FindMatch(text, 0)
    case None => None
    case Some(i) => Some(TokenAt(text, i))
  }

  /** The leftmost match is unique, so it determines the extracted token. */
  lemma ExtractTokenAtLeftmost(text: string, i: nat)
    requires IsLeftmostMatch(text, i)
    ensures ExtractToken(text) == Some(TokenAt(text, i))
  {
  }

  /** The maximal run is unique: any run of word characters that ends at a non-word character or at the end is the one `\w+` takes. */
  lemma WordRunIsMaximalRun(s: string, j: nat, n: nat)
    requires j + n <= |s|
    requires forall k :: j <= k < j + n ==> IsWordChar(s[k])
    requires j + n == |s| || !IsWordChar(s[j + n])
    ensures WordRun(s, j) == n
  {
  }

  /** A `-` ends the token: a hyphenated package name is cut at its first hyphen. */
  // The text is a parameter rather than a literal argument: with literal
  // arguments the solver keeps unfolding `FindMatch` and `WordRun` over the literal.
  lemma HyphenEndsToken(text: string)
    requires text == "@backstage/frontend-plugin-api"
    ensures ExtractToken(text) == Some("@backstage/frontend")
  {
    assert IsLeftmostMatch(text, 0) by {
      assert text[0..11] == Scope;
    }
    assert WordRun(text, 11) == 8 by {
      assert text[19] == '-';
      forall k | 11 <= k < 19
        ensures IsWordChar(text[k])
      {
        assert 'a' <= text[k] <= 'z';
      }
      WordRunIsMaximalRun(text, 11, 8);
    }
    ExtractTokenAtLeftmost(text, 0);
    assert text[0..19] == "@backstage/frontend";
  }
}
