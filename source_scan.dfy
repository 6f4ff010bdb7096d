/** The two regular expressions `extract_capabilities_from_callback` runs
    with `preg_match_all` over a callback's source text:
      current_user_can\s*\(\s*['"]([^'"]+)['"]
      user_can\s*\([^,]+,\s*['"]([^'"]+)['"]
    Neither pattern can backtrack into a different match (every repetition
    is followed by a character it cannot consume), so matching at a
    position is a deterministic left-to-right scan; `preg_match_all` tries
    every position from the left and resumes after each match. */
module SourceScan {
  import opened Callbacks

  /** PCRE `\s`: space, tab, line feed, vertical tab, form feed, carriage
      return. */
  predicate IsSpace(c: char) {
    c == ' ' || c == '\t' || c == '\n' || c == '\U{000B}' || c == '\U{000C}' || c == '\r'
  }

  predicate IsQuote(c: char) {
    c == '\'' || c == '"'
  }

  predicate NotQuote(c: char) {
    !IsQuote(c)
  }

  predicate NotComma(c: char) {
    c != ','
  }

  /** The end of the longest run of characters satisfying `p` from `i`. */
  function SkipWhile(s: string, i: nat, p: char -> bool): (j: nat)
    requires i <= |s|
    ensures i <= j <= |s|
    ensures forall k :: i <= k < j ==> p(s[k])
    ensures j < |s| ==> !p(s[j])
    decreases |s| - i
  {
    if i == |s| || !p(s[i]) then i else SkipWhile(s, i + 1, p)
  }

  datatype Pattern = CurrentUserCanCall | UserCanCall

  /** The outcome of trying a pattern at one position: the captured
      capability and the position just after the match. */
  datatype MatchResult = NoMatch | Matched(capture: string, end: nat)

  /** A capture is a non-empty run of non-quote characters. */
  predicate WellFormedCapture(c: string) {
    |c| > 0 && forall k :: 0 <= k < |c| ==> !IsQuote(c[k])
  }

  /** `['"]([^'"]+)['"]` from position `b`. */
  function QuotedAt(s: string, b: nat): (r: MatchResult)
    requires b <= |s|
    ensures r.Matched? ==> b < r.end <= |s| && WellFormedCapture(r.capture)
    ensures r.Matched? ==>
      r.end == b + |r.capture| + 2 && IsQuote(s[b]) && s[b + 1..r.end - 1] == r.capture && IsQuote(s[r.end - 1])
  {
    if b == |s| || !IsQuote(s[b]) then NoMatch
    else
      var c := SkipWhile(s, b + 1, NotQuote);
      if c == b + 1 || c == |s| then NoMatch
      else Matched(s[b + 1..c], c + 1)
  }

  /** The function name each pattern starts with. */
  function Keyword(pat: Pattern): string {
    if pat == CurrentUserCanCall then "current_user_can" else "user_can"
  }

  /** The keyword of `pat` stands at position `p` of `s`. */
  predicate KeywordAt(pat: Pattern, s: string, p: nat) {
    p + |Keyword(pat)| <= |s| && s[p..p + |Keyword(pat)|] == Keyword(pat)
  }

  /** The pattern, anchored at position `p`: on a match, the keyword stands
      at `p` and the capture is the text between the two quotes the match
      ends with. */
  function MatchAt(pat: Pattern, s: string, p: nat): (r: MatchResult)
    requires p <= |s|
    ensures r.Matched? ==> p < r.end <= |s| && WellFormedCapture(r.capture)
    ensures r.Matched? ==> KeywordAt(pat, s, p)
    ensures r.Matched? ==>
      var q := r.end - |r.capture| - 2;
      p + |Keyword(pat)| < q && IsQuote(s[q]) && s[q + 1..r.end - 1] == r.capture && IsQuote(s[r.end - 1])
  {
    if !KeywordAt(pat, s, p) then NoMatch
    else
      var a := SkipWhile(s, p + |Keyword(pat)|, IsSpace);
      if a == |s| || s[a] != '(' then NoMatch
      else Arguments(pat, s, a + 1)
  }

  /** The part of the pattern after the opening parenthesis, from `a`:
      `\s*` and the quoted capture, after `[^,]+,` for `user_can`. */
  function Arguments(pat: Pattern, s: string, a: nat): (r: MatchResult)
    requires a <= |s|
    ensures r.Matched? ==>
      var q := r.end - |r.capture| - 2;
      a <= q && r.end <= |s| && WellFormedCapture(r.capture) &&
      IsQuote(s[q]) && s[q + 1..r.end - 1] == r.capture && IsQuote(s[r.end - 1])
  {
    if pat == CurrentUserCanCall then
      QuotedAt(s, SkipWhile(s, a, IsSpace))
    else
      var d := SkipWhile(s, a, NotComma);
      if d == a || d == |s| then NoMatch
      else QuotedAt(s, SkipWhile(s, d + 1, IsSpace))
  }

  /** `preg_match_all` from position `p`: the captures of every match, left
      to right. */
  function FindAll(pat: Pattern, s: string, p: nat): (caps: seq<string>)
    requires p <= |s|
    ensures forall k :: 0 <= k < |caps| ==> WellFormedCapture(caps[k])
    decreases |s| - p
  {
    if p == |s| then []
    else
      match MatchAt(pat, s, p)
      case Matched(c, e) => [c] + FindAll(pat, s, e)
      case NoMatch => FindAll(pat, s, p + 1)
  }

  /** The two capture lists of a callback whose source text is `src`. */
  function ScanSource(src: string): Captures {
    Captures(FindAll(CurrentUserCanCall, src, 0), FindAll(UserCanCall, src, 0))
  }

  /** Every capability extracted from a source text is a non-empty string
      without quotes. */
  lemma ScannedCapabilitiesWellFormed(src: string)
    ensures forall c :: c in ExtractCapabilities(ScanSource(src)) ==> WellFormedCapture(c)
  {
    ExtractCapabilitiesSpec(ScanSource(src));
  }

  /** The `user_can` pattern needs a comma between the opening parenthesis
      and the quoted capability, so text without a comma gives no
      `user_can` capture. */
  lemma {:induction false} NoCommaNoUserCan(s: string, p: nat)
    requires p <= |s|
    requires forall k :: 0 <= k < |s| ==> s[k] != ','
    ensures FindAll(UserCanCall, s, p) == []
    decreases |s| - p
  {
    if p < |s| {
      var word := "user_can";
      if p + |word| <= |s| && s[p..p + |word|] == word {
        var a := SkipWhile(s, p + |word|, IsSpace);
        if a < |s| && s[a] == '(' {
          var d := SkipWhile(s, a + 1, NotComma);
          assert d == |s|;
        }
      }
      assert MatchAt(UserCanCall, s, p) == NoMatch;
      NoCommaNoUserCan(s, p + 1);
    }
  }

  /** A one-call check: `current_user_can('read')` yields exactly `read`. */
  lemma ScanSingleCheck()
    ensures ScanSource("current_user_can('read')") == Captures(["read"], [])
  {
    var s := "current_user_can('read')";
    assert s[0..16] == "current_user_can";
    assert SkipWhile(s, 16, IsSpace) == 16;
    assert SkipWhile(s, 17, IsSpace) == 17;
    assert SkipWhile(s, 22, NotQuote) == 22;
    assert SkipWhile(s, 21, NotQuote) == 22;
    assert SkipWhile(s, 20, NotQuote) == 22;
    assert SkipWhile(s, 19, NotQuote) == 22;
    assert SkipWhile(s, 18, NotQuote) == 22;
    assert s[18..22] == "read";
    assert MatchAt(CurrentUserCanCall, s, 0) == Matched("read", 23);
    assert MatchAt(CurrentUserCanCall, s, 23) == NoMatch;
    assert FindAll(CurrentUserCanCall, s, 0) == ["read"];
    NoCommaNoUserCan(s, 0);
  }
}
