/**
 Compilation of robots.txt path patterns and site patterns into regular expressions
 (src/robots.rs).  The emitted text is given back its meaning by a tokenizer and a matcher
 for exactly the fragment that is emitted: `^`, `$`, `.*`, literals and escaped literals.
 */
module RuleRegex {
  import opened Prelude

  // ---------- What the compiler emits ----------

  // The characters `regex::escape` puts a backslash in front of.
  predicate IsMeta(c: char) {
    || c == '\\' || c == '.' || c == '+' || c == '*' || c == '?' || c == '(' || c == ')' || c == '|' || c == '['
    || c == ']' || c == '{' || c == '}' || c == '^' || c == '$' || c == '#' || c == '&' || c == '-' || c == '~'
  }

  function EscapeChar(c: char): string {
    if IsMeta(c) then ['\\', c] else [c]
  }

  function PatternText(pattern: string): string {
    if pattern == "" then ""
    else (if pattern[0] == '*' then ".*" else if pattern == "$" then "$" else EscapeChar(pattern[0]))
         + PatternText(pattern[1..])
  }

  predicate NeedsRegex(pattern: string) {
    pattern != "" && ('*' in pattern || pattern[|pattern| - 1] == '$')
  }

  function CompiledRegex(pattern: string): Option<string> {
    if NeedsRegex(pattern) then Some("^" + PatternText(pattern)) else None
  }

  lemma PatternTextStep(pattern: string, i: nat)
    requires i < |pattern|
    ensures PatternText(pattern[i..])
         == (if pattern[i] == '*' then ".*"
             else if pattern[i] == '$' && i + 1 == |pattern| then "$"
             else EscapeChar(pattern[i])) + PatternText(pattern[i + 1..])
  {
    var rest := pattern[i..];
    assert rest[1..] == pattern[i + 1..];
    assert rest == "$" <==> pattern[i] == '$' && i + 1 == |pattern|;
  }

  method CompileRuleRegex(pattern: string) returns (text: Option<string>)
    ensures text == CompiledRegex(pattern)
  {
    if pattern == "" || ('*' !in pattern && pattern[|pattern| - 1] != '$') {
      return None;
    }
    var regex := "^";
    var i := 0;
    while i < |pattern|
      invariant 0 <= i <= |pattern|
      invariant regex + PatternText(pattern[i..]) == "^" + PatternText(pattern)
    {
      var ch := pattern[i];
      ghost var before := regex;
      PatternTextStep(pattern, i);
      i := i + 1;
      if ch == '*' {
        regex := regex + ".*";
      } else if ch == '$' && i == |pattern| {
        regex := regex + "$";
      } else {
        regex := regex + EscapeChar(ch);
      }
      ghost var head := if ch == '*' then ".*" else if ch == '$' && i == |pattern| then "$" else EscapeChar(ch);
      Associate(before, head, PatternText(pattern[i..]));
    }
    assert pattern[i..] == "" && regex + "" == regex;
    return Some(regex);
  }

  function BodyText(body: string): string {
    if body == "" then ""
    else HeadText(body[0]) + BodyText(body[1..])
  }

  method CompileSitePatternRegex(pattern: string) returns (regex: string)
    ensures regex == "^" + BodyText(pattern) + "$"
  {
    regex := "^";
    for i := 0 to |pattern|
      invariant regex + BodyText(pattern[i..]) == "^" + BodyText(pattern)
    {
      assert pattern[i..][1..] == pattern[i + 1..];
      Associate(regex, HeadText(pattern[i]), BodyText(pattern[i + 1..]));
      if pattern[i] == '*' {
        regex := regex + ".*";
      } else {
        regex := regex + EscapeChar(pattern[i]);
      }
    }
    assert pattern[|pattern|..] == "" && regex + "" == regex;
    regex := regex + "$";
  }

  // ---------- What the emitted text means ----------

  datatype Token = Start | End | AnyStar | Literal(c: char)

  // The first token of a text and its length; None stands for text outside the emitted fragment.
  function NextToken(text: string): Option<(Token, nat)>
    requires text != ""
  {
    if text[0] == '\\' then if |text| >= 2 && IsMeta(text[1]) then Some((Literal(text[1]), 2)) else None
    else if text[0] == '.' then if |text| >= 2 && text[1] == '*' then Some((AnyStar, 2)) else None
    else if text[0] == '^' then Some((Start, 1))
    else if text[0] == '$' then Some((End, 1))
    else if IsMeta(text[0]) then None
    else Some((Literal(text[0]), 1))
  }

  function Tokenize(text: string): Option<seq<Token>> {
    if text == "" then Some([])
    else
      var next := NextToken(text);
      if next.Some? && 0 < next.value.1 <= |text| then Prepend(next.value.0, Tokenize(text[next.value.1..])) else None
  }

  function Prepend(token: Token, rest: Option<seq<Token>>): Option<seq<Token>> {
    if rest.Some? then Some([token] + rest.value) else None
  }

  predicate OneLine(s: string) {
    '\n' !in s
  }

  // `.` matches any character but a newline; `^` and `$` only the ends of the text.
  predicate MatchAt(tokens: seq<Token>, s: string, i: nat)
    requires i <= |s|
    decreases |tokens|
  {
    if tokens == [] then true
    else
      match tokens[0]
      case Start => i == 0 && MatchAt(tokens[1..], s, i)
      case End => i == |s| && MatchAt(tokens[1..], s, i)
      case Literal(c) => i < |s| && s[i] == c && MatchAt(tokens[1..], s, i + 1)
      case AnyStar => exists k :: i <= k <= |s| && OneLine(s[i..k]) && MatchAt(tokens[1..], s, k)
  }

  // `Regex::is_match`: a match may start anywhere.
  predicate IsMatch(text: string, s: string) {
    var tokens := Tokenize(text);
    tokens.Some? && exists i :: 0 <= i <= |s| && MatchAt(tokens.value, s, i)
  }

  // ---------- The direct reading of a pattern, RFC 9309 section 2.2.3 ----------

  predicate Anchored(pattern: string) {
    pattern != "" && pattern[|pattern| - 1] == '$'
  }

  function Body(pattern: string): string {
    if Anchored(pattern) then pattern[..|pattern| - 1] else pattern
  }

  function Stars(body: string): nat {
    if body == "" then 0 else (if body[0] == '*' then 1 else 0) + Stars(body[1..])
  }

  // The pattern with each `*` replaced by the corresponding filler.
  function Fill(body: string, fills: seq<string>): string
    requires |fills| == Stars(body)
  {
    if body == "" then ""
    else if body[0] == '*' then fills[0] + Fill(body[1..], fills[1..])
    else [body[0]] + Fill(body[1..], fills)
  }

  ghost predicate Covers(body: string, anchored: bool, fills: seq<string>, path: string) {
    && |fills| == Stars(body)
    && if anchored then Fill(body, fills) == path else Fill(body, fills) <= path
  }

  // Some filling of the stars yields the path (final `$`) or a prefix of it (no final `$`).
  ghost predicate Reads(pattern: string, path: string) {
    exists fills :: Covers(Body(pattern), Anchored(pattern), fills, path)
  }

  ghost predicate OneLineFills(fills: seq<string>) {
    forall k :: 0 <= k < |fills| ==> OneLine(fills[k])
  }

  // ---------- Emission and tokenization agree ----------

  function BodyTokens(body: string): seq<Token> {
    if body == "" then []
    else [HeadToken(body[0])] + BodyTokens(body[1..])
  }

  lemma {:induction false} PatternTextSplits(pattern: string)
    ensures PatternText(pattern) == BodyText(Body(pattern)) + (if Anchored(pattern) then "$" else "")
  {
    if pattern != "" && pattern != "$" {
      PatternTextSplits(pattern[1..]);
      assert |pattern| == 1 ==> Body(pattern) == pattern && pattern[1..] == "";
      assert Body(pattern)[1..] == Body(pattern[1..]);
    }
  }

  function HeadText(c: char): string {
    if c == '*' then ".*" else EscapeChar(c)
  }

  function HeadToken(c: char): Token {
    if c == '*' then AnyStar else Literal(c)
  }

  lemma HeadIsRead(c: char, rest: string)
    ensures NextToken(HeadText(c) + rest) == Some((HeadToken(c), |HeadText(c)|))
  {
    var text := HeadText(c) + rest;
    assert text[0] == HeadText(c)[0];
    assert |HeadText(c)| == 2 ==> text[1] == HeadText(c)[1];
  }

  lemma TokenizeHead(head: string, token: Token, rest: string)
    requires head != "" && NextToken(head + rest) == Some((token, |head|))
    ensures Tokenize(head + rest) == Prepend(token, Tokenize(rest))
  {
    assert (head + rest)[|head|..] == rest;
  }

  // Escaping loses nothing: the emitted body is read back token by token.
  lemma {:induction false} BodyTextTokenizes(body: string, tail: string, after: seq<Token>)
    requires Tokenize(tail) == Some(after)
    ensures Tokenize(BodyText(body) + tail) == Some(BodyTokens(body) + after)
  {
    if body == "" {
      assert BodyText(body) + tail == tail && BodyTokens(body) + after == after;
    } else {
      var head, rest := HeadText(body[0]), BodyText(body[1..]) + tail;
      BodyTextTokenizes(body[1..], tail, after);
      HeadIsRead(body[0], rest);
      TokenizeHead(head, HeadToken(body[0]), rest);
      Associate(head, BodyText(body[1..]), tail);
      Associate([HeadToken(body[0])], BodyTokens(body[1..]), after);
    }
  }

  // ---------- Matching a body is filling its stars ----------

  lemma {:induction false} MatchYieldsFills(body: string, anchored: bool, s: string, i: nat)
    returns (fills: seq<string>)
    requires i <= |s|
    requires MatchAt(BodyTokens(body) + (if anchored then [End] else []), s, i)
    ensures Covers(body, anchored, fills, s[i..]) && OneLineFills(fills)
    decreases |body|
  {
    var tail := if anchored then [End] else [];
    var tokens := BodyTokens(body) + tail;
    if body == "" {
      fills := [];
      assert tokens == tail;
    } else {
      assert tokens[1..] == BodyTokens(body[1..]) + tail;
      if body[0] == '*' {
        assert tokens[0] == AnyStar;
        var k :| i <= k <= |s| && OneLine(s[i..k]) && MatchAt(tokens[1..], s, k);
        var rest := MatchYieldsFills(body[1..], anchored, s, k);
        fills := [s[i..k]] + rest;
        assert fills[1..] == rest;
        assert s[i..] == s[i..k] + s[k..];
      } else {
        assert tokens[0] == Literal(body[0]);
        fills := MatchYieldsFills(body[1..], anchored, s, i + 1);
        assert s[i..] == [s[i]] + s[i + 1..];
      }
    }
  }

  lemma {:induction false} FillsYieldMatch(body: string, anchored: bool, s: string, i: nat, fills: seq<string>)
    requires i <= |s|
    requires Covers(body, anchored, fills, s[i..]) && OneLineFills(fills)
    ensures MatchAt(BodyTokens(body) + (if anchored then [End] else []), s, i)
    decreases |body|
  {
    var tail := if anchored then [End] else [];
    var tokens := BodyTokens(body) + tail;
    if body == "" {
      assert tokens == tail;
      assert MatchAt(tokens[|tokens|..], s, i);
      assert anchored ==> |s[i..]| == 0 && tokens[0] == End;
    } else {
      assert tokens[1..] == BodyTokens(body[1..]) + tail;
      var rest := Fill(body, fills);
      assert rest <= s[i..];
      if body[0] == '*' {
        var k := i + |fills[0]|;
        assert fills[0] == rest[..|fills[0]|] == s[i..k];
        assert Fill(body[1..], fills[1..]) == rest[|fills[0]|..];
        assert s[k..] == s[i..][|fills[0]|..];
        FillsYieldMatch(body[1..], anchored, s, k, fills[1..]);
        assert tokens[0] == AnyStar;
      } else {
        assert s[i] == rest[0];
        assert Fill(body[1..], fills) == rest[1..];
        assert s[i + 1..] == s[i..][1..];
        FillsYieldMatch(body[1..], anchored, s, i + 1, fills);
        assert tokens[0] == Literal(body[0]);
      }
    }
  }

  lemma TailTokenizes(anchored: bool)
    ensures Tokenize(if anchored then "$" else "") == Some(if anchored then [End] else [])
  {
    if anchored {
      var text := "$";
      assert NextToken(text) == Some((End, 1));
      assert text[1..] == "" && [End] + [] == [End];
      assert Tokenize(text) == Prepend(End, Tokenize(text[1..]));
    }
  }

  lemma StartTokenizes(rest: string, tokens: seq<Token>)
    requires Tokenize(rest) == Some(tokens)
    ensures Tokenize("^" + rest) == Some([Start] + tokens)
  {
    assert ("^" + rest)[1..] == rest;
  }

  lemma StartMatches(tokens: seq<Token>, s: string)
    ensures MatchAt([Start] + tokens, s, 0) <==> MatchAt(tokens, s, 0)
    ensures forall i :: 0 < i <= |s| ==> !MatchAt([Start] + tokens, s, i)
  {
    assert ([Start] + tokens)[1..] == tokens;
  }

  // A regular expression `^body` or `^body$` matches a text exactly when newline-free fillers make
  // the body cover it.
  lemma AnchoredBodyMatches(body: string, anchored: bool, s: string)
    ensures IsMatch("^" + BodyText(body) + (if anchored then "$" else ""), s)
       <==> exists fills :: Covers(body, anchored, fills, s) && OneLineFills(fills)
  {
    var tail := if anchored then "$" else "";
    var ends := if anchored then [End] else [];
    var inner := BodyTokens(body) + ends;
    TailTokenizes(anchored);
    BodyTextTokenizes(body, tail, ends);
    Associate("^", BodyText(body), tail);
    StartTokenizes(BodyText(body) + tail, inner);
    StartMatches(inner, s);
    assert s[0..] == s;
    if MatchAt(inner, s, 0) {
      var fills := MatchYieldsFills(body, anchored, s, 0);
    }
    if fills :| Covers(body, anchored, fills, s) && OneLineFills(fills) {
      FillsYieldMatch(body, anchored, s, 0, fills);
    }
  }

  // Fillers of a one-line text are one-line texts.
  lemma {:induction false} FillsArePieces(body: string, fills: seq<string>, s: string)
    requires |fills| == Stars(body) && Fill(body, fills) <= s && OneLine(s)
    ensures OneLineFills(fills)
    decreases |body|
  {
    if body != "" {
      var rest := Fill(body, fills);
      if body[0] == '*' {
        assert fills[0] == rest[..|fills[0]|] == s[..|fills[0]|];
        assert Fill(body[1..], fills[1..]) == rest[|fills[0]|..];
        FillsArePieces(body[1..], fills[1..], s[|fills[0]|..]);
      } else {
        assert Fill(body[1..], fills) == rest[1..];
        FillsArePieces(body[1..], fills, s[1..]);
      }
    }
  }

  // ---------- Main results about rule patterns ----------

  // The text the compiler would emit for any pattern, whether or not it takes the fast path.
  function RegexOf(pattern: string): string {
    "^" + PatternText(pattern)
  }

  // For every text, the expression accepts exactly the newline-free fillings of the pattern.
  lemma RegexIsOneLineReading(pattern: string, path: string)
    ensures IsMatch(RegexOf(pattern), path)
       <==> exists fills :: Covers(Body(pattern), Anchored(pattern), fills, path) && OneLineFills(fills)
  {
    PatternTextSplits(pattern);
    AnchoredBodyMatches(Body(pattern), Anchored(pattern), path);
    var tail := if Anchored(pattern) then "$" else "";
    assert RegexOf(pattern) == "^" + BodyText(Body(pattern)) + tail;
  }

  // A URL path holds no newline, and there the expression is the direct reading of the pattern.
  lemma RegexIsReading(pattern: string, path: string)
    requires OneLine(path)
    ensures IsMatch(RegexOf(pattern), path) <==> Reads(pattern, path)
  {
    RegexIsOneLineReading(pattern, path);
    if fills :| Covers(Body(pattern), Anchored(pattern), fills, path) {
      FillsArePieces(Body(pattern), fills, path);
    }
  }

  // Off that domain the two differ: `.` stops at a newline, the star of the standard does not.
  lemma NewlineSeparatesRegexFromReading()
    ensures Reads("/a*b", "/a\nb") && !IsMatch(RegexOf("/a*b"), "/a\nb")
  {
    var body := "/a*b";
    var path := "/a\nb";
    assert body[1..] == "a*b" && "a*b"[1..] == "*b" && "*b"[1..] == "b" && "b"[1..] == "";
    assert Stars("b") == 0 && Stars("*b") == 1 && Stars("a*b") == 1 && Stars(body) == 1;
    forall fills: seq<string> | |fills| == 1
      ensures Fill(body, fills) == "/a" + fills[0] + "b"
    {
      assert Fill("b", fills[1..]) == "b";
      assert Fill("*b", fills) == fills[0] + "b";
      assert Fill("a*b", fills) == "a" + (fills[0] + "b");
    }
    assert Fill(body, ["\n"]) == path;
    assert Covers(Body(body), Anchored(body), ["\n"], path);
    RegexIsOneLineReading(body, path);
    forall fills | Covers(body, false, fills, path)
      ensures !OneLineFills(fills)
    {
      var text := "/a" + fills[0] + "b";
      assert text <= path && |text| == 3 + |fills[0]|;
      assert text[|text| - 1] == 'b' && path[|text| - 1] == 'b';
      assert |text| == 4 && text[2] == path[2] == '\n' == fills[0][0];
    }
  }

  // The newline-free texts are exactly those on which every pattern is compiled to its reading.
  lemma RegexIsReadingExactlyOnOneLine(path: string)
    ensures (forall pattern :: IsMatch(RegexOf(pattern), path) <==> Reads(pattern, path)) <==> OneLine(path)
  {
    if OneLine(path) {
      forall pattern
        ensures IsMatch(RegexOf(pattern), path) <==> Reads(pattern, path)
      {
        RegexIsReading(pattern, path);
      }
    } else {
      var pattern := "*$";
      StarDollar();
      RegexIsOneLineReading(pattern, path);
      assert Covers("*", true, [path], path) && Reads(pattern, path);
      forall fills | Covers("*", true, fills, path)
        ensures fills == [path]
      {
        assert fills == [fills[0]];
      }
    }
  }

  lemma StarDollar()
    ensures Body("*$") == "*" && Anchored("*$") && Stars("*") == 1
    ensures forall text :: Fill("*", [text]) == text
  {
    assert "*$"[..1] == "*" && "*"[1..] == "";
    forall text
      ensures Fill("*", [text]) == text
    {
      assert Fill("*", [text]) == text + Fill("", [text][1..]);
    }
  }

  lemma {:induction false} LiteralBodyFills(body: string)
    requires '*' !in body
    ensures Stars(body) == 0 && Fill(body, []) == body
  {
    if body != "" {
      LiteralBodyFills(body[1..]);
    }
  }

  // The `starts_with` fast path agrees with the expression that was not built.
  lemma FastPathAgreesWithRegex(pattern: string, path: string)
    requires !NeedsRegex(pattern)
    ensures pattern <= path <==> IsMatch(RegexOf(pattern), path)
  {
    LiteralBodyFills(pattern);
    RegexIsOneLineReading(pattern, path);
    assert pattern <= path ==> Covers(pattern, false, [], path) && OneLineFills([]);
  }

  // ---------- Rules ----------

  datatype RuleKind = Allow | Disallow

  datatype Rule = Rule(kind: RuleKind, host: Option<string>, pattern: string, regex: Option<string>, specificity: nat)

  function TrimDollars(s: string): string {
    if s != "" && s[|s| - 1] == '$' then TrimDollars(s[..|s| - 1]) else s
  }

  function NonStars(s: string): nat {
    if s == "" then 0 else (if s[0] == '*' then 0 else 1) + NonStars(s[1..])
  }

  function Specificity(pattern: string): nat {
    NonStars(TrimDollars(pattern))
  }

  function NewRule(kind: RuleKind, host: Option<string>, pattern: string): Rule {
    Rule(kind, host, pattern, CompiledRegex(pattern), Specificity(pattern))
  }

  function MatchLength(rule: Rule, urlHost: string, path: string): Option<nat> {
    if rule.pattern == "" then None
    else if rule.host.Some? && Lower(urlHost) != Lower(rule.host.value) then None
    else if rule.regex.Some? then if IsMatch(rule.regex.value, path) then Some(rule.specificity) else None
    else if rule.pattern <= path then Some(rule.specificity)
    else None
  }

  // What a rule says about a URL, without mentioning how it is matched.
  ghost predicate Applies(host: Option<string>, pattern: string, urlHost: string, path: string) {
    && pattern != ""
    && (host.Some? ==> Lower(urlHost) == Lower(host.value))
    && Reads(pattern, path)
  }

  lemma MatchLengthReadsThePattern(kind: RuleKind, host: Option<string>, pattern: string, urlHost: string, path: string)
    requires OneLine(path)
    ensures MatchLength(NewRule(kind, host, pattern), urlHost, path)
         == if Applies(host, pattern, urlHost, path) then Some(Specificity(pattern)) else None
  {
    RegexIsReading(pattern, path);
    if !NeedsRegex(pattern) {
      FastPathAgreesWithRegex(pattern, path);
    }
  }

  // ---------- What specificity measures ----------

  function TrailingDollars(s: string): nat {
    if s != "" && s[|s| - 1] == '$' then 1 + TrailingDollars(s[..|s| - 1]) else 0
  }

  lemma {:induction false} NonStarsAppend(s: string, t: string)
    ensures NonStars(s + t) == NonStars(s) + NonStars(t)
  {
    if s == "" {
      assert s + t == t;
    } else {
      assert (s + t)[1..] == s[1..] + t;
      NonStarsAppend(s[1..], t);
    }
  }

  lemma {:induction false} NonStarsOfTrimmed(s: string)
    ensures NonStars(s) == NonStars(TrimDollars(s)) + TrailingDollars(s)
  {
    if s != "" && s[|s| - 1] == '$' {
      var front := s[..|s| - 1];
      assert s == front + "$" && NonStars("$") == 1;
      NonStarsAppend(front, "$");
      NonStarsOfTrimmed(front);
    }
  }

  lemma {:induction false} FillLength(body: string, fills: seq<string>)
    requires |fills| == Stars(body)
    ensures |Fill(body, fills)| >= NonStars(body)
    ensures (forall k :: 0 <= k < |fills| ==> fills[k] == "") ==> |Fill(body, fills)| == NonStars(body)
    decreases |body|
  {
    if body != "" {
      FillLength(body[1..], if body[0] == '*' then fills[1..] else fills);
    }
  }

  // Surplus trailing dollars are trimmed from the specificity although they must be matched.
  function ShortestLength(pattern: string): nat {
    Specificity(pattern) + (if TrailingDollars(pattern) > 1 then TrailingDollars(pattern) - 1 else 0)
  }

  // ShortestLength is the length of the shortest path a pattern matches; hence the specificity is that
  // length exactly when the pattern ends in at most one `$`.
  lemma SpecificityIsShortestMatch(pattern: string)
    ensures forall path :: Reads(pattern, path) ==> |path| >= ShortestLength(pattern)
    ensures exists path :: Reads(pattern, path) && |path| == ShortestLength(pattern)
    ensures Specificity(pattern) == ShortestLength(pattern) <==> TrailingDollars(pattern) <= 1
  {
    var body := Body(pattern);
    NonStarsOfTrimmed(pattern);
    NonStarsOfTrimmed(body);
    assert NonStars(body) == ShortestLength(pattern);
    forall path | Reads(pattern, path)
      ensures |path| >= ShortestLength(pattern)
    {
      var fills :| Covers(body, Anchored(pattern), fills, path);
      FillLength(body, fills);
    }
    var empties := seq(Stars(body), _ => "");
    FillLength(body, empties);
    var path := Fill(body, empties);
    assert Covers(body, Anchored(pattern), empties, path);
    assert Reads(pattern, path);
  }

  // ---------- Site patterns ----------

  // A site pattern matches a host exactly when some filling of its stars spells the host.
  lemma SitePatternIsFilling(pattern: string, host: string)
    requires OneLine(host)
    ensures IsMatch("^" + BodyText(pattern) + "$", host)
       <==> exists fills :: |fills| == Stars(pattern) && Fill(pattern, fills) == host
  {
    AnchoredBodyMatches(pattern, true, host);
    if fills :| |fills| == Stars(pattern) && Fill(pattern, fills) == host {
      FillsArePieces(pattern, fills, host);
      assert Covers(pattern, true, fills, host);
    }
  }
}
