/** The browser-side text helpers: `sanitizeText` (HTML escaping followed by
    the deletion of control characters and script vectors), `sanitizeSQL`,
    `validateInput`, and `formatPostContent`, which turns escaped post text
    into greentext spans and quote links. */
module ClientSanitize {
  import opened Wrappers
  import opened JsText

  // ---------------------------------------------------------------------
  // HTML escaping

  /** The entities the escaping writes. */
  const Amp: string := "&amp;"
  const Lt: string := "&lt;"
  const Gt: string := "&gt;"
  const Quot: string := "&quot;"
  const Apos: string := "&#039;"

  /** What escaping does to one character. */
  function EscapeChar(c: char): string {
    if c == '&' then Amp
    else if c == '<' then Lt
    else if c == '>' then Gt
    else if c == '"' then Quot
    else if c == '\'' then Apos
    else [c]
  }

  /** Every character escaped on its own: the reference the chain of
      replacements is measured against. */
  function EscapeEach(s: string): (r: string)
    ensures '<' !in r && '>' !in r && '"' !in r && '\'' !in r
  {
    if s == [] then [] else EscapeChar(s[0]) + EscapeEach(s[1..])
  }

  /** The five global replacements, `&` first, as the source chains them. */
  function EscapeHtml(s: string): (r: string)
    ensures '<' !in r && '>' !in r && '"' !in r && '\'' !in r
  {
    var amp := ReplaceChar(s, '&', Amp);
    var lt := ReplaceChar(amp, '<', Lt);
    var gt := ReplaceChar(lt, '>', Gt);
    var quot := ReplaceChar(gt, '"', Quot);
    ReplaceChar(quot, '\'', Apos)
  }

  lemma EscapeHtmlConcat(a: string, b: string)
    ensures EscapeHtml(a + b) == EscapeHtml(a) + EscapeHtml(b)
  {
    ReplaceCharConcat(a, b, '&', Amp);
    var a1, b1 := ReplaceChar(a, '&', Amp), ReplaceChar(b, '&', Amp);
    ReplaceCharConcat(a1, b1, '<', Lt);
    var a2, b2 := ReplaceChar(a1, '<', Lt), ReplaceChar(b1, '<', Lt);
    ReplaceCharConcat(a2, b2, '>', Gt);
    var a3, b3 := ReplaceChar(a2, '>', Gt), ReplaceChar(b2, '>', Gt);
    ReplaceCharConcat(a3, b3, '"', Quot);
    var a4, b4 := ReplaceChar(a3, '"', Quot), ReplaceChar(b3, '"', Quot);
    ReplaceCharConcat(a4, b4, '\'', Apos);
  }

  /** A replacement whose character does not occur changes nothing. */
  lemma {:induction false} ReplaceAbsent(s: string, c: char, rep: string)
    requires c !in s
    ensures ReplaceChar(s, c, rep) == s
    decreases |s|
  {
    if s != [] {
      assert c !in s[1..];
      ReplaceAbsent(s[1..], c, rep);
    }
  }

  lemma ReplaceSingle(x: char, c: char, rep: string)
    ensures ReplaceChar([x], c, rep) == if x == c then rep else [x]
  {
    assert [x][1..] == [];
    assert ReplaceChar([], c, rep) == [];
  }

  lemma EscapeHtmlChar(c: char)
    ensures EscapeHtml([c]) == EscapeChar(c)
  {
    if c == '&' {
      EscapeAmpersand(c);
    } else if c == '<' {
      EscapeLessThan(c);
    } else if c == '>' {
      EscapeGreaterThan(c);
    } else if c == '"' {
      EscapeQuote(c);
    } else {
      EscapeOther(c);
    }
  }

  lemma EscapeAmpersand(c: char)
    requires c == '&'
    ensures EscapeHtml([c]) == Amp
  {
    ReplaceSingle(c, '&', Amp);
    EscapedIsKept(Amp);
  }

  lemma EscapeLessThan(c: char)
    requires c == '<'
    ensures EscapeHtml([c]) == Lt
  {
    ReplaceSingle(c, '&', Amp);
    ReplaceSingle(c, '<', Lt);
    EscapedIsKept(Lt);
  }

  lemma EscapeGreaterThan(c: char)
    requires c == '>'
    ensures EscapeHtml([c]) == Gt
  {
    ReplaceSingle(c, '&', Amp);
    ReplaceSingle(c, '<', Lt);
    ReplaceSingle(c, '>', Gt);
    EscapedIsKept(Gt);
  }

  lemma EscapeQuote(c: char)
    requires c == '"'
    ensures EscapeHtml([c]) == Quot
  {
    ReplaceSingle(c, '&', Amp);
    ReplaceSingle(c, '<', Lt);
    ReplaceSingle(c, '>', Gt);
    ReplaceSingle(c, '"', Quot);
    EscapedIsKept(Quot);
  }

  /** The apostrophe, caught by the last replacement, and every character no
      replacement looks for. */
  lemma EscapeOther(c: char)
    requires c != '&' && c != '<' && c != '>' && c != '"'
    ensures EscapeHtml([c]) == EscapeChar(c)
  {
    ReplaceSingle(c, '&', Amp);
    ReplaceSingle(c, '<', Lt);
    ReplaceSingle(c, '>', Gt);
    ReplaceSingle(c, '"', Quot);
    ReplaceSingle(c, '\'', Apos);
  }

  /** Text without `<`, `>` or quotes passes the last four replacements
      unchanged. */
  lemma EscapedIsKept(s: string)
    requires '<' !in s && '>' !in s && '"' !in s && '\'' !in s
    ensures ReplaceChar(s, '<', Lt) == s
    ensures ReplaceChar(s, '>', Gt) == s
    ensures ReplaceChar(s, '"', Quot) == s
    ensures ReplaceChar(s, '\'', Apos) == s
  {
    ReplaceAbsent(s, '<', Lt);
    ReplaceAbsent(s, '>', Gt);
    ReplaceAbsent(s, '"', Quot);
    ReplaceAbsent(s, '\'', Apos);
  }

  /** Escaping `&` first makes the chain escape each character exactly once:
      the replacements introduce `&` but never a character a later
      replacement looks for. */
  lemma {:induction false} EscapeChainIsPerChar(s: string)
    ensures EscapeHtml(s) == EscapeEach(s)
    decreases |s|
  {
    if s == [] {
      assert EscapeHtml(s) == [];
    } else {
      assert s == [s[0]] + s[1..];
      EscapeHtmlConcat([s[0]], s[1..]);
      EscapeHtmlChar(s[0]);
      EscapeChainIsPerChar(s[1..]);
    }
  }

  /** Each `<` becomes exactly `&lt;` (never `&amp;lt;`), whatever surrounds it. */
  lemma LessThanEscapedOnce(a: string, b: string)
    ensures EscapeHtml(a + "<" + b) == EscapeHtml(a) + Lt + EscapeHtml(b)
  {
    EscapeHtmlConcat(a + "<", b);
    EscapeHtmlConcat(a, "<");
    EscapeHtmlChar('<');
  }

  // ---------------------------------------------------------------------
  // sanitizeText

  predicate IsNul(c: char) {
    c == '\0'
  }

  /** `[\x01-\x08\x0B-\x0C\x0E-\x1F\x7F]`: the control characters other than
      NUL, tab, line feed and carriage return. */
  predicate IsStrippedControl(c: char) {
    ('\U{0001}' <= c <= '\U{0008}') || c == '\U{000B}' || c == '\U{000C}'
    || ('\U{000E}' <= c <= '\U{001F}') || c == '\U{007F}'
  }

  /** The tag openers deleted after escaping. They all begin with `<`, which
      escaping has already removed, so none of them ever matches. */
  const DeadTags: seq<string> := ["<script", "</script>", "<iframe", "<object", "<embed", "<link", "<meta", "<style"]

  /** The literals of `pats` deleted one after the other, each in one global
      pass. */
  function RemoveEach(s: string, pats: seq<string>): (r: string)
    ensures |r| <= |s| && CharsFrom(r, s)
    decreases |pats|
  {
    if pats == [] then s
    else
      var t := RemoveAll(s, Literal(pats[0]));
      RemoveEach(t, pats[1..])
  }

  /** `sanitizeText(text)`; a value that is not a string (`None`) gives "". */
  function SanitizeText(text: Option<string>): (r: string)
    ensures '<' !in r && '>' !in r && '"' !in r && '\'' !in r
    ensures forall c :: c in r ==> !IsNul(c) && !IsStrippedControl(c)
    ensures r == [] || (!IsSpace(r[0]) && !IsSpace(r[|r| - 1]))
  {
    match text
    case None => ""
    case Some(s) =>
      var escaped := EscapeHtml(s);
      EscapeChainIsPerChar(s);
      var noNul := Filter(escaped, IsNul);
      var noControl := Filter(noNul, IsStrippedControl);
      var noScheme := RemoveAll(noControl, Literal(JavascriptScheme));
      var noHandlers := RemoveAll(noScheme, Handler(true));
      var noTags := RemoveEach(noHandlers, DeadTags);
      Trim(noTags)
  }

  /** Deleting the dead tag openers from text without `<` changes nothing. */
  lemma {:induction false} DeadTagsNeverMatch(s: string, pats: seq<string>)
    requires '<' !in s
    requires forall k :: 0 <= k < |pats| ==> pats[k] != [] && pats[k][0] == '<'
    ensures RemoveEach(s, pats) == s
    decreases |pats|
  {
    if pats != [] {
      assert forall i :: 0 <= i < |s| ==> Fold(s[i]) != Fold(pats[0][0]) by {
        assert forall i :: 0 <= i < |s| ==> s[i] != '<' && Fold(s[i]) != '<';
      }
      RemoveLiteralMissingChar(s, pats[0], 0);
      DeadTagsNeverMatch(s, pats[1..]);
    }
  }

  /** Text without `&`, `<`, `>`, `"` or `'` is left alone by escaping. */
  lemma EscapeKeepsPlain(s: string)
    requires forall c :: c in s ==> c != '&' && c != '<' && c != '>' && c != '"' && c != '\''
    ensures EscapeHtml(s) == s
  {
    ReplaceAbsent(s, '&', Amp);
    ReplaceAbsent(s, '<', Lt);
    ReplaceAbsent(s, '>', Gt);
    ReplaceAbsent(s, '"', Quot);
    ReplaceAbsent(s, '\'', Apos);
  }

  /** Text without `<`, control characters, colons or equals signs is left
      alone by the deletions that follow escaping. */
  lemma StripKeepsPlain(s: string)
    requires forall c :: c in s ==> c != '<' && !IsNul(c) && !IsStrippedControl(c) && c != ':' && c != '='
    ensures RemoveEach(RemoveAll(RemoveAll(Filter(Filter(s, IsNul), IsStrippedControl), Literal(JavascriptScheme)), Handler(true)), DeadTags) == s
  {
    FilterKeepsAll(s, IsNul);
    var noNul := Filter(s, IsNul);
    assert noNul == s;
    FilterKeepsAll(s, IsStrippedControl);
    var noControl := Filter(noNul, IsStrippedControl);
    assert noControl == s;
    assert forall i :: 0 <= i < |s| ==> Fold(s[i]) != Fold(JavascriptScheme[10]) by {
      assert forall i :: 0 <= i < |s| ==> s[i] in s;
    }
    RemoveLiteralMissingChar(s, JavascriptScheme, 10);
    var noScheme := RemoveAll(noControl, Literal(JavascriptScheme));
    assert noScheme == s;
    RemoveHandlerWithoutEquals(s, true);
    var noHandlers := RemoveAll(noScheme, Handler(true));
    assert noHandlers == s;
    DeadTagsOpenWithAngle();
    DeadTagsNeverMatch(s, DeadTags);
  }

  /** Every dead tag opener begins with `<`. */
  lemma DeadTagsOpenWithAngle()
    ensures forall k :: 0 <= k < |DeadTags| ==> DeadTags[k] != [] && DeadTags[k][0] == '<'
  {
  }

  /** Text without markup characters, control characters, colons, equals
      signs or surrounding white space comes through unchanged. */
  lemma CleanTextKept(s: string)
    requires forall c :: c in s ==> c != '&' && c != '<' && c != '>' && c != '"' && c != '\''
    requires forall c :: c in s ==> !IsNul(c) && !IsStrippedControl(c) && c != ':' && c != '='
    requires s == [] || (!IsSpace(s[0]) && !IsSpace(s[|s| - 1]))
    ensures SanitizeText(Some(s)) == s
  {
    EscapeKeepsPlain(s);
    StripKeepsPlain(s);
    TrimKeepsTrimmed(s);
  }

  /** Text already trimmed at both ends is left alone by `trim`. */
  lemma TrimKeepsTrimmed(s: string)
    requires s == [] || (!IsSpace(s[0]) && !IsSpace(s[|s| - 1]))
    ensures Trim(s) == s
  {
    if s != [] {
      assert TrimStart(s) == s;
      assert TrimEnd(s) == s;
    }
  }

  // ---------------------------------------------------------------------
  // sanitizeSQL and validateInput

  predicate IsSqlQuote(c: char) {
    c == '\'' || c == '"' || c == ';' || c == '\\'
  }

  /** The fragments deleted after the quote characters, in order; `exec`
      precedes `execute`. */
  const SqlFragments: seq<string> :=
    ["--", "/*", "*/", "xp_", "sp_", "exec", "execute", "union", "select", "insert", "update", "delete", "drop"]

  /** `sanitizeSQL(input)`; a value that is not a string gives "". */
  function SanitizeSql(input: Option<string>): (r: string)
    ensures forall c :: c in r ==> !IsSqlQuote(c)
    ensures input.Some? ==> |r| <= |input.value|
  {
    match input
    case None => ""
    case Some(s) => Trim(RemoveEach(Filter(s, IsSqlQuote), SqlFragments))
  }

  /** Because `exec` is deleted before `execute`, `sanitizeSQL("execute")`
      is `ute`: the later fragments find nothing left to delete. */
  lemma ExecuteLosesExec()
    ensures SanitizeSql(Some("execute")) == "ute"
  {
    ExecuteBecomesUte("execute");
  }

  lemma ExecuteBecomesUte(s: string)
    requires s == "execute"
    ensures SanitizeSql(Some(s)) == "ute"
  {
    FilterKeepsAll(s, IsSqlQuote);
    ExecuteSkipsSeparators(s);
    ExecPassLeavesUte(s);
    var t := s[4..];
    UteSkipsKeywords(t);
    SqlChain(s, t);
  }

  /** `sanitizeSQL` of a text without quote characters is the trimmed
      result of the fragment passes. */
  lemma SqlChain(s: string, t: string)
    requires Filter(s, IsSqlQuote) == s
    requires RemoveEach(s, SqlFragments) == t && Trim(t) == t
    ensures SanitizeSql(Some(s)) == t
  {
  }

  /** `s` contains no character of the fragment `t` at index `k`, in either
      case, so deleting `t` leaves `s` alone. */
  predicate Misses(s: string, t: string, k: nat) {
    k < |t| && forall i :: 0 <= i < |s| ==> Fold(s[i]) != Fold(t[k])
  }

  /** Fragments that each miss a character of `s` are skipped. */
  lemma {:induction false} SkipMissing(s: string, pats: seq<string>, ks: seq<nat>)
    requires |ks| <= |pats|
    requires forall j :: 0 <= j < |ks| ==> Misses(s, pats[j], ks[j])
    ensures RemoveEach(s, pats) == RemoveEach(s, pats[|ks|..])
    decreases |ks|
  {
    if ks != [] {
      assert Misses(s, pats[0], ks[0]);
      RemoveLiteralMissingChar(s, pats[0], ks[0]);
      assert forall j :: 0 <= j < |ks[1..]| ==> Misses(s, pats[1..][j], ks[1..][j]) by {
        forall j | 0 <= j < |ks[1..]|
          ensures Misses(s, pats[1..][j], ks[1..][j])
        {
          assert pats[1..][j] == pats[j + 1] && ks[1..][j] == ks[j + 1];
          assert Misses(s, pats[j + 1], ks[j + 1]);
        }
      }
      SkipMissing(s, pats[1..], ks[1..]);
      assert pats[1..][|ks[1..]|..] == pats[|ks|..];
    }
  }

  /** `execute` has no `-`, `/`, `*` or `_`: the first five fragments are
      skipped. */
  lemma ExecuteSkipsSeparators(s: string)
    requires s == "execute"
    ensures RemoveEach(s, SqlFragments) == RemoveEach(s, SqlFragments[5..])
  {
    SkipMissing(s, SqlFragments, [0, 0, 0, 2, 2]);
  }

  /** The `exec` pass deletes the first four letters of `execute`. */
  lemma ExecPassLeavesUte(s: string)
    requires s == "execute"
    ensures RemoveEach(s, SqlFragments[5..]) == RemoveEach(s[4..], SqlFragments[6..])
  {
    assert SqlFragments[5..][0] == "exec";
    assert MatchLength(s, Literal("exec")) == 4;
    ExecMissesUte(s[4..]);
    assert SqlFragments[5..][1..] == SqlFragments[6..];
  }

  lemma ExecMissesUte(t: string)
    requires t == "ute"
    ensures RemoveAll(t, Literal("exec")) == t
  {
    RemoveLiteralMissingChar(t, "exec", 1);
  }

  /** `ute` misses a letter of each of the remaining fragments. */
  lemma UteSkipsKeywords(t: string)
    requires t == "ute"
    ensures RemoveEach(t, SqlFragments[6..]) == t
    ensures Trim(t) == t
  {
    SkipMissing(t, SqlFragments[6..], [1, 1, 0, 0, 1, 0, 0]);
    assert SqlFragments[6..][7..] == [];
    TrimKeepsTrimmed(t);
  }

  /** `validateInput(input, maxLength)` */
  function ValidateInput(input: Option<string>, maxLength: int): (r: string)
    ensures maxLength >= 0 ==> |r| <= maxLength
    ensures r == Prefix(SanitizeText(input), maxLength)
    ensures |SanitizeText(input)| <= maxLength ==> r == SanitizeText(input)
  {
    var sanitized := SanitizeText(input);
    if |sanitized| > maxLength then Prefix(sanitized, maxLength) else sanitized
  }

  // ---------------------------------------------------------------------
  // formatPostContent

  /** The anchor a quote of post `d` becomes. */
  function QuoteAnchor(d: string): string {
    "<a href=\"#p" + d + "\" class=\"quote-link\" data-quote=\"" + d + "\">&gt;&gt;" + d + "</a>"
  }

  /** A non-empty run of digits following `&gt;&gt;` at the start of `s`. */
  function QuoteAt(s: string): (n: nat)
    ensures n > 0 ==> 8 < n <= |s| && StartsWith(s, "&gt;&gt;")
  {
    if StartsWith(s, "&gt;&gt;") && 8 < |s| && IsDigit(s[8]) then 8 + Span(s[8..], IsDigit) else 0
  }

  /** `line.replace(/&gt;&gt;(\d+)/g, …)` */
  function QuoteLinks(line: string): (r: string)
    ensures '\n' !in line ==> '\n' !in r
    decreases |line|
  {
    if line == [] then []
    else
      var n := QuoteAt(line);
      if n > 0 then
        var d := line[8..n];
        AnchorHasNoLineBreak(line, n);
        QuoteAnchor(d) + QuoteLinks(line[n..])
      else [line[0]] + QuoteLinks(line[1..])
  }

  /** The anchor for a quote found at the start of `s` holds no line break. */
  lemma AnchorHasNoLineBreak(s: string, n: nat)
    requires n > 0 && n == QuoteAt(s)
    ensures 8 < n <= |s| && '\n' !in QuoteAnchor(s[8..n])
  {
    var d := s[8..n];
    assert forall c :: c in d ==> IsDigit(c);
    assert '\n' !in "<a href=\"#p" && '\n' !in "\" class=\"quote-link\" data-quote=\"" && '\n' !in "\">&gt;&gt;" && '\n' !in "</a>";
  }

  /** A greentext line: starts with an escaped `>` but not with two. */
  predicate IsGreentext(line: string) {
    StartsWith(line, "&gt;") && !StartsWith(line, "&gt;&gt;")
  }

  function FormatLine(line: string): (r: string)
    ensures '\n' !in line ==> '\n' !in r
  {
    if IsGreentext(line) then "<span class=\"greentext\">" + line + "</span>"
    else QuoteLinks(line)
  }

  function FormatLines(lines: seq<string>): (r: seq<string>)
    ensures |r| == |lines|
    ensures forall i :: 0 <= i < |lines| ==> r[i] == FormatLine(lines[i])
  {
    if lines == [] then [] else [FormatLine(lines[0])] + FormatLines(lines[1..])
  }

  /** `formatPostContent(content)` */
  function FormatPostContent(content: string): (r: string)
    ensures Split(r, '\n') == FormatLines(Split(content, '\n'))
  {
    var lines := Split(content, '\n');
    var formatted := FormatLines(lines);
    assert forall p :: p in formatted ==> '\n' !in p by {
      forall p | p in formatted ensures '\n' !in p {
        var i :| 0 <= i < |formatted| && formatted[i] == p;
        assert lines[i] in lines;
      }
    }
    SplitJoin(formatted, '\n');
    Join(formatted, '\n')
  }

  /** A line without `&` has nothing to link and is kept as it is. */
  lemma {:induction false} NoQuoteNoChange(line: string)
    requires '&' !in line
    ensures QuoteLinks(line) == line
    decreases |line|
  {
    if line != [] {
      assert QuoteAt(line) == 0 by {
        assert line[0] in line;
      }
      NoQuoteNoChange(line[1..]);
      assert line == [line[0]] + line[1..];
    }
  }

  /** A quote of post `d` (the whole run of digits) becomes an anchor to `#p`
      followed by `d`, and linking resumes after it. */
  lemma QuoteBecomesAnchor(d: string, rest: string)
    requires d != [] && forall c :: c in d ==> IsDigit(c)
    requires rest == [] || !IsDigit(rest[0])
    ensures QuoteLinks("&gt;&gt;" + d + rest) == QuoteAnchor(d) + QuoteLinks(rest)
  {
    var s := "&gt;&gt;" + d + rest;
    assert s[..8] == "&gt;&gt;";
    assert s[8..] == d + rest;
    assert d[0] in d;
    assert Span(d + rest, IsDigit) == |d| by {
      DigitRun(d, rest);
    }
    assert s[8..8 + |d|] == d;
    assert s[8 + |d|..] == rest;
  }

  lemma {:induction false} DigitRun(d: string, rest: string)
    requires forall c :: c in d ==> IsDigit(c)
    requires rest == [] || !IsDigit(rest[0])
    ensures Span(d + rest, IsDigit) == |d|
    decreases |d|
  {
    if d == [] {
      assert d + rest == rest;
    } else {
      assert d[0] in d;
      assert (d + rest)[1..] == d[1..] + rest;
      assert forall c :: c in d[1..] ==> c in d;
      DigitRun(d[1..], rest);
    }
  }

  /** A greentext line is wrapped whole: its quotes are not linked. */
  lemma GreentextIsNotLinked(d: string, rest: string)
    requires d != [] && d[0] != '&' && '\n' !in d + rest
    ensures FormatPostContent("&gt;" + d + "&gt;&gt;" + rest) ==
              "<span class=\"greentext\">" + "&gt;" + d + "&gt;&gt;" + rest + "</span>"
  {
    var line := "&gt;" + d + "&gt;&gt;" + rest;
    assert '\n' !in line;
    SplitWithoutSeparator(line, '\n');
    assert line[..4] == "&gt;";
    assert line[4] == d[0];
    assert !StartsWith(line, "&gt;&gt;");
  }
}
