/** The content filters of the shared security module: `sanitizeInput`,
    which strips markup and script vectors from free text, and
    `checkProfanity`, which rejects a fixed denylist and excessive
    repetition. The endpoints create-thread and admin-boards carry copies of
    `sanitizeInput` that differ only in the length cap. */
module ContentFilter {
  import opened Wrappers
  import opened JsText

  /** The cap of the shared module and of create-thread. */
  const MaxTextLength: nat := 10000
  /** The cap of the admin-boards copy. */
  const MaxBoardFieldLength: nat := 200

  predicate IsAngle(c: char) {
    c == '<' || c == '>'
  }

  /** `sanitizeInput(input)` with length cap `cap`: delete `<` and `>`, then
      every `javascript:` (any case), then every `on<word>=` (any case), trim,
      and keep at most `cap` characters. Each deletion is a single left to
      right pass. */
  function SanitizeInput(input: string, cap: nat): (r: string)
    ensures '<' !in r && '>' !in r
    ensures |r| <= cap && |r| <= |input|
    ensures r == [] || !IsSpace(r[0])
    ensures CharsFrom(r, input)
  {
    var noTags := Filter(input, IsAngle);
    var noScheme := RemoveAll(noTags, Literal(JavascriptScheme));
    var noHandlers := RemoveAll(noScheme, Handler(false));
    var t := Trim(noHandlers);
    var r := Prefix(t, cap);
    assert forall c :: c in r ==> c in t;
    r
  }

  /** The `typeof input !== 'string'` guard: a value that is not a string
      (`None`) sanitises to the empty string. */
  function SanitizeField(input: Option<string>, cap: nat): (r: string)
    ensures input.None? ==> r == ""
    ensures input.Some? ==> r == SanitizeInput(input.value, cap)
  {
    match input
    case None => ""
    case Some(s) => SanitizeInput(s, cap)
  }

  /** Text with no angle bracket, colon or equals sign is only trimmed and
      cut to the cap. */
  lemma PlainTextIsOnlyTrimmed(input: string, cap: nat)
    requires '<' !in input && '>' !in input && ':' !in input && '=' !in input
    ensures SanitizeInput(input, cap) == Prefix(Trim(input), cap)
  {
    FilterKeepsAll(input, IsAngle);
    assert forall i :: 0 <= i < |input| ==> input[i] != ':' && Fold(input[i]) != ':';
    RemoveLiteralMissingChar(input, JavascriptScheme, 10);
    RemoveHandlerWithoutEquals(input, false);
  }

  /** Sanitising is a no-op on short, trimmed plain text. */
  lemma CleanTextIsUnchanged(input: string, cap: nat)
    requires '<' !in input && '>' !in input && ':' !in input && '=' !in input
    requires forall c :: c in input ==> !IsSpace(c)
    requires |input| <= cap
    ensures SanitizeInput(input, cap) == input
  {
    PlainTextIsOnlyTrimmed(input, cap);
  }

  /** Each deletion is a single pass, so deleting a scheme can join the
      text around it into a new one: `javajavascript:script:` comes out as
      `javascript:`. */
  lemma SchemeCanSurviveOnePass(s: string)
    requires IsSplicedScheme(s)
    ensures SanitizeInput(s, MaxTextLength) == JavascriptScheme
  {
    SplicedHasNoAngle(s);
    FilterKeepsAll(s, IsAngle);
    SchemeSplicedOut(s);
    SchemeSurvivesTheRest();
  }

  /** The spliced text is made of characters of the scheme. */
  lemma SplicedHasNoAngle(s: string)
    requires IsSplicedScheme(s)
    ensures forall c :: c in s ==> !IsAngle(c)
  {
    forall i | 0 <= i < |s|
      ensures s[i] in JavascriptScheme
    {
      if i < 4 {
        assert s[i] == s[..4][i];
      } else if i < 15 {
        assert s[i] == s[4..15][i - 4];
      } else {
        assert s[i] == s[15..][i - 15];
      }
    }
  }

  /** The scheme has no handler attribute, no surrounding white space and
      fits the cap, so the steps after the scheme pass keep it. */
  lemma SchemeSurvivesTheRest()
    ensures Prefix(Trim(RemoveAll(JavascriptScheme, Handler(false))), MaxTextLength) == JavascriptScheme
  {
    RemoveHandlerWithoutEquals(JavascriptScheme, false);
    SchemeIsTrimmed();
  }

  lemma SchemeIsTrimmed()
    ensures Trim(JavascriptScheme) == JavascriptScheme
  {
  }

  /** `s` is `javajavascript:script:`, written as slices of the scheme. */
  predicate IsSplicedScheme(s: string) {
    |s| == 22 && s[..4] == JavascriptScheme[..4] && s[4..15] == JavascriptScheme &&
    s[15..] == JavascriptScheme[4..]
  }

  /** The scheme pass keeps `java`, deletes the scheme after it and keeps
      `script:`, which together spell the scheme again. */
  lemma SchemeSplicedOut(s: string)
    requires IsSplicedScheme(s)
    ensures RemoveAll(s, Literal(JavascriptScheme)) == JavascriptScheme
  {
    SplicedCharKept(s, 0);
    SplicedCharKept(s, 1);
    SplicedCharKept(s, 2);
    SplicedCharKept(s, 3);
    SplicedSchemeDeleted(s);
    var pat := Literal(JavascriptScheme);
    assert s[0..] == s;
    FourCharsKept(s, RemoveAll(s, pat), RemoveAll(s[1..], pat), RemoveAll(s[2..], pat),
                  RemoveAll(s[3..], pat), RemoveAll(s[4..], pat));
  }

  /** No scheme starts in the first four characters of the spliced text. */
  lemma SplicedCharKept(s: string, k: nat)
    requires IsSplicedScheme(s) && k < 4
    ensures RemoveAll(s[k..], Literal(JavascriptScheme)) ==
              [s[k]] + RemoveAll(s[k + 1..], Literal(JavascriptScheme))
  {
    if k == 0 {
      NoMatchAt(s, 0, 4);
    } else {
      NoMatchAt(s, k, 0);
    }
  }

  /** The scheme in the middle of the spliced text is deleted whole, and
      what follows it keeps all of its characters. */
  lemma SplicedSchemeDeleted(s: string)
    requires IsSplicedScheme(s)
    ensures RemoveAll(s[4..], Literal(JavascriptScheme)) == s[15..]
  {
    RemoveLiteralMissingChar(s[15..], JavascriptScheme, 1);
    assert StartsWithIgnoreCase(s[4..], JavascriptScheme);
  }

  /** The scheme does not start at `k` in `s` when the characters at `k + j`
      and `j` differ, so the pass keeps `s[k]`. */
  lemma NoMatchAt(s: string, k: nat, j: nat)
    requires k + j < |s| && j < |JavascriptScheme|
    requires Fold(s[k + j]) != Fold(JavascriptScheme[j])
    ensures RemoveAll(s[k..], Literal(JavascriptScheme)) ==
              [s[k]] + RemoveAll(s[k + 1..], Literal(JavascriptScheme))
  {
    assert s[k..][1..] == s[k + 1..];
    assert s[k..][j] == s[k + j];
  }

  /** Four steps of a pass that each keep a character, `rk` being what the
      pass makes of `s[k..]`. */
  lemma FourCharsKept(s: string, r0: string, r1: string, r2: string, r3: string, r4: string)
    requires 4 <= |s|
    requires r0 == [s[0]] + r1 && r1 == [s[1]] + r2 && r2 == [s[2]] + r3 && r3 == [s[3]] + r4
    ensures r0 == s[..4] + r4
  {
    assert s[..4] == [s[0]] + [s[1]] + [s[2]] + [s[3]];
  }

  // ---------------------------------------------------------------------
  // checkProfanity

  const BannedWords: seq<string> := ["spam", "scam", "phishing", "malware", "virus"]

  /** The lower-cased text contains a word of the denylist. */
  predicate MentionsBannedWord(content: string) {
    exists k :: 0 <= k < |BannedWords| && Contains(ToLower(content), BannedWords[k])
  }

  /** Some white-space separated token longer than three characters occurs
      more than ten times. */
  predicate IsRepetitive(words: seq<string>) {
    exists w :: w in words && |w| > 3 && multiset(words)[w] > 10
  }

  /** The verdict of `checkProfanity(content)`: the denylist is checked
      first, on the lower-cased text; then the repetition of the tokens of
      `content.split(/\s+/)`. */
  function ProfanityVerdict(content: string): (r: CheckResult)
    ensures r.Allowed? <==> !MentionsBannedWord(content) && !IsRepetitive(SplitSpaces(content))
    ensures MentionsBannedWord(content) ==> r == Denied("Prohibited content detected", None)
    ensures r.Denied? && !MentionsBannedWord(content) ==> r == Denied("Spam detected", None)
  {
    if MentionsBannedWord(content) then Denied("Prohibited content detected", None)
    else if IsRepetitive(SplitSpaces(content)) then Denied("Spam detected", None)
    else Allowed
  }

  /** The scan of the denylist over the lower-cased text. */
  method ScanDenylist(lowerContent: string) returns (found: bool)
    ensures found <==> exists k :: 0 <= k < |BannedWords| && Contains(lowerContent, BannedWords[k])
  {
    for k := 0 to |BannedWords|
      invariant forall j :: 0 <= j < k ==> !Contains(lowerContent, BannedWords[j])
    {
      if Contains(lowerContent, BannedWords[k]) {
        return true;
      }
    }
    return false;
  }

  /** The tally of the tokens into a map from token to count. */
  method Tally(words: seq<string>) returns (wordCounts: map<string, nat>)
    ensures forall w :: w in wordCounts <==> w in words
    ensures forall w :: w in wordCounts ==> wordCounts[w] == multiset(words)[w]
  {
    wordCounts := map[];
    for i := 0 to |words|
      invariant forall w :: w in wordCounts <==> w in words[..i]
      invariant forall w :: w in wordCounts ==> wordCounts[w] == multiset(words[..i])[w]
    {
      var word := words[i];
      var previous := if word in wordCounts then wordCounts[word] else 0;
      assert words[..i + 1] == words[..i] + [word];
      wordCounts := wordCounts[word := previous + 1];
    }
    assert words[..|words|] == words;
  }

  /** The scan of the tally for a token longer than three characters counted
      more than ten times. */
  method ScanTally(wordCounts: map<string, nat>) returns (found: bool)
    ensures found <==> exists w :: w in wordCounts && wordCounts[w] > 10 && |w| > 3
  {
    var pending := wordCounts.Keys;
    while pending != {}
      invariant pending <= wordCounts.Keys
      invariant forall w :: w in wordCounts && w !in pending ==> !(wordCounts[w] > 10 && |w| > 3)
      decreases |pending|
    {
      var word :| word in pending;
      if wordCounts[word] > 10 && |word| > 3 {
        return true;
      }
      pending := pending - {word};
    }
    return false;
  }

  /** `checkProfanity(content)`: a scan of the denylist, a tally of the tokens
      into a map, and a scan of the tally. */
  method CheckProfanity(content: string) returns (r: CheckResult)
    ensures r == ProfanityVerdict(content)
  {
    var banned := ScanDenylist(ToLower(content));
    if banned {
      return Denied("Prohibited content detected", None);
    }
    var words := SplitSpaces(content);
    var wordCounts := Tally(words);
    var spam := ScanTally(wordCounts);
    if spam {
      return Denied("Spam detected", None);
    }
    return Allowed;
  }

  /** `n` copies of `w`. */
  function Repeat(w: string, n: nat): (ws: seq<string>)
    ensures |ws| == n
    ensures forall v :: v in ws ==> v == w
  {
    if n == 0 then [] else [w] + Repeat(w, n - 1)
  }

  lemma {:induction false} RepeatCount(w: string, n: nat)
    ensures multiset(Repeat(w, n))[w] == n
  {
    if n > 0 {
      RepeatCount(w, n - 1);
      assert multiset(Repeat(w, n)) == multiset([w]) + multiset(Repeat(w, n - 1));
    }
  }

  /** The repetition threshold: a message that repeats one token `n` times,
      separated by single spaces, and passes the denylist is rejected as spam
      exactly when the token is longer than three characters and `n` exceeds
      ten. */
  lemma RepetitionThreshold(w: string, n: nat)
    requires n >= 1 && w != [] && forall c :: c in w ==> !IsSpace(c)
    requires !MentionsBannedWord(Join(Repeat(w, n), ' '))
    ensures ProfanityVerdict(Join(Repeat(w, n), ' ')) ==
              if |w| > 3 && n > 10 then Denied("Spam detected", None) else Allowed
  {
    SplitSpacesJoin(Repeat(w, n));
    RepeatCount(w, n);
    assert w in Repeat(w, n);
  }

  /** Tokens of at most three characters are never counted as spam, however
      often they repeat. */
  lemma ShortTokensNeverSpam(content: string)
    requires forall w :: w in SplitSpaces(content) ==> |w| <= 3
    requires !MentionsBannedWord(content)
    ensures ProfanityVerdict(content) == Allowed
  {
  }

  /** The denylist is case-insensitive: a banned word written in capitals is
      still found. */
  lemma {:induction false} CapitalsDoNotEvade(prefix: string, suffix: string)
    ensures MentionsBannedWord(prefix + "SPAM" + suffix)
  {
    ToLowerConcat(prefix, "SPAM" + suffix);
    ToLowerConcat("SPAM", suffix);
    assert ToLower("SPAM") == "spam";
    var lower := ToLower(prefix + "SPAM" + suffix);
    assert prefix + "SPAM" + suffix == prefix + ("SPAM" + suffix);
    assert lower == ToLower(prefix) + ("spam" + ToLower(suffix));
    ContainsAfter(ToLower(prefix), "spam" + ToLower(suffix), "spam");
    assert BannedWords[0] == "spam";
  }

  lemma {:induction false} ToLowerConcat(a: string, b: string)
    ensures ToLower(a + b) == ToLower(a) + ToLower(b)
    decreases |a|
  {
    if a != [] {
      assert (a + b)[0] == a[0];
      assert (a + b)[1..] == a[1..] + b;
      ToLowerConcat(a[1..], b);
    } else {
      assert a + b == b;
    }
  }

  /** A text contains whatever its suffix starts with. */
  lemma {:induction false} ContainsAfter(a: string, b: string, t: string)
    requires StartsWith(b, t)
    ensures Contains(a + b, t)
    decreases |a|
  {
    if a != [] {
      assert (a + b)[1..] == a[1..] + b;
      ContainsAfter(a[1..], b, t);
    } else {
      assert a + b == b;
    }
  }
}
