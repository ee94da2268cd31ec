/** The JavaScript string operations the sanitisers, the classifier and the
    address parser are built from: `trim`, `toLowerCase`, `split`,
    `substring`, `includes`, and global `replace` with the few regular
    expressions the source uses. Strings are sequences of characters; each
    character stands for one UTF-16 code unit of the original. */
module JsText {

  /** White space as `trim`, `parseInt` and the regex class `\s` see it
      (WhiteSpace and LineTerminator of ECMAScript). */
  predicate IsSpace(c: char) {
    c == ' ' || c == '\t' || c == '\n' || c == '\r' || c == '\U{000B}' || c == '\U{000C}'
    || c == '\U{00A0}' || c == '\U{1680}' || ('\U{2000}' <= c <= '\U{200A}')
    || c == '\U{2028}' || c == '\U{2029}' || c == '\U{202F}' || c == '\U{205F}'
    || c == '\U{3000}' || c == '\U{FEFF}'
  }

  /** The regex class `\w`. */
  predicate IsWordChar(c: char) {
    ('a' <= c <= 'z') || ('A' <= c <= 'Z') || ('0' <= c <= '9') || c == '_'
  }

  /** The regex class `\d`. */
  predicate IsDigit(c: char) {
    '0' <= c <= '9'
  }

  predicate IsUpper(c: char) {
    'A' <= c <= 'Z'
  }

  /** Every character of `r` occurs in `s`: what any deleting rewrite keeps. */
  ghost predicate CharsFrom(r: string, s: string) {
    forall c :: c in r ==> c in s
  }

  /** `s.substring(0, n)`: the first `n` characters, `n` clamped to `[0, |s|]`. */
  function Prefix(s: string, n: int): (r: string)
    ensures |r| <= |s| && (n >= 0 ==> |r| <= n) && (n < 0 ==> r == [])
    ensures r == s[..|r|]
    ensures 0 <= n && |s| <= n ==> r == s
  {
    if n <= 0 then [] else if n < |s| then s[..n] else s
  }

  predicate StartsWith(s: string, p: string) {
    |p| <= |s| && s[..|p|] == p
  }

  /** `s.includes(t)` */
  predicate Contains(s: string, t: string)
    decreases |s|
  {
    StartsWith(s, t) || (s != [] && Contains(s[1..], t))
  }

  /** A pattern whose first character is absent from `s` does not occur in it. */
  lemma {:induction false} NotContainsWithoutFirst(s: string, t: string)
    requires t != [] && t[0] !in s
    ensures !Contains(s, t)
    decreases |s|
  {
    if s != [] {
      assert s[0] != t[0];
      assert t[0] !in s[1..];
      NotContainsWithoutFirst(s[1..], t);
    }
  }

  /** The number of leading characters of `s` that satisfy `p` (a greedy
      `[...]*`). */
  function Span(s: string, p: char -> bool): (n: nat)
    ensures n <= |s|
    ensures forall i :: 0 <= i < n ==> p(s[i])
    ensures n == |s| || !p(s[n])
  {
    if s != [] && p(s[0]) then 1 + Span(s[1..], p) else 0
  }

  /** The index of the first character satisfying `p`, or `|s|` if none does. */
  function FirstIndex(s: string, p: char -> bool): (i: nat)
    ensures i <= |s|
    ensures i < |s| ==> p(s[i])
    ensures forall k :: 0 <= k < i ==> !p(s[k])
  {
    if s == [] || p(s[0]) then 0 else 1 + FirstIndex(s[1..], p)
  }

  // ---------------------------------------------------------------------
  // trim

  /** Leading white space removed. */
  function TrimStart(s: string): (r: string)
    ensures |r| <= |s| && r == s[|s| - |r|..]
    ensures r == [] || !IsSpace(r[0])
    ensures forall i :: 0 <= i < |s| - |r| ==> IsSpace(s[i])
  {
    if s != [] && IsSpace(s[0]) then
      var r := TrimStart(s[1..]);
      assert s[1..][|s| - 1 - |r|..] == s[|s| - |r|..];
      assert forall i :: 1 <= i < |s| - |r| ==> s[i] == s[1..][i - 1];
      r
    else s
  }

  /** Trailing white space removed. */
  function TrimEnd(s: string): (r: string)
    ensures |r| <= |s| && r == s[..|r|]
    ensures r == [] || !IsSpace(r[|r| - 1])
    ensures forall i :: |r| <= i < |s| ==> IsSpace(s[i])
  {
    if s != [] && IsSpace(s[|s| - 1]) then TrimEnd(s[..|s| - 1]) else s
  }

  /** `s.trim()`: a contiguous slice of `s` with no white space at either end,
      and only white space cut off. */
  function Trim(s: string): (r: string)
    ensures |r| <= |s| && CharsFrom(r, s)
    ensures r == [] || (!IsSpace(r[0]) && !IsSpace(r[|r| - 1]))
    ensures (forall c :: c in s ==> !IsSpace(c)) ==> r == s
  {
    var t := TrimStart(s);
    var r := TrimEnd(t);
    assert forall c :: c in r ==> c in t;
    r
  }

  // ---------------------------------------------------------------------
  // toLowerCase

  /** The lower-case mapping of one character, as far as it can produce an
      ASCII character: `A`-`Z`, the Kelvin sign (to `k`) and the capital I with
      dot above (to `i` followed by a combining dot). Every other character is
      kept: its real lower case is not ASCII either. */
  function LowerChar(c: char): (r: string)
    ensures 1 <= |r| <= 2
    ensures forall d :: d in r ==> !IsUpper(d)
  {
    if IsUpper(c) then [(c as int + 32) as char]
    else if c == '\U{212A}' then "k"
    else if c == '\U{0130}' then "i\U{0307}"
    else [c]
  }

  /** `s.toLowerCase()` */
  function ToLower(s: string): (r: string)
    ensures forall d :: d in r ==> !IsUpper(d)
  {
    if s == [] then [] else LowerChar(s[0]) + ToLower(s[1..])
  }

  /** A lower-case ASCII letter other than `i` and `k` appears in the lower-cased
      text only where it or its capital appeared in the original. */
  lemma {:induction false} LowerLetterOrigin(s: string, x: char)
    requires 'a' <= x <= 'z' && x != 'i' && x != 'k'
    requires x in ToLower(s)
    ensures x in s || (x as int - 32) as char in s
  {
    if s != [] {
      if x in LowerChar(s[0]) {
        assert s[0] == x || s[0] == (x as int - 32) as char;
      } else {
        LowerLetterOrigin(s[1..], x);
      }
    }
  }

  // ---------------------------------------------------------------------
  // case-insensitive matching and global removal

  /** The case folding a `/…/i` regular expression applies when its pattern is
      ASCII: only `A`-`Z` and `a`-`z` are identified (no non-ASCII character
      canonicalises to an ASCII one). */
  function Fold(c: char): char {
    if IsUpper(c) then (c as int + 32) as char else c
  }

  predicate StartsWithIgnoreCase(s: string, p: string) {
    |p| <= |s| && forall i :: 0 <= i < |p| ==> Fold(s[i]) == Fold(p[i])
  }

  /** The URL scheme both sanitisers delete (`/javascript:/gi`). */
  const JavascriptScheme: string := "javascript:"

  /** The regular expressions the sanitisers delete with a global `replace`. */
  datatype Pattern =
    | Literal(text: string)  // `/text/gi` (or a literal with no letters, where case does not matter)
    | Handler(spaced: bool)  // `/on\w+=/gi`, or `/on\w+\s*=/gi` when `spaced`

  /** The length of the match of `pat` at the start of `s`, 0 when there is
      none. `\w+` and `\s*` are greedy; since `=` is neither a word character
      nor white space, backtracking never finds another match, so the greedy
      run decides. */
  function MatchLength(s: string, pat: Pattern): (n: nat)
    ensures n <= |s|
  {
    match pat
    case Literal(t) => if t != [] && StartsWithIgnoreCase(s, t) then |t| else 0
    case Handler(spaced) =>
      if 2 <= |s| && Fold(s[0]) == 'o' && Fold(s[1]) == 'n' then
        var w := 2 + Span(s[2..], IsWordChar);
        var e := if spaced then w + Span(s[w..], IsSpace) else w;
        if w > 2 && e < |s| && s[e] == '=' then e + 1 else 0
      else 0
  }

  /** `s.replace(pat, '')` with the global flag: matches are searched left to
      right, and the search resumes after each deleted match. */
  function RemoveAll(s: string, pat: Pattern): (r: string)
    ensures |r| <= |s| && CharsFrom(r, s)
    decreases |s|
  {
    if s == [] then []
    else
      var n := MatchLength(s, pat);
      if n > 0 then RemoveAll(s[n..], pat) else [s[0]] + RemoveAll(s[1..], pat)
  }

  /** Deleting a literal that starts with a character `s` does not contain
      changes nothing. */
  lemma {:induction false} RemoveAbsentLiteral(s: string, t: string)
    requires t != [] && !IsUpper(t[0]) && !('a' <= t[0] <= 'z') && t[0] !in s
    ensures RemoveAll(s, Literal(t)) == s
    decreases |s|
  {
    if s != [] {
      assert Fold(s[0]) != Fold(t[0]);
      assert MatchLength(s, Literal(t)) == 0;
      RemoveAbsentLiteral(s[1..], t);
    }
  }

  /** Deleting a literal changes nothing when one of its characters occurs
      in `s` in neither case. */
  lemma {:induction false} RemoveLiteralMissingChar(s: string, t: string, k: nat)
    requires k < |t| && forall i :: 0 <= i < |s| ==> Fold(s[i]) != Fold(t[k])
    ensures RemoveAll(s, Literal(t)) == s
    decreases |s|
  {
    if s != [] {
      assert k < |s| ==> Fold(s[k]) != Fold(t[k]);
      assert MatchLength(s, Literal(t)) == 0;
      assert forall i :: 0 <= i < |s[1..]| ==> s[1..][i] == s[i + 1];
      RemoveLiteralMissingChar(s[1..], t, k);
      assert s == [s[0]] + s[1..];
    }
  }

  /** An event-handler attribute needs an `=`: text without one keeps all of
      its characters. */
  lemma {:induction false} RemoveHandlerWithoutEquals(s: string, spaced: bool)
    requires '=' !in s
    ensures RemoveAll(s, Handler(spaced)) == s
    decreases |s|
  {
    if s != [] {
      assert MatchLength(s, Handler(spaced)) == 0;
      assert '=' !in s[1..];
      RemoveHandlerWithoutEquals(s[1..], spaced);
      assert s == [s[0]] + s[1..];
    }
  }

  /** `s.replace(/[…]/g, '')`: every character `drop` selects is deleted. */
  function Filter(s: string, drop: char -> bool): (r: string)
    ensures |r| <= |s|
    ensures forall c :: c in r <==> c in s && !drop(c)
  {
    if s == [] then []
    else if drop(s[0]) then Filter(s[1..], drop)
    else [s[0]] + Filter(s[1..], drop)
  }

  lemma {:induction false} FilterConcat(a: string, b: string, drop: char -> bool)
    ensures Filter(a + b, drop) == Filter(a, drop) + Filter(b, drop)
    decreases |a|
  {
    if a != [] {
      assert (a + b)[0] == a[0];
      assert (a + b)[1..] == a[1..] + b;
      FilterConcat(a[1..], b, drop);
    } else {
      assert a + b == b;
    }
  }

  /** Nothing to delete, nothing deleted. */
  lemma {:induction false} FilterKeepsAll(s: string, drop: char -> bool)
    requires forall c :: c in s ==> !drop(c)
    ensures Filter(s, drop) == s
    decreases |s|
  {
    if s != [] {
      assert s[0] in s;
      assert forall c :: c in s[1..] ==> c in s;
      FilterKeepsAll(s[1..], drop);
      assert s == [s[0]] + s[1..];
    }
  }

  /** `s.replace(/c/g, rep)` for a single character `c`. */
  function ReplaceChar(s: string, c: char, rep: string): (r: string)
    ensures c !in rep ==> c !in r
    ensures forall d :: d in r ==> d in s || d in rep
  {
    if s == [] then []
    else (if s[0] == c then rep else [s[0]]) + ReplaceChar(s[1..], c, rep)
  }

  lemma {:induction false} ReplaceCharConcat(a: string, b: string, c: char, rep: string)
    ensures ReplaceChar(a + b, c, rep) == ReplaceChar(a, c, rep) + ReplaceChar(b, c, rep)
    decreases |a|
  {
    if a != [] {
      assert (a + b)[0] == a[0];
      assert (a + b)[1..] == a[1..] + b;
      ReplaceCharConcat(a[1..], b, c, rep);
    } else {
      assert a + b == b;
    }
  }

  // ---------------------------------------------------------------------
  // split and join

  /** `s.indexOf(c)`, with `|s|` standing for "not found". */
  function IndexOf(s: string, c: char): (i: nat)
    ensures i <= |s|
    ensures i < |s| ==> s[i] == c
    ensures forall k :: 0 <= k < i ==> s[k] != c
  {
    if s == [] || s[0] == c then 0 else 1 + IndexOf(s[1..], c)
  }

  /** `s.split(sep)` for a one-character separator: the pieces between
      separators, empty pieces included. */
  function Split(s: string, sep: char): (parts: seq<string>)
    ensures |parts| >= 1
    ensures forall p :: p in parts ==> sep !in p
    decreases |s|
  {
    var i := IndexOf(s, sep);
    if i == |s| then [s] else [s[..i]] + Split(s[i + 1..], sep)
  }

  /** A piece without the separator, followed by the separator, splits off
      as the first piece. */
  lemma {:induction false} SplitCons(a: string, rest: string, sep: char)
    requires sep !in a
    ensures Split(a + [sep] + rest, sep) == [a] + Split(rest, sep)
  {
    var s := a + [sep] + rest;
    assert forall k :: 0 <= k < |a| ==> s[k] == a[k];
    assert s[|a|] == sep;
    assert IndexOf(s, sep) == |a|;
    assert s[..|a|] == a;
    assert s[|a| + 1..] == rest;
  }

  /** A string without the separator splits into itself alone. */
  lemma SplitWithoutSeparator(s: string, sep: char)
    requires sep !in s
    ensures Split(s, sep) == [s]
  {
    var i := IndexOf(s, sep);
  }

  /** `parts.join(sep)` */
  function Join(parts: seq<string>, sep: char): string {
    if |parts| == 0 then []
    else if |parts| == 1 then parts[0]
    else parts[0] + [sep] + Join(parts[1..], sep)
  }

  /** Splitting a join gives the pieces back when no piece holds the separator. */
  lemma {:induction false} SplitJoin(parts: seq<string>, sep: char)
    requires |parts| >= 1
    requires forall p :: p in parts ==> sep !in p
    ensures Split(Join(parts, sep), sep) == parts
    decreases |parts|
  {
    var s := Join(parts, sep);
    var a := parts[0];
    var i := IndexOf(s, sep);
    if |parts| == 1 {
      assert s == a;
      assert sep !in s;
    } else {
      var rest := Join(parts[1..], sep);
      assert s == a + [sep] + rest;
      assert sep !in a;
      assert forall k :: 0 <= k < |a| ==> s[k] == a[k];
      assert s[|a|] == sep;
      assert i == |a|;
      assert s[..i] == a;
      assert s[i + 1..] == rest;
      assert forall p :: p in parts[1..] ==> p in parts;
      SplitJoin(parts[1..], sep);
    }
  }

  /** `s.split(/\s+/)`: the pieces between maximal runs of white space; a
      leading or trailing run gives an empty first or last piece. */
  function SplitSpaces(s: string): (parts: seq<string>)
    ensures |parts| >= 1
    decreases |s|
  {
    var i := FirstIndex(s, IsSpace);
    if i == |s| then [s]
    else
      var j := i + Span(s[i..], IsSpace);
      [s[..i]] + SplitSpaces(s[j..])
  }

  /** The pieces of a white-space split hold no white space. */
  lemma {:induction false} SplitSpacesPieces(s: string)
    ensures forall p, c :: p in SplitSpaces(s) && c in p ==> !IsSpace(c)
    decreases |s|
  {
    var i := FirstIndex(s, IsSpace);
    if i < |s| {
      var j := i + Span(s[i..], IsSpace);
      SplitSpacesPieces(s[j..]);
      assert forall c :: c in s[..i] ==> !IsSpace(c);
    }
  }

  /** A word without white space, a single space, then text that does not
      start with white space: the word splits off as the first piece. */
  lemma {:induction false} SplitSpacesCons(a: string, rest: string)
    requires forall c :: c in a ==> !IsSpace(c)
    requires rest != [] && !IsSpace(rest[0])
    ensures SplitSpaces(a + [' '] + rest) == [a] + SplitSpaces(rest)
  {
    var s := a + [' '] + rest;
    assert forall k :: 0 <= k < |a| ==> s[k] == a[k] && a[k] in a;
    assert s[|a|] == ' ';
    assert FirstIndex(s, IsSpace) == |a|;
    var t := s[|a|..];
    assert t == [' '] + rest;
    assert t[1..] == rest;
    assert Span(t, IsSpace) == 1;
    assert s[..|a|] == a;
    assert s[|a| + 1..] == rest;
  }

  /** Words without white space, joined by single spaces, split back into
      the same words. */
  lemma {:induction false} SplitSpacesJoin(parts: seq<string>)
    requires |parts| >= 1
    requires forall p :: p in parts ==> p != [] && forall c :: c in p ==> !IsSpace(c)
    ensures SplitSpaces(Join(parts, ' ')) == parts
    decreases |parts|
  {
    var a := parts[0];
    assert a in parts;
    if |parts| == 1 {
      var s := Join(parts, ' ');
      assert s == a;
      assert forall k :: 0 <= k < |s| ==> s[k] in a;
    } else {
      var rest := Join(parts[1..], ' ');
      assert parts[1] in parts;
      JoinStartsWithFirst(parts[1..]);
      assert Join(parts, ' ') == a + [' '] + rest;
      SplitSpacesCons(a, rest);
      assert forall p :: p in parts[1..] ==> p in parts;
      SplitSpacesJoin(parts[1..]);
    }
  }

  /** A join of non-empty pieces starts with the first character of the
      first piece. */
  lemma JoinStartsWithFirst(parts: seq<string>)
    requires |parts| >= 1 && parts[0] != []
    ensures Join(parts, ' ') != [] && Join(parts, ' ')[0] == parts[0][0]
  {
    if |parts| > 1 {
      assert Join(parts, ' ') == parts[0] + [' '] + Join(parts[1..], ' ');
    }
  }
}
