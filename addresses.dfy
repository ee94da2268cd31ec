/** The reputation filter: `ipToNumber`, `isIPInRange` and the TOR exit node
    and VPN/proxy list checks. The list the source reads from `torlist.json`
    or `vpnlist.json` is a parameter here; a list that cannot be read or
    parsed is the empty list. JavaScript numbers are modelled as exact
    integers or NaN (the rounding of doubles above 2^53 is not), with the
    32-bit conversions the shift operators apply written out. */
module Addresses {
  import opened Wrappers
  import opened JsText

  const TwoTo31: int := 0x8000_0000
  const TwoTo32: int := 0x1_0000_0000

  /** A JavaScript number as this code meets it: an integer, or NaN. */
  datatype Num = NaN | Int(v: int)

  /** ToUint32, the conversion behind `>>> 0`. */
  function ToUint32(x: int): (r: int)
    ensures 0 <= r < TwoTo32
    ensures (r - x) % TwoTo32 == 0
    ensures 0 <= x < TwoTo32 ==> r == x
  {
    x % TwoTo32
  }

  /** ToInt32, the conversion every bitwise operator applies to its operands
      and its result. */
  function ToInt32(x: int): (r: int)
    ensures -TwoTo31 <= r < TwoTo31
    ensures (r - x) % TwoTo32 == 0
    ensures -TwoTo31 <= x < TwoTo31 ==> r == x
  {
    var m := x % TwoTo32;
    if m >= TwoTo31 then m - TwoTo32 else m
  }

  function Pow2(n: nat): (p: nat)
    ensures p >= 1
  {
    if n == 0 then 1 else 2 * Pow2(n - 1)
  }

  lemma {:induction false} Pow2Add(a: nat, b: nat)
    ensures Pow2(a + b) == Pow2(a) * Pow2(b)
    decreases a
  {
    if a > 0 {
      Pow2Add(a - 1, b);
    }
  }

  lemma Pow2Values()
    ensures Pow2(8) == 0x100 && Pow2(31) == TwoTo31
  {
    assert Pow2(1) == 2;
    Pow2Add(1, 1);
    Pow2Add(2, 2);
    Pow2Add(4, 4);
    Pow2Add(8, 8);
    Pow2Add(16, 16);
    assert Pow2(32) == 2 * Pow2(31);
  }

  // ---------------------------------------------------------------------
  // parseInt

  /** Every character of `d` is a decimal digit (checked from the right, the
      order in which `DigitsValue` reads them). */
  predicate AllDigits(d: string)
    decreases |d|
  {
    d == [] || (AllDigits(d[..|d| - 1]) && IsDigit(d[|d| - 1]))
  }

  lemma {:induction false} DigitsEverywhere(d: string)
    ensures AllDigits(d) <==> forall i :: 0 <= i < |d| ==> IsDigit(d[i])
    decreases |d|
  {
    if d != [] {
      var init := d[..|d| - 1];
      DigitsEverywhere(init);
      assert forall i :: 0 <= i < |init| ==> init[i] == d[i];
    }
  }

  /** The value of a string of decimal digits. */
  function DigitsValue(d: string): nat
    requires AllDigits(d)
  {
    if d == [] then 0 else DigitsValue(d[..|d| - 1]) * 10 + (d[|d| - 1] as int - '0' as int)
  }

  /** The longest run of decimal digits at the head of `u`, read in base 10;
      NaN when `u` does not start with a digit. */
  function LeadingDigits(u: string): (n: Num)
    ensures n.Int? <==> u != [] && IsDigit(u[0])
    ensures n.Int? ==> n.v >= 0
  {
    var k := Span(u, IsDigit);
    if k == 0 then NaN
    else
      DigitsEverywhere(u[..k]);
      Int(DigitsValue(u[..k]))
  }

  /** `parseInt(s, 10)`: leading white space skipped, an optional sign, then
      the longest run of decimal digits; NaN when there is no digit. */
  function ParseInt(s: string): (n: Num)
    ensures var t := TrimStart(s);
            n.Int? <==> t != [] && (IsDigit(t[0]) || ((t[0] == '-' || t[0] == '+') && |t| > 1 && IsDigit(t[1])))
  {
    var t := TrimStart(s);
    if t != [] && t[0] == '-' then
      match LeadingDigits(t[1..])
      case NaN => NaN
      case Int(m) => Int(-m)
    else if t != [] && t[0] == '+' then LeadingDigits(t[1..])
    else LeadingDigits(t)
  }

  /** A non-empty string of digits parses to its decimal value. */
  lemma ParseDecimal(d: string)
    requires d != [] && AllDigits(d)
    ensures ParseInt(d) == Int(DigitsValue(d))
  {
    DigitsEverywhere(d);
    assert !IsSpace(d[0]);
    assert TrimStart(d) == d;
    var k := Span(d, IsDigit);
    assert k == |d|;
    assert d[..k] == d;
  }

  /** A string that starts with something other than white space, a sign or
      a digit parses to NaN. */
  lemma ParseNothing(s: string)
    requires s != [] && !IsSpace(s[0]) && !IsDigit(s[0]) && s[0] != '-' && s[0] != '+'
    ensures ParseInt(s) == NaN
  {
    assert TrimStart(s) == s;
  }

  predicate IsHexDigit(c: char) {
    IsDigit(c) || ('a' <= c <= 'f') || ('A' <= c <= 'F')
  }

  function HexDigitValue(c: char): (v: nat)
    requires IsHexDigit(c)
    ensures v < 16
  {
    if IsDigit(c) then c as int - '0' as int
    else if 'a' <= c <= 'f' then c as int - 'a' as int + 10
    else c as int - 'A' as int + 10
  }

  /** The value of a string of hexadecimal digits. */
  function HexDigitsValue(d: string): nat
    requires forall i :: 0 <= i < |d| ==> IsHexDigit(d[i])
  {
    if d == [] then 0 else HexDigitsValue(d[..|d| - 1]) * 16 + HexDigitValue(d[|d| - 1])
  }

  /** The longest run of hexadecimal digits at the head of `u`, read in base
      16; NaN when `u` does not start with one. */
  function LeadingHexDigits(u: string): (n: Num)
    ensures n.Int? <==> u != [] && IsHexDigit(u[0])
    ensures n.Int? ==> n.v >= 0
  {
    var k := Span(u, IsHexDigit);
    if k == 0 then NaN else Int(HexDigitsValue(u[..k]))
  }

  /** Without a radix, `parseInt` reads a `0x` or `0X` after the sign as the
      mark of base 16. */
  predicate HasHexPrefix(u: string) {
    |u| >= 2 && u[0] == '0' && (u[1] == 'x' || u[1] == 'X')
  }

  /** The text after the leading white space and the optional sign. */
  function AfterSign(s: string): (u: string)
    ensures |u| <= |s|
  {
    var t := TrimStart(s);
    if t != [] && (t[0] == '-' || t[0] == '+') then t[1..] else t
  }

  /** `parseInt(s)` with no radix: as `parseInt(s, 10)`, except that a `0x`
      or `0X` after the sign switches to base 16, and then NaN unless a
      hexadecimal digit follows. */
  function ParseIntNoRadix(s: string): (n: Num)
    ensures !HasHexPrefix(AfterSign(s)) ==> n == ParseInt(s)
    ensures HasHexPrefix(AfterSign(s)) ==>
              (n.Int? <==> |AfterSign(s)| > 2 && IsHexDigit(AfterSign(s)[2]))
  {
    var t := TrimStart(s);
    var u := AfterSign(s);
    if !HasHexPrefix(u) then ParseInt(s)
    else
      match LeadingHexDigits(u[2..])
      case NaN => NaN
      case Int(m) => if t[0] == '-' then Int(-m) else Int(m)
  }

  /** `0x` followed by hexadecimal digits parses to their value in base 16. */
  lemma HexTextIsBase16(h: string)
    requires h != [] && forall i :: 0 <= i < |h| ==> IsHexDigit(h[i])
    ensures ParseIntNoRadix("0x" + h) == Int(HexDigitsValue(h))
  {
    var s := "0x" + h;
    HexMarkIsUnsigned(s);
    assert s[2..] == h;
    AllHexDigitsRead(h);
  }

  lemma HexMarkIsUnsigned(s: string)
    requires |s| >= 2 && s[0] == '0' && s[1] == 'x'
    ensures AfterSign(s) == s && HasHexPrefix(s)
  {
    assert !IsSpace(s[0]);
    assert TrimStart(s) == s;
  }

  lemma AllHexDigitsRead(h: string)
    requires h != [] && forall i :: 0 <= i < |h| ==> IsHexDigit(h[i])
    ensures LeadingHexDigits(h) == Int(HexDigitsValue(h))
  {
    var k := Span(h, IsHexDigit);
    assert k == |h|;
    assert h[..k] == h;
  }

  // ---------------------------------------------------------------------
  // ipToNumber

  /** `x << 8` */
  function ShiftLeft8(x: Num): Num {
    match x
    case NaN => Int(0)
    case Int(v) => Int(ToInt32(ToInt32(v) * 256))
  }

  /** `(acc << 8) + octet`: NaN in the octet absorbs. */
  function Shift(acc: Num, octet: Num): (r: Num)
    ensures r.Int? <==> octet.Int?
  {
    match (ShiftLeft8(acc), octet)
    case (Int(a), Int(o)) => Int(a + o)
    case _ => NaN
  }

  /** `pieces.map(Number.parseInt).reduce((acc, octet) => (acc << 8) + octet, acc)` */
  function Accumulate(acc: Num, pieces: seq<string>): Num
    decreases |pieces|
  {
    if pieces == [] then acc else Accumulate(Shift(acc, ParseInt(pieces[0])), pieces[1..])
  }

  /** `n >>> 0`: NaN becomes 0. */
  function Unsigned(n: Num): (r: int)
    ensures 0 <= r < TwoTo32
    ensures n.Int? && 0 <= n.v < TwoTo32 ==> r == n.v
  {
    match n
    case NaN => 0
    case Int(v) => ToUint32(v)
  }

  /** `ipToNumber(ip)`: split at dots, parse each piece, fold with shifts. */
  function IpToNumber(ip: string): (n: int)
    ensures 0 <= n < TwoTo32
  {
    Unsigned(Accumulate(Int(0), Split(ip, '.')))
  }

  /** Four octets fold to the big-endian 32-bit value, although the fourth
      shift overflows into the sign bit whenever the first octet is 128 or
      more: the final `>>> 0` undoes the wrap-around. */
  lemma QuadValue(a: int, b: int, c: int, d: int)
    requires 0 <= a < 256 && 0 <= b < 256 && 0 <= c < 256 && 0 <= d < 256
    ensures Unsigned(Shift(Shift(Shift(Shift(Int(0), Int(a)), Int(b)), Int(c)), Int(d)))
            == a * 0x100_0000 + b * 0x1_0000 + c * 0x100 + d
  {
    var x2 := a * 0x100 + b;
    var x3 := a * 0x1_0000 + b * 0x100 + c;
    assert Shift(Int(0), Int(a)) == Int(a);
    assert 0 <= a * 0x100 < TwoTo31;
    assert Shift(Int(a), Int(b)) == Int(x2);
    assert 0 <= x2 * 0x100 < TwoTo31;
    assert x2 * 0x100 + c == x3;
    assert Shift(Int(x2), Int(c)) == Int(x3);
    var high := x3 * 0x100;
    assert 0 <= x3 < 0x100_0000;
    assert 0 <= high <= TwoTo32 - 0x100;
    assert high == a * 0x100_0000 + b * 0x1_0000 + c * 0x100;
    var acc4 := Shift(Int(x3), Int(d));
    assert acc4 == Int(ToInt32(high) + d);
    if high >= TwoTo31 {
      assert ToInt32(high) == high - TwoTo32;
      assert ToUint32(high - TwoTo32 + d) == high + d;
    }
  }

  /** A string of one to three digits naming an octet. */
  predicate IsOctet(s: string) {
    1 <= |s| <= 3 && AllDigits(s) && DigitsValue(s) < 256
  }

  /** The pieces of a dotted quad, written with explicit grouping. */
  lemma SplitNested(a: string, b: string, c: string, d: string)
    requires '.' !in a && '.' !in b && '.' !in c && '.' !in d
    ensures Split(a + ['.'] + (b + ['.'] + (c + ['.'] + d)), '.') == [a, b, c, d]
  {
    SplitWithoutSeparator(d, '.');
    SplitCons(c, d, '.');
    SplitCons(b, c + ['.'] + d, '.');
    SplitCons(a, b + ['.'] + (c + ['.'] + d), '.');
  }

  /** The pieces of a dotted quad. */
  lemma SplitQuad(a: string, b: string, c: string, d: string)
    requires '.' !in a && '.' !in b && '.' !in c && '.' !in d
    ensures Split(a + "." + b + "." + c + "." + d, '.') == [a, b, c, d]
  {
    var dot: string := ".";
    assert dot == ['.'];
    var cd := c + ['.'] + d;
    var bcd := b + ['.'] + cd;
    assert a + dot + b + dot + c == a + ['.'] + b + ['.'] + c;
    assert a + dot + b + dot + c + dot + d == a + ['.'] + bcd;
    SplitNested(a, b, c, d);
  }

  lemma DigitsHaveNoSeparator(s: string)
    requires AllDigits(s)
    ensures '.' !in s && '/' !in s
  {
    DigitsEverywhere(s);
  }

  /** The fold over four pieces, unrolled. */
  lemma AccumulateFour(a: string, b: string, c: string, d: string)
    ensures Accumulate(Int(0), [a, b, c, d])
            == Shift(Shift(Shift(Shift(Int(0), ParseInt(a)), ParseInt(b)), ParseInt(c)), ParseInt(d))
  {
    var s1 := Shift(Int(0), ParseInt(a));
    var s2 := Shift(s1, ParseInt(b));
    var s3 := Shift(s2, ParseInt(c));
    assert [a, b, c, d][1..] == [b, c, d];
    assert Accumulate(Int(0), [a, b, c, d]) == Accumulate(s1, [b, c, d]);
    assert [b, c, d][1..] == [c, d];
    assert Accumulate(s1, [b, c, d]) == Accumulate(s2, [c, d]);
    assert [c, d][1..] == [d];
    assert Accumulate(s2, [c, d]) == Accumulate(s3, [d]);
    assert [d][1..] == [];
    assert Accumulate(s3, [d]) == Accumulate(Shift(s3, ParseInt(d)), []);
  }

  /** A dotted quad of decimal octets converts to its big-endian value. */
  lemma DottedQuadValue(a: string, b: string, c: string, d: string)
    requires IsOctet(a) && IsOctet(b) && IsOctet(c) && IsOctet(d)
    ensures IpToNumber(a + "." + b + "." + c + "." + d)
            == DigitsValue(a) * 0x100_0000 + DigitsValue(b) * 0x1_0000 + DigitsValue(c) * 0x100 + DigitsValue(d)
  {
    DigitsHaveNoSeparator(a);
    DigitsHaveNoSeparator(b);
    DigitsHaveNoSeparator(c);
    DigitsHaveNoSeparator(d);
    SplitQuad(a, b, c, d);
    AccumulateFour(a, b, c, d);
    ParseDecimal(a);
    ParseDecimal(b);
    ParseDecimal(c);
    ParseDecimal(d);
    QuadValue(DigitsValue(a), DigitsValue(b), DigitsValue(c), DigitsValue(d));
  }

  /** An address that does not parse (the resolver's "unknown", say) becomes
      NaN in the fold and then 0: it is treated as 0.0.0.0. */
  lemma UnparsableIsZero(ip: string)
    requires '.' !in ip && ip != []
    requires !IsSpace(ip[0]) && !IsDigit(ip[0]) && ip[0] != '-' && ip[0] != '+'
    ensures IpToNumber(ip) == 0
  {
    SplitWithoutSeparator(ip, '.');
    ParseNothing(ip);
    assert [ip][1..] == [];
    assert Accumulate(Int(0), [ip]) == Accumulate(NaN, []);
  }

  // ---------------------------------------------------------------------
  // isIPInRange

  /** The number of low bits `0xFFFFFFFF << (32 - prefix)` clears: the shift
      count is taken modulo 32, and a NaN prefix counts as 0. */
  function ClearedBits(prefix: Num): (s: nat)
    ensures s < 32
    ensures prefix.Int? && 1 <= prefix.v <= 32 ==> s == 32 - prefix.v
  {
    match prefix
    case NaN => 0
    case Int(m) => ToUint32(32 - m) % 32
  }

  /** `(0xFFFFFFFF << s) >>> 0`: 32 - s one bits followed by s zero bits. */
  function MaskNum(s: nat): (m: int)
    requires s < 32
    ensures m == TwoTo32 - Pow2(s)
  {
    PowBound(s);
    ToUint32(ToInt32(ToInt32(0xFFFF_FFFF) * Pow2(s)))
  }

  lemma PowBound(s: nat)
    requires s < 32
    ensures Pow2(s) <= TwoTo31
    decreases 31 - s
  {
    if s < 31 {
      PowBound(s + 1);
    } else {
      Pow2Values();
    }
  }

  /** `x & MaskNum(s)` keeps the high `32 - s` bits of `x`: two values agree
      under the mask exactly when they agree after dropping the low `s` bits. */
  predicate SameUnderMask(x: int, y: int, s: nat)
    requires s < 32
  {
    x / Pow2(s) == y / Pow2(s)
  }

  /** `isIPInRange(ip, cidr)`: the part before the first `/` is the base
      address, the part after it the prefix length, read by `parseInt`
      without a radix. */
  predicate IsIPInRange(ip: string, cidr: string)
    ensures IpToNumber(ip) == IpToNumber(Split(cidr, '/')[0]) ==> IsIPInRange(ip, cidr)
  {
    var parts := Split(cidr, '/');
    var prefix := if |parts| >= 2 then ParseIntNoRadix(parts[1]) else NaN;
    SameUnderMask(IpToNumber(ip), IpToNumber(parts[0]), ClearedBits(prefix))
  }

  /** The base and prefix of a range written `base/prefix`. */
  lemma RangeParts(ip: string, base: string, prefix: string)
    requires '/' !in base && '/' !in prefix
    ensures IsIPInRange(ip, base + "/" + prefix) ==
              SameUnderMask(IpToNumber(ip), IpToNumber(base), ClearedBits(ParseIntNoRadix(prefix)))
  {
    SplitCons(base, prefix, '/');
    assert base + "/" + prefix == base + ['/'] + prefix;
    SplitWithoutSeparator(prefix, '/');
  }

  /** A prefix that clears no bits makes the range match exactly its base. */
  lemma ShiftlessRangeIsExact(ip: string, base: string, prefix: string)
    requires '/' !in base && '/' !in prefix
    requires ClearedBits(ParseIntNoRadix(prefix)) == 0
    ensures IsIPInRange(ip, base + "/" + prefix) <==> IpToNumber(ip) == IpToNumber(base)
  {
    RangeParts(ip, base, prefix);
  }

  /** A `/32` range matches only addresses with the same number as its
      base, and so does a `/0` range: the shift count 32 is taken modulo 32,
      the mask is all ones, and `/0` does not match every address. */
  lemma WholeWordPrefixIsExact(ip: string, base: string, prefix: string)
    requires '/' !in base && prefix != [] && AllDigits(prefix)
    requires DigitsValue(prefix) == 32 || DigitsValue(prefix) == 0
    ensures IsIPInRange(ip, base + "/" + prefix) <==> IpToNumber(ip) == IpToNumber(base)
  {
    DigitsHaveNoSeparator(prefix);
    WholeWordClearsNothing(prefix);
    ShiftlessRangeIsExact(ip, base, prefix);
  }

  lemma WholeWordClearsNothing(prefix: string)
    requires prefix != [] && AllDigits(prefix)
    requires DigitsValue(prefix) == 32 || DigitsValue(prefix) == 0
    ensures ClearedBits(ParseIntNoRadix(prefix)) == 0
  {
    ParseDecimal(prefix);
    DigitsAreNotHex(prefix);
    var m := DigitsValue(prefix);
    assert ParseIntNoRadix(prefix) == Int(m);
    if m == 32 {
      assert ToUint32(0) == 0;
      assert ClearedBits(Int(32)) == 0 % 32;
    } else {
      assert ToUint32(32) == 32;
      assert ClearedBits(Int(0)) == 32 % 32;
    }
  }

  /** Addresses agreeing in their first three octets lie in the same `/24`
      range, and addresses differing in them do not. */
  lemma SlashTwentyFour(a: int, b: int, c: int, d: int, a': int, b': int, c': int, d': int)
    requires 0 <= a < 256 && 0 <= b < 256 && 0 <= c < 256 && 0 <= d < 256
    requires 0 <= a' < 256 && 0 <= b' < 256 && 0 <= c' < 256 && 0 <= d' < 256
    ensures (a * 0x100_0000 + b * 0x1_0000 + c * 0x100 + d) / 0x100
            == (a' * 0x100_0000 + b' * 0x1_0000 + c' * 0x100 + d') / 0x100
            <==> (a, b, c) == (a', b', c')
  {
    var x := a * 0x100_0000 + b * 0x1_0000 + c * 0x100 + d;
    var y := a' * 0x100_0000 + b' * 0x1_0000 + c' * 0x100 + d';
    assert x / 256 == a * 0x1_0000 + b * 0x100 + c;
    assert y / 256 == a' * 0x1_0000 + b' * 0x100 + c';
  }

  /** A prefix of `n` bits, 1 to 32, clears the low `32 - n` bits. */
  lemma PrefixClears(prefix: string, n: nat)
    requires prefix != [] && AllDigits(prefix) && DigitsValue(prefix) == n && 1 <= n <= 32
    ensures ClearedBits(ParseIntNoRadix(prefix)) == 32 - n
  {
    ParseDecimal(prefix);
    DigitsAreNotHex(prefix);
  }

  /** A string of decimal digits carries no `0x`, so it parses the same with
      and without a radix. */
  lemma DigitsAreNotHex(prefix: string)
    requires prefix != [] && AllDigits(prefix)
    ensures !HasHexPrefix(AfterSign(prefix))
  {
    DigitsEverywhere(prefix);
    assert !IsSpace(prefix[0]);
    assert TrimStart(prefix) == prefix;
    assert AfterSign(prefix) == prefix;
    assert |prefix| >= 2 ==> IsDigit(prefix[1]);
  }

  /** A hexadecimal prefix is read in base 16: `base/0x18` is a `/24`
      range (see `EighteenIsTwentyFour`), where `parseInt(prefix, 10)` would
      read 0 and match only the base. */
  lemma HexPrefixIsSlash24(ip: string, base: string, h: string)
    requires '/' !in base && h != [] && forall i :: 0 <= i < |h| ==> IsHexDigit(h[i])
    requires HexDigitsValue(h) == 24
    ensures IsIPInRange(ip, base + "/" + ("0x" + h)) <==> IpToNumber(ip) / 0x100 == IpToNumber(base) / 0x100
  {
    HexPrefixClearsEight(h);
    EightClearedBits(ip, base, "0x" + h);
  }

  /** A hexadecimal prefix worth 24 has no `/` and clears the low 8 bits. */
  lemma HexPrefixClearsEight(h: string)
    requires h != [] && forall i :: 0 <= i < |h| ==> IsHexDigit(h[i])
    requires HexDigitsValue(h) == 24
    ensures '/' !in "0x" + h && ClearedBits(ParseIntNoRadix("0x" + h)) == 8
  {
    HexTextIsBase16(h);
    HexTextHasNoSlash(h);
  }

  lemma HexTextHasNoSlash(h: string)
    requires forall i :: 0 <= i < |h| ==> IsHexDigit(h[i])
    ensures '/' !in "0x" + h
  {
    forall i | 0 <= i < |"0x" + h|
      ensures ("0x" + h)[i] != '/'
    {
      if i >= 2 { assert ("0x" + h)[i] == h[i - 2]; }
    }
  }

  /** `18` read in base 16 is 24. */
  lemma EighteenIsTwentyFour()
    ensures HexDigitsValue("18") == 24
  {
    assert "18"[..1] == "1";
    assert "1"[..0] == "";
  }

  /** A prefix that clears the low 8 bits compares addresses with those bits
      dropped. */
  lemma EightClearedBits(ip: string, base: string, prefix: string)
    requires '/' !in base && '/' !in prefix
    requires ClearedBits(ParseIntNoRadix(prefix)) == 8
    ensures IsIPInRange(ip, base + "/" + prefix) <==> IpToNumber(ip) / 0x100 == IpToNumber(base) / 0x100
  {
    RangeParts(ip, base, prefix);
    Pow2Values();
  }

  /** A `/24` range compares addresses with their low 8 bits dropped. */
  lemma Slash24ByNumbers(ip: string, base: string, prefix: string)
    requires '/' !in base && prefix != [] && AllDigits(prefix) && DigitsValue(prefix) == 24
    ensures IsIPInRange(ip, base + "/" + prefix) <==> IpToNumber(ip) / 0x100 == IpToNumber(base) / 0x100
  {
    DigitsHaveNoSeparator(prefix);
    PrefixClears(prefix, 24);
    RangeParts(ip, base, prefix);
    Pow2Values();
  }

  /** Because an unparsable address counts as 0.0.0.0, "unknown" falls inside
      every range whose base is 0.0.0.0, whatever its prefix. */
  lemma UnparsableMatchesZeroNetwork(ip: string, base: string, prefix: string)
    requires '.' !in ip && ip != []
    requires !IsSpace(ip[0]) && !IsDigit(ip[0]) && ip[0] != '-' && ip[0] != '+'
    requires '/' !in base && '/' !in prefix && IpToNumber(base) == 0
    ensures IsIPInRange(ip, base + "/" + prefix)
  {
    UnparsableIsZero(ip);
    RangeParts(ip, base, prefix);
  }

  // ---------------------------------------------------------------------
  // list checks

  /** An entry with a `/` is a range, and `ip` lies in it. */
  predicate InRangeEntry(ip: string, entry: string) {
    '/' in entry && IsIPInRange(ip, entry)
  }

  /** Some entry of `list` that contains a `/` is a range holding `ip`. */
  predicate InSomeRange(ip: string, list: seq<string>)
    decreases |list|
  {
    list != [] && (InRangeEntry(ip, list[0]) || InSomeRange(ip, list[1..]))
  }

  /** An address is listed when it equals an entry, or lies in an entry that
      contains a `/`. */
  predicate Listed(ip: string, list: seq<string>) {
    ip in list || InSomeRange(ip, list)
  }

  /** `InSomeRange` holds exactly when some index of the list carries a range
      holding the address. */
  lemma {:induction false} InSomeRangeIff(ip: string, list: seq<string>)
    ensures InSomeRange(ip, list) <==> exists i :: 0 <= i < |list| && InRangeEntry(ip, list[i])
    decreases |list|
  {
    if list != [] {
      InSomeRangeIff(ip, list[1..]);
      if InSomeRange(ip, list[1..]) {
        var j :| 0 <= j < |list[1..]| && InRangeEntry(ip, list[1..][j]);
        assert InRangeEntry(ip, list[j + 1]);
      }
      if exists i :: 0 <= i < |list| && InRangeEntry(ip, list[i]) {
        var i :| 0 <= i < |list| && InRangeEntry(ip, list[i]);
        if i > 0 {
          assert InRangeEntry(ip, list[1..][i - 1]);
        }
      }
    }
  }

  /** The loop shared by `checkTorExitNode` and `checkVPNProxy`. */
  method CheckList(ip: string, list: seq<string>, reason: string) returns (r: CheckResult)
    ensures r == if Listed(ip, list) then Denied(reason, None) else Allowed
  {
    if ip in list {
      return Denied(reason, None);
    }
    for i := 0 to |list|
      invariant InSomeRange(ip, list) == InSomeRange(ip, list[i..])
    {
      assert list[i..][1..] == list[i + 1..];
      if InRangeEntry(ip, list[i]) {
        return Denied(reason, None);
      }
    }
    assert list[|list|..] == [];
    return Allowed;
  }

  /** `checkTorExitNode(ip)` against the exit-node list. */
  method CheckTorExitNode(ip: string, torList: seq<string>) returns (r: CheckResult)
    ensures r.Denied? <==> Listed(ip, torList)
    ensures r.Denied? ==> r == Denied("TOR exit node detected", None)
  {
    r := CheckList(ip, torList, "TOR exit node detected");
  }

  /** `checkVPNProxy(ip)` against the VPN/proxy list. */
  method CheckVPNProxy(ip: string, vpnList: seq<string>) returns (r: CheckResult)
    ensures r.Denied? <==> Listed(ip, vpnList)
    ensures r.Denied? ==> r == Denied("VPN/Proxy detected", None)
  {
    r := CheckList(ip, vpnList, "VPN/Proxy detected");
  }

  /** A list that failed to load is empty and lets every address through. */
  lemma EmptyListAllowsAll(ip: string)
    ensures !Listed(ip, [])
  {
  }
}
