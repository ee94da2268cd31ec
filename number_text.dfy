/** `n.toString()` for the non-negative integers the client writes (epoch
    milliseconds), and its round trip through `parseInt(…, 10)`. */
module NumberText {
  import opened JsText
  import opened Addresses

  function DigitChar(d: nat): (c: char)
    requires d < 10
    ensures IsDigit(c) && c as int - '0' as int == d
  {
    (d + '0' as int) as char
  }

  /** The decimal digits of `n`, without leading zeros. */
  function NumberToString(n: nat): (s: string)
    ensures s != [] && AllDigits(s)
    ensures forall i :: 0 <= i < |s| ==> IsDigit(s[i])
    decreases n
  {
    var s := if n < 10 then [DigitChar(n)] else NumberToString(n / 10) + [DigitChar(n % 10)];
    assert s[..|s| - 1] == if n < 10 then [] else NumberToString(n / 10);
    DigitsEverywhere(s);
    s
  }

  lemma {:induction false} NumberToStringValue(n: nat)
    ensures DigitsValue(NumberToString(n)) == n
    decreases n
  {
    var s := NumberToString(n);
    if n < 10 {
      assert s[..|s| - 1] == [];
    } else {
      assert s[..|s| - 1] == NumberToString(n / 10);
      NumberToStringValue(n / 10);
    }
  }

  /** What `toString` writes, `parseInt` reads back. */
  lemma ParseNumberToString(n: nat)
    ensures ParseInt(NumberToString(n)) == Int(n)
  {
    NumberToStringValue(n);
    ParseDecimal(NumberToString(n));
  }
}
