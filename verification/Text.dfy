/** Machine integers and the decimal text the parsers below read and write. */
module Text {
  import opened Wrappers

  const U32_LIMIT: int := 0x1_0000_0000
  const U64_LIMIT: int := 0x1_0000_0000_0000_0000
  const I64_LIMIT: int := 0x8000_0000_0000_0000

  predicate IsI64(x: int) {
    -I64_LIMIT <= x < I64_LIMIT
  }

  /** Two's complement wrap-around, as release builds compute. */
  function WrapI64(x: int): (r: int)
    ensures IsI64(r)
    ensures IsI64(x) ==> r == x
  {
    var m := x % U64_LIMIT;
    if m < I64_LIMIT then m else m - U64_LIMIT
  }

  predicate IsDigit(c: char) {
    '0' <= c <= '9'
  }

  predicate AllDigits(s: string) {
    forall i :: 0 <= i < |s| ==> IsDigit(s[i])
  }

  function DigitValue(c: char): (v: nat)
    requires IsDigit(c)
    ensures v < 10
  {
    c as int - '0' as int
  }

  function DigitChar(v: nat): (c: char)
    requires v < 10
    ensures IsDigit(c) && DigitValue(c) == v
  {
    ('0' as int + v) as char
  }

  function Value(s: string): nat
    requires AllDigits(s)
  {
    if s == "" then 0 else 10 * Value(s[..|s| - 1]) + DigitValue(s[|s| - 1])
  }

  /** Decimal rendering without padding. */
  function Digits(n: nat): (s: string)
    ensures |s| >= 1 && AllDigits(s) && Value(s) == n
  {
    if n < 10 then [DigitChar(n)] else Digits(n / 10) + [DigitChar(n % 10)]
  }

  /** Rust's `str::parse::<u64>`: an optional plus sign, then digits that fit. */
  function ParseU64(s: string): Option<nat> {
    var body := if |s| > 0 && s[0] == '+' then s[1..] else s;
    if body != "" && AllDigits(body) && Value(body) < U64_LIMIT then Some(Value(body)) else None
  }

  /** Rust's `str::parse::<i64>`: an optional sign, then digits that fit. */
  function ParseI64(s: string): Option<int> {
    var signed := |s| > 0 && (s[0] == '+' || s[0] == '-');
    var body := if signed then s[1..] else s;
    if body == "" || !AllDigits(body) then None
    else
      var v := if signed && s[0] == '-' then 0 - Value(body) else Value(body);
      if IsI64(v) then Some(v) else None
  }

  /** The code points with the Unicode White_Space property. */
  predicate IsWhitespace(c: char) {
    var p := c as int;
    9 <= p <= 13 || p == 0x20 || p == 0x85 || p == 0xA0 || p == 0x1680
    || 0x2000 <= p <= 0x200A || p == 0x2028 || p == 0x2029 || p == 0x202F || p == 0x205F || p == 0x3000
  }

  function Trim(s: string): string {
    if s == "" then s
    else if IsWhitespace(s[0]) then Trim(s[1..])
    else if IsWhitespace(s[|s| - 1]) then Trim(s[..|s| - 1])
    else s
  }

  predicate Blank(s: string) {
    forall i :: 0 <= i < |s| ==> IsWhitespace(s[i])
  }

  /** Trimming takes off all the whitespace around a text and nothing of the text. */
  lemma {:induction false} TrimMeans(before: string, s: string, behind: string)
    requires Blank(before) && Blank(behind) && s != "" && !IsWhitespace(s[0]) && !IsWhitespace(s[|s| - 1])
    ensures Trim(before + s + behind) == s
    decreases |before| + |behind|
  {
    hide IsWhitespace;
    var all := before + s + behind;
    if before != "" {
      assert all[0] == before[0] && all[1..] == before[1..] + s + behind;
      TrimMeans(before[1..], s, behind);
    } else if behind != "" {
      assert all[0] == s[0] && all[|all| - 1] == behind[|behind| - 1];
      assert all[..|all| - 1] == before + s + behind[..|behind| - 1];
      TrimMeans(before, s, behind[..|behind| - 1]);
    } else {
      assert all == s;
    }
  }

  /** Strings by their first difference; a prefix comes first. */
  predicate TextLe(a: string, b: string) {
    a == "" || (b != "" && (a[0] < b[0] || (a[0] == b[0] && TextLe(a[1..], b[1..]))))
  }

  lemma {:induction false} TextOrder(a: string, b: string, c: string)
    ensures TextLe(a, b) || TextLe(b, a)
    ensures TextLe(a, b) && TextLe(b, a) ==> a == b
    ensures TextLe(a, b) && TextLe(b, c) ==> TextLe(a, c)
  {
    if a != "" && b != "" {
      TextOrder(a[1..], b[1..], if c == "" then "" else c[1..]);
      assert a == [a[0]] + a[1..] && b == [b[0]] + b[1..];
    }
  }
}
