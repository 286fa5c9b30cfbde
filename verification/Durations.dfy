/** Duration text: what the engine reads at run time and what the loader accepted. */
module Durations {
  import opened Wrappers
  import opened Text

  /** One past the last ASCII digit; 0 when there is none. */
  function AfterLastDigit(s: string): (k: nat)
    ensures k <= |s|
    ensures k > 0 ==> IsDigit(s[k - 1])
    ensures forall i :: k <= i < |s| ==> !IsDigit(s[i])
  {
    if s == "" then 0
    else if IsDigit(s[|s| - 1]) then |s|
    else AfterLastDigit(s[..|s| - 1])
  }

  function CheckedMul(a: nat, b: nat): Option<nat> {
    if a * b < U64_LIMIT then Some(a * b) else None
  }

  /** The run-time reader: nanoseconds as u64, or nothing. */
  function ParseWindow(text: string): Option<nat> {
    var s := Trim(text);
    var k := AfterLastDigit(s);
    if k == 0 || k >= |s| then None
    else
      match ParseU64(s[..k])
      case None => None
      case Some(num) =>
        var unit := s[k..];
        if unit == "ms" then CheckedMul(num, 1_000_000)
        else
          var secs := if unit == "s" then Some(num)
                      else if unit == "m" then CheckedMul(num, 60)
                      else if unit == "h" then CheckedMul(num, 60 * 60)
                      else if unit == "d" then CheckedMul(num, 60 * 60 * 24)
                      else None;
          if secs.None? then None else CheckedMul(secs.value, 1_000_000_000)
  }

  /** The loader's test that a duration is well formed: no bound on its size. */
  predicate LoaderAccepts(text: string) {
    var s := Trim(text);
    var k := AfterLastDigit(s);
    s != "" && k != 0 && k < |s| && ParseU64(s[..k]).Some?
    && (s[k..] == "ms" || s[k..] == "s" || s[k..] == "m" || s[k..] == "h" || s[k..] == "d")
  }

  function UnitNanos(unit: string): nat {
    if unit == "ms" then 1_000_000
    else if unit == "s" then 1_000_000_000
    else if unit == "m" then 60_000_000_000
    else if unit == "h" then 3_600_000_000_000
    else if unit == "d" then 86_400_000_000_000
    else 0
  }

  /** The length a loadable duration denotes, without any machine limit. */
  function Nanos(text: string): nat
    requires LoaderAccepts(text)
  {
    var s := Trim(text);
    var k := AfterLastDigit(s);
    ParseU64(s[..k]).value * UnitNanos(s[k..])
  }

  /** The run-time reader agrees with the loader exactly below 2^64 ns. */
  lemma ReadExactlyWhenItFits(text: string)
    ensures ParseWindow(text).Some? <==> LoaderAccepts(text) && Nanos(text) < U64_LIMIT
    ensures ParseWindow(text).Some? ==> ParseWindow(text).value == Nanos(text)
  {
    var s := Trim(text);
    var k := AfterLastDigit(s);
    if 0 < k < |s| && ParseU64(s[..k]).Some? {
      var num := ParseU64(s[..k]).value;
      Scale(num, 60);
      Scale(num, 60 * 60);
      Scale(num, 60 * 60 * 24);
      assert LoaderAccepts(text) <==> UnitNanos(s[k..]) != 0;
    }
  }

  lemma Scale(num: nat, k: nat)
    requires k > 0
    ensures (num * k) * 1_000_000_000 == num * (k * 1_000_000_000)
    ensures num * k <= (num * k) * 1_000_000_000
  {
  }

  /** Every u64 count of a unit that fits is read back. */
  lemma ReadsWritten(n: nat, unit: string)
    requires UnitNanos(unit) != 0 && n < U64_LIMIT
    ensures LoaderAccepts(Digits(n) + unit)
    ensures Nanos(Digits(n) + unit) == n * UnitNanos(unit)
  {
    hide Digits, Value, Trim, AfterLastDigit;
    var d, text := Digits(n), Digits(n) + unit;
    NothingToTrim(d, unit);
    assert text[..|d|] == d && text[|d|..] == unit;
    assert IsDigit(d[0]);
  }

  /** A count of milliseconds, seconds, minutes, hours or days is loaded as that long, and nothing else is a unit. */
  lemma UnitsMean(n: nat)
    requires n < U64_LIMIT
    ensures LoaderAccepts(Digits(n) + "ms") && Nanos(Digits(n) + "ms") == n * 1_000_000
    ensures LoaderAccepts(Digits(n) + "s") && Nanos(Digits(n) + "s") == n * 1_000_000_000
    ensures LoaderAccepts(Digits(n) + "m") && Nanos(Digits(n) + "m") == 60 * (n * 1_000_000_000)
    ensures LoaderAccepts(Digits(n) + "h") && Nanos(Digits(n) + "h") == 3_600 * (n * 1_000_000_000)
    ensures LoaderAccepts(Digits(n) + "d") && Nanos(Digits(n) + "d") == 86_400 * (n * 1_000_000_000)
  {
    hide LoaderAccepts, Nanos, Digits;
    ReadsWritten(n, "ms");
    ReadsWritten(n, "s");
    ReadsWritten(n, "m");
    ReadsWritten(n, "h");
    ReadsWritten(n, "d");
  }

  /** Whitespace around a duration changes nothing. */
  lemma PaddingIgnored(before: string, text: string, behind: string)
    requires Blank(before) && Blank(behind) && text != "" && !IsWhitespace(text[0]) && !IsWhitespace(text[|text| - 1])
    ensures LoaderAccepts(before + text + behind) <==> LoaderAccepts(text)
    ensures LoaderAccepts(text) ==> Nanos(before + text + behind) == Nanos(text)
    ensures ParseWindow(before + text + behind) == ParseWindow(text)
  {
    TrimMeans(before, text, behind);
    TrimMeans("", text, "");
    assert "" + text + "" == text;
    hide Trim, AfterLastDigit, ParseU64, UnitNanos;
  }

  lemma NothingToTrim(d: string, unit: string)
    requires d != "" && AllDigits(d) && UnitNanos(unit) != 0
    ensures Trim(d + unit) == d + unit && AfterLastDigit(d + unit) == |d|
  {
    var text := d + unit;
    assert unit in {"ms", "s", "m", "h", "d"};
    assert IsDigit(text[0]) && IsDigit(text[|d| - 1]);
    assert !IsWhitespace(text[|text| - 1]) by { assert text[|text| - 1] == unit[|unit| - 1]; }
    hide AfterLastDigit;
    assert forall i :: |d| <= i < |text| ==> text[i] == unit[i - |d|];
    LastDigitAt(text, |d|);
  }

  lemma LastDigitAt(s: string, k: nat)
    requires 0 < k <= |s| && IsDigit(s[k - 1])
    requires forall i :: k <= i < |s| ==> !IsDigit(s[i])
    ensures AfterLastDigit(s) == k
  {
  }

  /** `as i64` on a u64 count. */
  function AsI64(n: nat): (r: int)
    requires n < U64_LIMIT
    ensures n < I64_LIMIT ==> r == n
    ensures n >= I64_LIMIT ==> r == n - U64_LIMIT < 0
  {
    if n < I64_LIMIT then n else n - U64_LIMIT
  }
}
