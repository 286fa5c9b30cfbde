/** Fixed-point scores: signed 64-bit integers read as units of 1/10000. */
module Scores {
  import opened Wrappers
  import opened Text

  const SCALE := 10_000

  // ---------------------------------------------------------------- reading

  /** Index of the first decimal point, or the length. */
  function PointAt(s: string): (k: nat)
    ensures k <= |s|
    ensures k < |s| ==> s[k] == '.'
    ensures forall i :: 0 <= i < k ==> s[i] != '.'
  {
    if s == "" || s[0] == '.' then 0 else 1 + PointAt(s[1..])
  }

  function Unsigned(s: string): string {
    if s != "" && s[0] == '-' then s[1..] else s
  }

  function IntText(s: string): string {
    Unsigned(s)[..PointAt(Unsigned(s))]
  }

  /** At most the first four characters after the point. */
  function FracText(s: string): string {
    var rest := Unsigned(s);
    var k := PointAt(rest);
    Take4(if k < |rest| then rest[k + 1..] else "")
  }

  function Take4(s: string): string {
    if |s| > 4 then s[..4] else s
  }

  function PadRight(s: string): (p: string)
    ensures |s| <= 4 ==> |p| == 4
    ensures AllDigits(s) ==> AllDigits(p)
    ensures s <= p
    decreases 4 - |s|
  {
    if |s| >= 4 then s else PadRight(s + "0")
  }

  predicate Readable(s: string) {
    s != "" && ParseI64(IntText(s)).Some? && AllDigits(FracText(s))
  }

  /** The value in exact arithmetic. */
  function Exact(s: string): int
    requires Readable(s)
  {
    var magnitude := ParseI64(IntText(s)).value * SCALE + Value(PadRight(FracText(s)));
    Signed(s[0] == '-', magnitude)
  }

  /** No intermediate of the i64 computation leaves its range. */
  predicate NoOverflow(s: string)
    requires Readable(s)
  {
    var whole := ParseI64(IntText(s)).value * SCALE;
    IsI64(whole) && IsI64(whole + Value(PadRight(FracText(s)))) && IsI64(Exact(s))
  }

  /** What the reader returns, wrapping where release builds wrap. */
  function Parse(text: string): Option<int> {
    var s := Trim(text);
    if Readable(s) then Some(WrapI64(Exact(s))) else None
  }

  function Signed(negative: bool, x: int): int {
    if negative then 0 - x else x
  }

  lemma WrapOnce(negative: bool, whole: int, frac: int)
    ensures WrapI64(Signed(negative, WrapI64(WrapI64(whole) + frac))) == WrapI64(Signed(negative, whole + frac))
  {
    var i := WrapShift(whole);
    var j := WrapShift(WrapI64(whole) + frac);
    SameWrap(Signed(negative, WrapI64(WrapI64(whole) + frac)), Signed(negative, whole + frac), Signed(negative, i + j));
  }

  lemma WrapShift(x: int) returns (k: int)
    ensures x == WrapI64(x) + U64_LIMIT * k
  {
    k := if x % U64_LIMIT < I64_LIMIT then x / U64_LIMIT else x / U64_LIMIT + 1;
  }

  lemma SameWrap(x: int, y: int, k: int)
    requires y == x + U64_LIMIT * k
    ensures WrapI64(x) == WrapI64(y)
  {
    Quotient(y, x / U64_LIMIT + k, x % U64_LIMIT, U64_LIMIT);
  }

  method ReadFraction(fracPart: string) returns (r: Option<nat>)
    ensures r == if AllDigits(Take4(fracPart)) then Some(Value(PadRight(Take4(fracPart)))) else None
  {
    var padded := "";
    var i := 0;
    while i < |fracPart| && i < 4
      invariant 0 <= i <= |fracPart| && i <= 4
      invariant padded == fracPart[..i] && AllDigits(padded)
    {
      if !IsDigit(fracPart[i]) {
        assert Take4(fracPart)[i] == fracPart[i];
        return None;
      }
      padded := padded + [fracPart[i]];
      i := i + 1;
    }
    assert padded == Take4(fracPart);
    while |padded| < 4
      invariant AllDigits(padded) && |padded| <= 4
      invariant PadRight(padded) == PadRight(Take4(fracPart))
    {
      padded := padded + "0";
    }
    r := Some(Value(padded));
  }

  /** Read a score in i64 arithmetic: digits are pushed one at a time and padded. */
  method ParseScoreScaled(text: string) returns (r: Option<int>)
    ensures r == Parse(text)
  {
    var s := Trim(text);
    if s == "" {
      return None;
    }
    var negative, rest := false, s;
    if s[0] == '-' {
      negative, rest := true, s[1..];
    }
    var k := PointAt(rest);
    var intPart := rest[..k];
    var fracPart := if k < |rest| then rest[k + 1..] else "";
    var whole := ParseI64(intPart);
    if whole.None? {
      return None;
    }
    var frac := ReadFraction(fracPart);
    if frac.None? {
      return None;
    }
    var scaled := WrapI64(WrapI64(whole.value * SCALE) + frac.value);
    WrapOnce(negative, whole.value * SCALE, frac.value);
    r := Some(WrapI64(Signed(negative, scaled)));
  }

  // ---------------------------------------------------------------- writing

  function Pad4(f: nat): (s: string)
    requires f < SCALE
    ensures |s| == 4 && AllDigits(s)
  {
    [DigitChar(f / 1000), DigitChar(f / 100 % 10), DigitChar(f / 10 % 10), DigitChar(f % 10)]
  }

  function DropZeros(s: string): (r: string)
    requires s != ""
    ensures 1 <= |r| <= |s| && r <= s
    ensures |r| > 1 ==> r[|r| - 1] != '0'
    ensures forall i :: |r| <= i < |s| ==> s[i] == '0'
  {
    if |s| > 1 && s[|s| - 1] == '0' then DropZeros(s[..|s| - 1]) else s
  }

  function Magnitude(v: int): nat {
    if v < 0 then -v else v
  }

  function Render(v: int): string {
    Join(v < 0, Digits(Magnitude(v) / SCALE), DropZeros(Pad4(Magnitude(v) % SCALE)))
  }

  /** Write a score, popping trailing zeros but keeping one digit. */
  method RenderScoreScaled(v: int) returns (text: string)
    requires IsI64(v)
    ensures text == Render(v)
  {
    var sign := if v < 0 then "-" else "";
    var whole := Magnitude(v) / SCALE;
    var part := Magnitude(v) % SCALE;
    if part == 0 {
      assert Pad4(0) == "0000";
      assert DropZeros("0") == "0" && DropZeros("00") == "0" && DropZeros("000") == "0";
      text := sign + Digits(whole) + ".0";
      assert text == Join(v < 0, Digits(whole), "0");
    } else {
      var frac := Pad4(part);
      while |frac| > 1 && frac[|frac| - 1] == '0'
        invariant frac != "" && DropZeros(frac) == DropZeros(Pad4(part))
      {
        frac := frac[..|frac| - 1];
      }
      text := sign + Digits(whole) + "." + frac;
    }
  }

  // ------------------------------------------------------------- round trip

  /** Canonical text: no sign on zero, no leading zeros, one to four fraction digits, no needless zero at the end. */
  predicate Canonical(s: string) {
    var body := Unsigned(s);
    var k := PointAt(body);
    && k < |body|
    && var whole, frac := body[..k], body[k + 1..];
    && whole != "" && AllDigits(whole) && (|whole| > 1 ==> whole[0] != '0')
    && 1 <= |frac| <= 4 && AllDigits(frac) && (|frac| > 1 ==> frac[|frac| - 1] != '0')
    && (s != body ==> Value(whole) > 0 || Value(PadRight(frac)) > 0)
  }

  lemma PointAfterDigits(d: string, tail: string)
    requires AllDigits(d)
    ensures PointAt(d + "." + tail) == |d|
  {
    var s := d + "." + tail;
    assert s[|d|] == '.';
    assert forall i :: 0 <= i < |d| ==> s[i] == d[i];
  }

  lemma PadUndoesDrop(s: string)
    requires |s| == 4
    ensures PadRight(DropZeros(s)) == s
  {
    PadZeros(DropZeros(s), s);
  }

  lemma PadZeros(r: string, s: string)
    requires r <= s && |s| == 4 && forall i :: |r| <= i < 4 ==> s[i] == '0'
    ensures PadRight(r) == s
    decreases 4 - |r|
  {
    if |r| < 4 {
      PadZeros(r + "0", s);
    }
  }

  lemma ValueOfFour(p: string)
    requires |p| == 4 && AllDigits(p)
    ensures Value(p) == 1000 * DigitValue(p[0]) + 100 * DigitValue(p[1]) + 10 * DigitValue(p[2]) + DigitValue(p[3])
  {
    assert p[..3][..2][..1] == [p[0]] && p[..3][..2] == [p[0], p[1]] && p[..3] == [p[0], p[1], p[2]];
    assert Value([p[0]]) == DigitValue(p[0]);
    assert Value([p[0], p[1]]) == 10 * DigitValue(p[0]) + DigitValue(p[1]);
  }

  lemma ValueOfPad4(f: nat)
    requires f < SCALE
    ensures Value(Pad4(f)) == f
  {
    ValueOfFour(Pad4(f));
    Regroup(f);
  }

  lemma Regroup(f: nat)
    requires f < SCALE
    ensures 1000 * (f / 1000) + 100 * (f / 100 % 10) + 10 * (f / 10 % 10) + f % 10 == f
    ensures f / 1000 < 10
  {
    var h, t := f / 100, f / 10;
    Nested(f);
    assert h == 10 * (h / 10) + h % 10 && t == 10 * (t / 10) + t % 10 && f == 10 * t + f % 10;
  }

  lemma Nested(f: nat)
    ensures f / 10 / 10 == f / 100 && f / 100 / 10 == f / 1000
  {
  }

  function Join(negative: bool, d: string, f: string): string {
    (if negative then "-" else "") + d + "." + f
  }

  /** Taking signed text apart at its sign and its point. */
  lemma SplitSign(negative: bool, d: string, f: string)
    requires d != "" && AllDigits(d) && f != "" && AllDigits(f)
    ensures Trim(Join(negative, d, f)) == Join(negative, d, f)
    ensures Unsigned(Join(negative, d, f)) == d + "." + f
    ensures (Join(negative, d, f)[0] == '-') == negative
  {
    var s := Join(negative, d, f);
    assert s[|s| - 1] == f[|f| - 1] && IsDigit(f[|f| - 1]);
    assert s[0] == if negative then '-' else d[0];
    assert IsDigit(d[0]);
    assert !IsWhitespace(s[0]) && !IsWhitespace(s[|s| - 1]);
  }

  lemma Split(negative: bool, d: string, f: string)
    requires d != "" && AllDigits(d) && 1 <= |f| <= 4 && AllDigits(f)
    ensures var s := Join(negative, d, f);
      && Trim(s) == s && Unsigned(s) == d + "." + f && PointAt(d + "." + f) == |d|
      && IntText(s) == d && FracText(s) == f
      && (s[0] == '-') == negative
  {
    SplitSign(negative, d, f);
    hide Trim, PointAt, Join;
    PointAfterDigits(d, f);
    var body := d + "." + f;
    assert body[|d| + 1..] == f && body[..|d|] == d;
  }

  lemma ReadDigits(d: string)
    requires d != "" && AllDigits(d)
    ensures ParseI64(d) == if Value(d) < I64_LIMIT then Some(Value(d)) else None
  {
    assert IsDigit(d[0]);
  }

  /** Every i64 is read back; checked arithmetic fails on the minimum alone. */
  lemma RoundTrip(v: int)
    requires IsI64(v)
    ensures Parse(Render(v)) == Some(v)
    ensures Readable(Render(v)) && Exact(Render(v)) == v
    ensures NoOverflow(Render(v)) <==> v != -I64_LIMIT
  {
    hide Value, Digits, Pad4, DropZeros, PadRight, PointAt, Trim, ParseI64, IntText, FracText;
    var m := Magnitude(v);
    Split(v < 0, Digits(m / SCALE), DropZeros(Pad4(m % SCALE)));
    ReadDigits(Digits(m / SCALE));
    PadUndoesDrop(Pad4(m % SCALE));
    ValueOfPad4(m % SCALE);
    assert m / SCALE * SCALE + m % SCALE == m;
  }

  lemma RenderIsCanonical(v: int)
    ensures Canonical(Render(v))
  {
    hide Value, Digits, Pad4, DropZeros, PadRight;
    var m := Magnitude(v);
    var d, f := Digits(m / SCALE), DropZeros(Pad4(m % SCALE));
    NoLeadingZero(m / SCALE);
    PadUndoesDrop(Pad4(m % SCALE));
    ValueOfPad4(m % SCALE);
    SplitScaled(m / SCALE, m % SCALE);
    JoinIsCanonical(v < 0, d, f);
  }

  lemma JoinIsCanonical(negative: bool, d: string, f: string)
    requires d != "" && AllDigits(d) && (|d| > 1 ==> d[0] != '0')
    requires 1 <= |f| <= 4 && AllDigits(f) && (|f| > 1 ==> f[|f| - 1] != '0')
    requires negative ==> Value(d) > 0 || Value(PadRight(f)) > 0
    ensures Canonical(Join(negative, d, f))
  {
    Split(negative, d, f);
    hide Value, PadRight, PointAt, Trim, IntText, FracText;
    var body := d + "." + f;
    assert body[..|d|] == d && body[|d| + 1..] == f;
  }

  lemma {:induction false} NoLeadingZero(n: nat)
    ensures |Digits(n)| > 1 ==> Digits(n)[0] != '0'
    ensures n > 0 ==> Digits(n)[0] != '0'
  {
    if n >= 10 {
      NoLeadingZero(n / 10);
    }
  }

  lemma {:induction false} DigitsOfValue(d: string)
    requires d != "" && AllDigits(d) && (|d| > 1 ==> d[0] != '0')
    ensures Digits(Value(d)) == d
    ensures |d| > 1 ==> Value(d) >= 10
  {
    var init, last := d[..|d| - 1], d[|d| - 1];
    var v := Value(init);
    assert DigitChar(DigitValue(last)) == last;
    assert Value(d) == 10 * v + DigitValue(last);
    if |d| > 1 {
      DigitsOfValue(init);
      assert v > 0 by {
        if |init| == 1 {
          assert init[0] == d[0] != '0';
          assert Value(init) == 10 * Value(init[..0]) + DigitValue(init[0]);
        }
      }
      Quotient(Value(d), v, DigitValue(last), 10);
      assert d == init + [last];
    } else {
      assert d == [last];
    }
  }

  lemma DigitsBelowScale(p: string)
    requires |p| == 4 && AllDigits(p)
    ensures Value(p) < SCALE && Pad4(Value(p)) == p
  {
    ValueOfFour(p);
    SplitDecimal(DigitValue(p[0]), DigitValue(p[1]), DigitValue(p[2]), DigitValue(p[3]));
    assert forall c :: IsDigit(c) ==> DigitChar(DigitValue(c)) == c;
  }

  lemma Quotient(n: int, q: int, r: int, k: int)
    requires k > 0 && 0 <= r < k && n == q * k + r
    ensures n / k == q && n % k == r
  {
    var p := n / k;
    assert (q - p) * k == n % k - r;
    AtLeast(q - p, k);
    AtLeast(p - q, k);
  }

  lemma AtLeast(x: int, k: int)
    requires k > 0
    ensures x >= 1 ==> x * k >= k
  {
  }

  lemma SplitDecimal(a: nat, b: nat, c: nat, d: nat)
    requires a < 10 && b < 10 && c < 10 && d < 10
    ensures var n := 1000 * a + 100 * b + 10 * c + d;
      n < SCALE && n / 1000 == a && n / 100 % 10 == b && n / 10 % 10 == c && n % 10 == d
  {
    var n := 1000 * a + 100 * b + 10 * c + d;
    Quotient(n, a, 100 * b + 10 * c + d, 1000);
    Quotient(n, 10 * a + b, 10 * c + d, 100);
    Quotient(10 * a + b, a, b, 10);
    Quotient(n, 100 * a + 10 * b + c, d, 10);
    Quotient(100 * a + 10 * b + c, 10 * a + b, c, 10);
  }

  lemma DropUndoesPad(f: string)
    requires 1 <= |f| <= 4 && (|f| > 1 ==> f[|f| - 1] != '0')
    ensures DropZeros(PadRight(f)) == f
  {
    var p := PadRight(f);
    PadTail(f);
    var r := DropZeros(p);
    assert f == p[..|f|] && r == p[..|r|];
  }

  lemma PadTail(f: string)
    requires |f| <= 4
    ensures forall i :: |f| <= i < 4 ==> PadRight(f)[i] == '0'
    decreases 4 - |f|
  {
    if |f| < 4 {
      PadTail(f + "0");
      assert (f + "0") <= PadRight(f);
    }
  }

  /** Canonical text in range is exactly what rendering produces: rendering after reading restores it. */
  lemma CanonicalIsRendered(s: string)
    requires Canonical(s) && Readable(s) && IsI64(Exact(s))
    ensures Parse(s) == Some(Exact(s)) && Render(Exact(s)) == s
  {
    hide Value, PadRight, PointAt, Trim, ParseI64, IntText, FracText;
    var body := Unsigned(s);
    var k := PointAt(body);
    var whole, frac := body[..k], body[k + 1..];
    assert s == Join(s[0] == '-', whole, frac) by {
      assert body == whole + "." + frac;
    }
    JoinRoundTrip(s[0] == '-', whole, frac);
  }

  lemma JoinRoundTrip(negative: bool, whole: string, frac: string)
    requires whole != "" && AllDigits(whole) && (|whole| > 1 ==> whole[0] != '0')
    requires 1 <= |frac| <= 4 && AllDigits(frac) && (|frac| > 1 ==> frac[|frac| - 1] != '0')
    requires negative ==> Value(whole) > 0 || Value(PadRight(frac)) > 0
    requires Readable(Join(negative, whole, frac)) && IsI64(Exact(Join(negative, whole, frac)))
    ensures Parse(Join(negative, whole, frac)) == Some(Exact(Join(negative, whole, frac)))
    ensures Render(Exact(Join(negative, whole, frac))) == Join(negative, whole, frac)
  {
    hide Value, Digits, Pad4, DropZeros, PadRight, PointAt, Trim, ParseI64, IntText, FracText;
    Split(negative, whole, frac);
    ReadDigits(whole);
    RenderJoined(negative, whole, frac);
    var m := Value(whole) * SCALE + Value(PadRight(frac));
    hide Render, Join;
    assert Exact(Join(negative, whole, frac)) == Signed(negative, m);
  }

  lemma RenderJoined(negative: bool, whole: string, frac: string)
    requires whole != "" && AllDigits(whole) && (|whole| > 1 ==> whole[0] != '0')
    requires 1 <= |frac| <= 4 && AllDigits(frac) && (|frac| > 1 ==> frac[|frac| - 1] != '0')
    requires negative ==> Value(whole) > 0 || Value(PadRight(frac)) > 0
    requires IsI64(Signed(negative, Value(whole) * SCALE + Value(PadRight(frac))))
    ensures Render(Signed(negative, Value(whole) * SCALE + Value(PadRight(frac)))) == Join(negative, whole, frac)
  {
    hide Value, Digits, Pad4, DropZeros, PadRight;
    RenderPieces(whole, frac);
    var m := Value(whole) * SCALE + Value(PadRight(frac));
    assert Magnitude(Signed(negative, m)) == m;
  }

  lemma RenderPieces(whole: string, frac: string)
    requires whole != "" && AllDigits(whole) && (|whole| > 1 ==> whole[0] != '0')
    requires 1 <= |frac| <= 4 && AllDigits(frac) && (|frac| > 1 ==> frac[|frac| - 1] != '0')
    ensures var m := Value(whole) * SCALE + Value(PadRight(frac));
      && Digits(m / SCALE) == whole && DropZeros(Pad4(m % SCALE)) == frac
      && (m == 0 <==> Value(whole) == 0 && Value(PadRight(frac)) == 0)
  {
    hide Value, Digits, Pad4, DropZeros, PadRight;
    var q, r := Value(whole), Value(PadRight(frac));
    assert Digits(q) == whole by { DigitsOfValue(whole); }
    assert r < SCALE && Pad4(r) == PadRight(frac) by { DigitsBelowScale(PadRight(frac)); }
    assert DropZeros(PadRight(frac)) == frac by { DropUndoesPad(frac); }
    SplitScaled(q, r);
  }

  lemma SplitScaled(a: nat, b: nat)
    requires b < SCALE
    ensures (a * SCALE + b) / SCALE == a && (a * SCALE + b) % SCALE == b
    ensures a * SCALE + b == 0 ==> a == 0 && b == 0
  {
    Quotient(a * SCALE + b, a, b, SCALE);
  }

  /** Reading anything readable and rendering it is idempotent and canonical. */
  lemma RenderAfterParse(text: string)
    requires Parse(text).Some?
    ensures Canonical(Render(Parse(text).value))
    ensures Parse(Render(Parse(text).value)) == Parse(text)
  {
    RenderIsCanonical(Parse(text).value);
    RoundTrip(Parse(text).value);
  }

  /** What the last of four fraction digits is worth, and what they are worth if fewer are written. */
  function Unit(places: nat): nat {
    match places
    case 0 => 10_000
    case 1 => 1_000
    case 2 => 100
    case 3 => 10
    case _ => 1
  }

  lemma {:induction false} PadScales(f: string)
    requires 1 <= |f| <= 4 && AllDigits(f)
    ensures Value(PadRight(f)) == Value(f) * Unit(|f|)
    decreases 4 - |f|
  {
    if |f| < 4 {
      PadScales(f + "0");
      assert (f + "0")[..|f|] == f;
      assert Value(f + "0") == 10 * Value(f);
    }
  }

  /** Text with one to four fraction digits reads as that many ten-thousandths, the sign counting for all of them. */
  lemma ReadsAs(negative: bool, d: string, f: string)
    requires d != "" && AllDigits(d) && Value(d) < 900_000_000_000_000 && 1 <= |f| <= 4 && AllDigits(f)
    ensures var magnitude := Value(d) * 10_000 + Value(f) * Unit(|f|);
      Parse(Join(negative, d, f)) == Some(if negative then -magnitude else magnitude)
  {
    hide Value, PadRight, Trim, ParseI64, IntText, FracText, PointAt;
    Split(negative, d, f);
    ReadDigits(d);
    PadScales(f);
    DigitsBelowScale(PadRight(f));
  }

  /** The deltas that effects carry unless a rule says otherwise, in ten-thousandths. */
  lemma DeltasRead()
    ensures Parse("-0.05") == Some(-500) && Parse("-0.25") == Some(-2500) && Parse("-1.0") == Some(-10_000)
    ensures Parse("0.0") == Some(0) && Parse("0.15") == Some(1500)
  {
    hide Parse;
    OneDigit('0');
    OneDigit('1');
    assert "05"[..1] == "0" && "25"[..1] == "2" && "15"[..1] == "1";
    OneDigit('2');
    assert Value("05") == 5 && Value("25") == 25 && Value("15") == 15;
    ReadsAs(true, "0", "05");
    ReadsAs(true, "0", "25");
    ReadsAs(true, "1", "0");
    ReadsAs(false, "0", "0");
    ReadsAs(false, "0", "15");
    assert "-0.05" == Join(true, "0", "05") && "-0.25" == Join(true, "0", "25") && "-1.0" == Join(true, "1", "0");
    assert "0.0" == Join(false, "0", "0") && "0.15" == Join(false, "0", "15");
  }

  lemma OneDigit(c: char)
    requires IsDigit(c)
    ensures Value([c]) == DigitValue(c)
  {
    assert [c][..0] == "";
  }
}
