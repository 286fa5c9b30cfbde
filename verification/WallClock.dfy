/** Wall-clock texts as the engine compares them: RFC 3339 in UTC, fractions without trailing zeros. */
module WallClock {
  import opened Text

  const SECOND := 1_000_000_000

  const FIRST_SECOND := -62_167_219_200
  const LAST_SECOND := 253_402_300_799

  /** A second of the years 0000 to 9999, counted from the Unix epoch. */
  predicate InYears(s: int) {
    FIRST_SECOND <= s <= LAST_SECOND
  }

  /** An instant, in nanoseconds, that has a text. */
  predicate HasText(t: int) {
    InYears(t / SECOND)
  }

  /** The date and time part: the same width for every second, and in the order of the seconds. */
  ghost predicate Calendar(stamp: int -> string) {
    && (forall s :: InYears(s) ==> |stamp(s)| == 19)
    && (forall s, t :: InYears(s) && InYears(t) && s < t ==> stamp(s) != stamp(t) && TextLe(stamp(s), stamp(t)))
  }

  /** The last `width` decimal digits of n. */
  function Fixed(n: nat, width: nat): (s: string)
    ensures |s| == width && AllDigits(s)
  {
    if width == 0 then "" else Fixed(n / 10, width - 1) + [DigitChar(n % 10)]
  }

  function DropZeros(s: string): string {
    if s != "" && s[|s| - 1] == '0' then DropZeros(s[..|s| - 1]) else s
  }

  /** The digits behind the decimal point; none for a whole second. */
  function Fraction(t: int): string {
    DropZeros(Fixed(t % SECOND, 9))
  }

  function Tail(fraction: string): string {
    if fraction == "" then "Z" else "." + fraction + "Z"
  }

  function Written(stamp: int -> string, t: int): string {
    stamp(t / SECOND) + Tail(Fraction(t))
  }

  // ---- Text order ----

  lemma {:induction false} SameHead(p: string, x: string, y: string)
    ensures TextLe(p + x, p + y) <==> TextLe(x, y)
  {
    if p == "" {
      assert p + x == x && p + y == y;
    } else {
      SameHead(p[1..], x, y);
      assert (p + x)[1..] == p[1..] + x && (p + y)[1..] == p[1..] + y;
    }
  }

  /** Where neither text begins with the other, what follows them does not matter. */
  lemma {:induction false} FirstDifference(x: string, y: string, u: string, v: string)
    requires !(x <= y) && !(y <= x)
    ensures TextLe(x + u, y + v) <==> TextLe(x, y)
  {
    assert (x + u)[0] == x[0] && (y + v)[0] == y[0];
    if x[0] == y[0] {
      var x', y' := x[1..], y[1..];
      assert x == [x[0]] + x' && y == [y[0]] + y';
      FirstDifference(x', y', u, v);
      assert (x + u)[1..] == x' + u && (y + v)[1..] == y' + v;
    }
  }

  lemma {:induction false} ZerosAreLeast(zeros: string, r: string)
    requires |zeros| == |r| && AllDigits(r) && forall i :: 0 <= i < |zeros| ==> zeros[i] == '0'
    ensures TextLe(zeros, r)
  {
    if r != "" {
      assert IsDigit(r[0]);
      ZerosAreLeast(zeros[1..], r[1..]);
    }
  }

  // ---- Digits ----

  /** Texts of equally many digits are in the order of their numbers. */
  lemma {:induction false} FixedOrder(m: nat, n: nat, width: nat)
    requires m < Pow10(width) && n < Pow10(width)
    ensures TextLe(Fixed(m, width), Fixed(n, width)) <==> m <= n
    ensures Fixed(m, width) == Fixed(n, width) <==> m == n
  {
    if width > 0 {
      FixedOrder(m / 10, n / 10, width - 1);
      var x, y := Fixed(m / 10, width - 1), Fixed(n / 10, width - 1);
      var u, v := [DigitChar(m % 10)], [DigitChar(n % 10)];
      if m / 10 == n / 10 {
        SameHead(x, u, v);
        assert TextLe(u, v) <==> u[0] <= v[0] by { OneChar(u, v); }
      } else {
        FirstDifference(x, y, u, v);
      }
      assert (x + u)[..width - 1] == x && (y + v)[..width - 1] == y;
      assert (x + u)[width - 1] == u[0] && (y + v)[width - 1] == v[0];
    }
  }

  function Pow10(n: nat): nat {
    if n == 0 then 1 else 10 * Pow10(n - 1)
  }

  /** Seconds counted in decimal. */
  function Counted(): int -> string {
    s => if s >= FIRST_SECOND then Fixed(s - FIRST_SECOND, 19) else ""
  }

  /** They are one such date and time part. */
  lemma CountedIsCalendar()
    ensures Calendar(Counted())
  {
    ManySeconds();
    hide Fixed, TextLe, Pow10;
    var stamp := Counted();
    forall s | InYears(s)
      ensures stamp(s) == Fixed(s - FIRST_SECOND, 19) && |stamp(s)| == 19
    {
    }
    forall s, t | InYears(s) && InYears(t) && s < t
      ensures stamp(s) != stamp(t) && TextLe(stamp(s), stamp(t))
    {
      FixedOrder(s - FIRST_SECOND, t - FIRST_SECOND, 19);
    }
  }

  lemma ManySeconds()
    ensures LAST_SECOND - FIRST_SECOND < Pow10(19)
  {
    assert Pow10(6) == 1_000_000;
    assert Pow10(12) == 1_000_000_000_000;
    assert Pow10(15) == 1000 * Pow10(12);
    assert Pow10(19) == 10_000 * Pow10(15);
  }

  lemma OneChar(u: string, v: string)
    requires |u| == |v| == 1
    ensures TextLe(u, v) <==> u[0] <= v[0]
  {
    assert u[1..] == "" && v[1..] == "";
  }

  lemma {:induction false} DropZerosParts(s: string)
    ensures DropZeros(s) <= s && forall i :: |DropZeros(s)| <= i < |s| ==> s[i] == '0'
    ensures DropZeros(s) != "" ==> DropZeros(s)[|DropZeros(s)| - 1] != '0'
  {
    if s != "" && s[|s| - 1] == '0' {
      DropZerosParts(s[..|s| - 1]);
    }
  }

  lemma NineDigits(t: int)
    ensures t % SECOND < Pow10(9)
  {
    assert Pow10(5) == 100_000;
    assert Pow10(9) == SECOND;
  }

  /** A fraction that the other begins with is the earlier of the two. */
  lemma PrefixIsEarlier(a: int, b: int)
    requires Fraction(a) < Fraction(b)
    ensures a % SECOND < b % SECOND
  {
    var x, y, f := Fixed(a % SECOND, 9), Fixed(b % SECOND, 9), Fraction(a);
    DropZerosParts(x);
    DropZerosParts(y);
    var zeros, rest := x[|f|..], y[|f|..];
    assert x == f + zeros;
    assert y == f + rest by {
      assert f <= y;
    }
    assert AllDigits(rest) by {
      assert forall i :: 0 <= i < |rest| ==> rest[i] == y[|f| + i];
    }
    ZerosAreLeast(zeros, rest);
    SameHead(f, zeros, rest);
    NineDigits(a);
    NineDigits(b);
    FixedOrder(a % SECOND, b % SECOND, 9);
  }

  /** Fractions neither of which begins with the other are in the order of time, whatever follows them. */
  lemma ApartInOrder(a: int, b: int)
    requires !(Fraction(a) <= Fraction(b)) && !(Fraction(b) <= Fraction(a))
    ensures TextLe(Fraction(a) + "Z", Fraction(b) + "Z") <==> a % SECOND <= b % SECOND
  {
    var x, y, f, g := Fixed(a % SECOND, 9), Fixed(b % SECOND, 9), Fraction(a), Fraction(b);
    DropZerosParts(x);
    DropZerosParts(y);
    assert x == f + x[|f|..] && y == g + y[|g|..];
    FirstDifference(f, g, "Z", "Z");
    FirstDifference(f, g, x[|f|..], y[|g|..]);
    NineDigits(a);
    NineDigits(b);
    FixedOrder(a % SECOND, b % SECOND, 9);
  }

  /** A fraction that begins another one comes after it as text. */
  lemma PrefixComesAfter(f: string, g: string)
    requires f < g && AllDigits(g)
    ensures !TextLe(Tail(f), Tail(g)) && TextLe(Tail(g), Tail(f))
  {
    if f == "" {
      assert Tail(g)[0] == '.' && Tail(f)[0] == 'Z';
    } else {
      var rest := g[|f|..];
      assert g == f + rest && IsDigit(rest[0]) by {
        assert rest[0] == g[|f|];
      }
      assert Tail(f) == ("." + f) + "Z" && Tail(g) == ("." + f) + (rest + "Z");
      SameHead("." + f, "Z", rest + "Z");
      SameHead("." + f, rest + "Z", "Z");
      assert (rest + "Z")[0] == rest[0];
    }
  }

  lemma FractionIsDigits(t: int)
    ensures AllDigits(Fraction(t))
  {
    DropZerosParts(Fixed(t % SECOND, 9));
  }

  /** The fraction of one begins that of the other, within the same second. */
  predicate Confused(a: int, b: int) {
    a / SECOND == b / SECOND && (Fraction(a) < Fraction(b) || Fraction(b) < Fraction(a))
  }

  lemma SameFraction(a: int, b: int)
    requires a / SECOND == b / SECOND && Fraction(a) == Fraction(b)
    ensures a == b
  {
    var x, y, f := Fixed(a % SECOND, 9), Fixed(b % SECOND, 9), Fraction(a);
    DropZerosParts(x);
    DropZerosParts(y);
    forall i | 0 <= i < 9
      ensures x[i] == y[i]
    {
      if i < |f| {
        assert x[i] == f[i] && y[i] == f[i];
      }
    }
    assert x == y;
    NineDigits(a);
    NineDigits(b);
    FixedOrder(a % SECOND, b % SECOND, 9);
  }

  lemma WithinASecond(a: int, b: int)
    requires a / SECOND == b / SECOND && a != b
    ensures TextLe(Tail(Fraction(a)), Tail(Fraction(b))) <==> (a <= b <==> !Confused(a, b))
  {
    var f, g := Fraction(a), Fraction(b);
    FractionIsDigits(a);
    FractionIsDigits(b);
    hide Fraction, Fixed;
    if f == g {
      SameFraction(a, b);
    } else if f < g {
      PrefixIsEarlier(a, b);
      PrefixComesAfter(f, g);
    } else if g < f {
      PrefixIsEarlier(b, a);
      PrefixComesAfter(g, f);
    } else {
      ApartInOrder(a, b);
      assert Tail(f) == "." + (f + "Z") && Tail(g) == "." + (g + "Z");
      SameHead(".", f + "Z", g + "Z");
    }
  }

  /** Text order is time order, except within one second where the digits of one fraction begin those of the other. */
  lemma TextOrderExactly(stamp: int -> string, a: int, b: int)
    requires Calendar(stamp) && HasText(a) && HasText(b)
    ensures (TextLe(Written(stamp, a), Written(stamp, b)) <==> a <= b) <==> !Confused(a, b)
  {
    var x, y := stamp(a / SECOND), stamp(b / SECOND);
    var u, v := Tail(Fraction(a)), Tail(Fraction(b));
    if a / SECOND == b / SECOND {
      SameHead(x, u, v);
      if a != b {
        WithinASecond(a, b);
      } else {
        TextOrder(u, v, u);
      }
    } else {
      assert x != y && |x| == |y|;
      FirstDifference(x, y, u, v);
      TextOrder(x, y, x);
    }
  }

  /** So a stage that the poll finds due is due within less than a second, and one overdue by a second is found. */
  lemma DueWithinASecond(stamp: int -> string, fireAt: int, now: int)
    requires Calendar(stamp) && HasText(fireAt) && HasText(now)
    ensures TextLe(Written(stamp, fireAt), Written(stamp, now)) ==> fireAt < now + SECOND
    ensures fireAt + SECOND <= now ==> TextLe(Written(stamp, fireAt), Written(stamp, now))
  {
    hide Written, Fraction;
    TextOrderExactly(stamp, fireAt, now);
  }

  lemma {:induction false} FixedZero(width: nat)
    ensures forall i :: 0 <= i < width ==> Fixed(0, width)[i] == '0'
  {
    if width > 0 {
      FixedZero(width - 1);
    }
  }

  lemma {:induction false} ZerosDropAway(s: string)
    requires forall i :: 0 <= i < |s| ==> s[i] == '0'
    ensures DropZeros(s) == ""
  {
    if s != "" {
      ZerosDropAway(s[..|s| - 1]);
    }
  }

  lemma WholeIsBare(t: int)
    ensures Fraction(t) == "" <==> t % SECOND == 0
  {
    var whole := t - t % SECOND;
    assert whole % SECOND == 0 && whole / SECOND == t / SECOND;
    FixedZero(9);
    ZerosDropAway(Fixed(0, 9));
    hide Fixed, DropZeros;
    if Fraction(t) == "" {
      SameFraction(t, whole);
    }
  }

  /** Every instant inside a second is found due at the whole second before it. */
  lemma FoundEarly(stamp: int -> string, t: int)
    requires Calendar(stamp) && HasText(t) && t % SECOND != 0
    ensures t - t % SECOND < t && TextLe(Written(stamp, t), Written(stamp, t - t % SECOND))
  {
    var whole := t - t % SECOND;
    assert whole % SECOND == 0 && whole / SECOND == t / SECOND;
    WholeIsBare(t);
    WholeIsBare(whole);
    hide Fraction, Written;
    assert Confused(t, whole);
    TextOrderExactly(stamp, t, whole);
  }
}
