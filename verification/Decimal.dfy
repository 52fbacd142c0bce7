/** Decimal text: plain, and with a comma between thousands, as Python's
    `str(n)` and `f"{n:,}"` print it and as the scripts read it back. */
module Decimal {
  datatype Option<+T> = None | Some(value: T)

  predicate IsDigit(c: char) {
    '0' <= c <= '9'
  }

  function DigitChar(d: nat): char
    requires d < 10
  {
    ('0' as int + d) as char
  }

  function DigitValue(c: char): nat
    requires IsDigit(c)
  {
    c as int - '0' as int
  }

  predicate AllDigits(s: string) {
    forall i | 0 <= i < |s| :: IsDigit(s[i])
  }

  /** `str(n)`. */
  function Digits(n: nat): (s: string)
    ensures s != "" && AllDigits(s)
  {
    if n < 10 then [DigitChar(n)] else Digits(n / 10) + [DigitChar(n % 10)]
  }

  function Value(s: string): nat
    requires AllDigits(s)
  {
    if s == "" then 0 else 10 * Value(s[..|s| - 1]) + DigitValue(s[|s| - 1])
  }

  /** `int(s)` of a text of digits; anything else raises. */
  function ReadInt(s: string): Option<nat> {
    if s != "" && AllDigits(s) then Some(Value(s)) else None
  }

  function Pad3(r: nat): string
    requires r < 1000
  {
    [DigitChar(r / 100), DigitChar(r / 10 % 10), DigitChar(r % 10)]
  }

  /** `f"{n:,}"`. */
  function Grouped(n: nat): string {
    if n < 1000 then Digits(n) else Grouped(n / 1000) + "," + Pad3(n % 1000)
  }

  /** `s.replace(",", "")`. */
  function Ungroup(s: string): string {
    if s == "" then "" else Kept(s[0]) + Ungroup(s[1..])
  }

  function Kept(c: char): string {
    if c == ',' then "" else [c]
  }

  /** `s.replace(",", "%2C")`, as a badge's address needs. */
  function Escape(s: string): string {
    if s == "" then "" else (if s[0] == ',' then "%2C" else [s[0]]) + Escape(s[1..])
  }

  /** `s.replace("%2C", ",")`. */
  function Unescape(s: string): string {
    if |s| >= 3 && s[..3] == "%2C" then "," + Unescape(s[3..])
    else if s == "" then ""
    else [s[0]] + Unescape(s[1..])
  }

  lemma {:induction false} ValueOfDigits(n: nat)
    ensures Value(Digits(n)) == n
  {
    if n >= 10 {
      ValueOfDigits(n / 10);
      var s := Digits(n);
      assert s[..|s| - 1] == Digits(n / 10);
    }
  }

  /** Reading what was printed gives the number. */
  lemma DigitsRoundTrip(n: nat)
    ensures ReadInt(Digits(n)) == Some(n)
  {
    ValueOfDigits(n);
  }

  /** No number has a leading zero but zero itself. */
  lemma {:induction false} NoLeadingZero(n: nat)
    ensures Digits(n)[0] == '0' <==> n == 0
  {
    if n >= 10 {
      NoLeadingZero(n / 10);
    }
  }

  lemma {:induction false} UngroupAppend(a: string, b: string)
    ensures Ungroup(a + b) == Ungroup(a) + Ungroup(b)
  {
    hide Kept, Ungroup;
    if a == "" {
      UngroupOf(a);
      assert a + b == b;
    } else {
      UngroupAppend(a[1..], b);
      assert (a + b)[1..] == a[1..] + b && (a + b)[0] == a[0];
      UngroupOf(a);
      UngroupOf(a + b);
      Associative(Kept(a[0]), Ungroup(a[1..]), Ungroup(b));
    }
  }

  lemma UngroupOf(s: string)
    ensures Ungroup(s) == if s == "" then "" else Kept(s[0]) + Ungroup(s[1..])
  {
    hide Kept;
  }

  lemma Associative(a: string, b: string, c: string)
    ensures a + b + c == a + (b + c)
  {
  }

  lemma {:induction false} UngroupDigits(s: string)
    requires AllDigits(s)
    ensures Ungroup(s) == s
  {
    if s != "" {
      UngroupDigits(s[1..]);
    }
  }

  lemma LastDigits(n: nat)
    requires n >= 1000
    ensures Digits(n) == Digits(n / 1000) + Pad3(n % 1000)
  {
    var q, r := n / 1000, n % 1000;
    assert n == 1000 * q + r;
    assert n / 10 == 100 * q + r / 10 && n % 10 == r % 10;
    var t := r / 10;
    assert n / 10 / 10 == 10 * q + t / 10 && n / 10 % 10 == t % 10;
    assert n / 10 / 10 / 10 == q && n / 10 / 10 % 10 == t / 10 == r / 100;
    assert Digits(n) == Digits(n / 10) + [DigitChar(r % 10)];
    assert Digits(n / 10) == Digits(n / 10 / 10) + [DigitChar(t % 10)];
    assert Digits(n / 10 / 10) == Digits(q) + [DigitChar(r / 100)];
  }

  /** Without its commas, a grouped number is the plain one. */
  lemma {:induction false} UngroupGrouped(n: nat)
    ensures Ungroup(Grouped(n)) == Digits(n)
  {
    if n < 1000 {
      UngroupDigits(Digits(n));
    } else {
      hide Digits;
      UngroupGrouped(n / 1000);
      LastDigits(n);
      var q, p := Grouped(n / 1000), Pad3(n % 1000);
      UngroupAppend(q + ",", p);
      UngroupAppend(q, ",");
      UngroupDigits(p);
      assert Ungroup(",") == "";
    }
  }

  /** Thousands-separated text reads back as its number, so no two numbers
      share one. */
  lemma GroupedRoundTrip(n: nat)
    ensures ReadInt(Ungroup(Grouped(n))) == Some(n)
  {
    UngroupGrouped(n);
    DigitsRoundTrip(n);
  }

  /** The character `k` places from the right is a comma when `k` is three more
      than a multiple of four, and else a digit. */
  predicate Place(s: string, k: nat)
    requires k < |s|
  {
    var c := s[|s| - 1 - k];
    if k % 4 == 3 then c == ',' else IsDigit(c)
  }

  lemma SmallDigits(n: nat)
    requires n < 1000
    ensures |Digits(n)| <= 3
  {
    if n >= 10 {
      assert Digits(n) == Digits(n / 10) + [DigitChar(n % 10)];
      if n >= 100 {
        assert Digits(n / 10) == Digits(n / 10 / 10) + [DigitChar(n / 10 % 10)];
        assert Digits(n / 10 / 10) == [DigitChar(n / 10 / 10)];
      }
    }
  }

  predicate AllPlaces(s: string) {
    forall k | 0 <= k < |s| :: Place(s, k)
  }

  lemma PlacesAppend(q: string, p: string)
    requires AllPlaces(q) && |p| == 3 && AllDigits(p)
    ensures AllPlaces(q + ("," + p))
  {
    var s := q + ("," + p);
    forall k | 0 <= k < |s| ensures Place(s, k) {
      if k >= 4 {
        assert Place(q, k - 4);
      }
    }
  }

  /** Commas stand between thousands and nowhere else, and none in front. */
  lemma {:induction false} CommasByThree(n: nat)
    ensures Grouped(n) != "" && IsDigit(Grouped(n)[0])
    ensures AllPlaces(Grouped(n))
  {
    hide Digits, AllPlaces;
    if n < 1000 {
      SmallPlaces(n);
    } else {
      CommasByThree(n / 1000);
      PlacesAppend(Grouped(n / 1000), Pad3(n % 1000));
      Associative(Grouped(n / 1000), ",", Pad3(n % 1000));
    }
  }

  lemma SmallPlaces(n: nat)
    requires n < 1000
    ensures AllPlaces(Digits(n))
  {
    hide Digits;
    SmallDigits(n);
  }

  lemma NoPercent(n: nat)
    ensures '%' !in Grouped(n)
  {
    CommasByThree(n);
    var s := Grouped(n);
    hide Grouped;
    forall i | 0 <= i < |s| ensures s[i] != '%' {
      assert Place(s, |s| - 1 - i);
    }
  }

  lemma {:induction false} EscapeRoundTrip(s: string)
    requires '%' !in s
    ensures Unescape(Escape(s)) == s
  {
    if s != "" {
      EscapeRoundTrip(s[1..]);
      var e := Escape(s);
      if s[0] == ',' {
        assert e[..3] == "%2C" && e[3..] == Escape(s[1..]);
      } else {
        assert e[0] == s[0] != '%';
        assert |e| >= 3 ==> e[..3][0] == e[0] && "%2C"[0] == '%';
        assert e[1..] == Escape(s[1..]);
      }
    }
  }

  lemma {:induction false} EscapeHidesCommas(s: string)
    ensures ',' !in Escape(s)
  {
    if s != "" {
      EscapeHidesCommas(s[1..]);
    }
  }

  /** A badge's text holds no comma, and reads back as the table's and as the
      same number. */
  lemma BadgeRoundTrip(n: nat)
    ensures ',' !in Escape(Grouped(n))
    ensures Unescape(Escape(Grouped(n))) == Grouped(n)
    ensures ReadInt(Ungroup(Unescape(Escape(Grouped(n))))) == Some(n)
  {
    hide Grouped, Escape, Unescape, Ungroup;
    NoPercent(n);
    EscapeHidesCommas(Grouped(n));
    EscapeRoundTrip(Grouped(n));
    GroupedRoundTrip(n);
  }

  /** Python's `round(n / 1000)`: to the nearest, a half to the even one. */
  function Thousands(n: nat): nat {
    var q, r := n / 1000, n % 1000;
    if r < 500 || (r == 500 && q % 2 == 0) then q else q + 1
  }

  /** No thousands are nearer, and of two as near the even one is taken. */
  lemma ThousandsNearest(n: nat, k: nat)
    ensures var t := Thousands(n);
            && -500 <= n - 1000 * t <= 500
            && (k != t ==> n - 1000 * k >= 500 || n - 1000 * k <= -500)
            && ((n - 1000 * t == 500 || n - 1000 * t == -500) ==> t % 2 == 0)
  {
  }
}
