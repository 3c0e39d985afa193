/**
 Decimal numerals: Python's `f"{x:,.{d}f}"`, its two rounding modes, the Vietnamese swap of
 separators, and the reading of a numeral back into a number.
 */
module Decimals {
  import opened Text

  // ---------- printing ----------

  function Digit(d: nat): char
    requires d < 10
  {
    ('0' as int + d) as char
  }

  function Natural(n: nat): (s: string)
    ensures |s| >= 1
  {
    if n < 10 then [Digit(n)] else Natural(n / 10) + [Digit(n % 10)]
  }

  /** The last `width` decimal digits of `n`. */
  function Padded(n: nat, width: nat): (s: string)
    ensures |s| == width
  {
    if width == 0 then "" else Padded(n / 10, width - 1) + [Digit(n % 10)]
  }

  function Grouped(n: nat, sep: char): string {
    if n < 1000 then Natural(n) else Grouped(n / 1000, sep) + [sep] + Padded(n % 1000, 3)
  }

  function Pow10(k: nat): (p: nat)
    ensures p > 0
  {
    if k == 0 then 1 else 10 * Pow10(k - 1)
  }

  function Quotient(m: nat, p: nat): nat
    requires p > 0
  {
    m / p
  }

  function Remainder(m: nat, p: nat): nat
    requires p > 0
  {
    m % p
  }

  function Magnitude(v: real): real {
    if v < 0.0 then -v else v
  }

  /** |v| * 10^d rounded to the nearest integer, ties away from zero (ROUND_HALF_UP). */
  function HalfUp(v: real, d: nat): nat {
    (Magnitude(v) * Pow10(d) as real + 0.5).Floor
  }

  /** The nearest integer, ties to even (the default decimal context). */
  function NearestEven(x: real): (n: int)
    ensures n as real - 0.5 <= x <= n as real + 0.5
    ensures x == n as real - 0.5 || x == n as real + 0.5 ==> n % 2 == 0
  {
    var f := x.Floor;
    var excess := x - f as real;
    if excess < 0.5 || (excess == 0.5 && f % 2 == 0) then f else f + 1
  }

  /** |v| * 10^d rounded to the nearest integer, ties to even. */
  function HalfEven(v: real, d: nat): nat {
    NearestEven(Magnitude(v) * Pow10(d) as real)
  }

  /** f"{x:,.{d}f}" where the magnitude of x is `m` units of 10^-d. */
  function Fixed(negative: bool, m: nat, d: nat): string {
    (if negative then "-" else "") + Grouped(Quotient(m, Pow10(d)), ',')
    + (if d == 0 then "" else "." + Padded(Remainder(m, Pow10(d)), d))
  }

  /** .replace(",", "X").replace(".", ",").replace("X", "."), one character at a time */
  function Localised(s: string): (r: string)
    ensures |r| == |s|
  {
    if s == "" then ""
    else [if s[0] == ',' || s[0] == 'X' then '.' else if s[0] == '.' then ',' else s[0]] + Localised(s[1..])
  }

  // ---------- reading ----------

  predicate AllDigits(u: Unicode, s: string) {
    forall k | 0 <= k < |s| :: u.digit(s[k]) >= 0
  }

  /** The number a run of digits denotes; characters that are not digits count as zero. */
  function NatValue(u: Unicode, s: string): nat {
    if s == "" then 0
    else
      var d := u.digit(s[|s| - 1]);
      NatValue(u, s[..|s| - 1]) * 10 + (if d < 0 then 0 else d)
  }

  /** The value of the digits after a decimal point. */
  function FractionValue(u: Unicode, s: string): real {
    if s == "" then 0.0 else ((if u.digit(s[0]) < 0 then 0 else u.digit(s[0])) as real + FractionValue(u, s[1..])) / 10.0
  }

  function Count(s: string, c: char): nat {
    if s == "" then 0 else (if s[0] == c then 1 else 0) + Count(s[1..], c)
  }

  function Remove(s: string, c: char): string {
    if s == "" then "" else (if s[0] == c then "" else [s[0]]) + Remove(s[1..], c)
  }

  function IndexOf(s: string, c: char): (k: nat)
    requires c in s
    ensures k < |s| && s[k] == c && c !in s[..k]
  {
    if s[0] == c then 0 else 1 + IndexOf(s[1..], c)
  }

  /** Decimal(text) on the texts the parser builds: digits, optionally a point and more digits; None is InvalidOperation. */
  function DecimalOf(u: Unicode, s: string): Option<real> {
    var k := DigitRun(u, s, 0);
    if k == 0 then None
    else if k == |s| then Some(NatValue(u, s) as real)
    else if s[k] == '.' && k + 1 < |s| && AllDigits(u, s[k + 1..]) then
      Some(NatValue(u, s[..k]) as real + FractionValue(u, s[k + 1..]))
    else None
  }

  // ---------- facts ----------

  /** Half-up rounding is off by at most half a unit, and a tie goes up. */
  lemma HalfUpNearest(v: real, d: nat)
    ensures var x := Magnitude(v) * Pow10(d) as real;
      HalfUp(v, d) as real - 0.5 <= x < HalfUp(v, d) as real + 0.5
  {}

  predicate AsciiDigits(s: string) {
    forall k | 0 <= k < |s| :: '0' <= s[k] <= '9'
  }

  lemma {:induction false} NaturalDigits(n: nat)
    ensures AsciiDigits(Natural(n))
  {
    if n >= 10 { NaturalDigits(n / 10); }
  }

  lemma {:induction false} PaddedDigits(n: nat, width: nat)
    ensures AsciiDigits(Padded(n, width))
  {
    if width > 0 { PaddedDigits(n / 10, width - 1); }
  }

  /** Printing a natural number and reading it back gives the number. */
  lemma {:induction false} NaturalValue(u: Unicode, n: nat)
    requires u.Numerals()
    ensures NatValue(u, Natural(n)) == n
  {
    var s := Natural(n);
    if n >= 10 {
      NaturalValue(u, n / 10);
      assert s[..|s| - 1] == Natural(n / 10);
    } else {
      assert s[..|s| - 1] == "";
    }
  }

  lemma DigitRead(u: Unicode, d: nat)
    requires u.Numerals() && d < 10
    ensures u.digit(Digit(d)) == d
  {}

  lemma ShiftDigit(v: nat, p: nat, q: nat, r: nat)
    ensures (v * p + q) * 10 + r == v * (10 * p) + (10 * q + r)
  {}

  /** Appending one digit. */
  lemma AppendDigit(u: Unicode, a: string, d: nat)
    requires u.Numerals() && d < 10
    ensures NatValue(u, a + [Digit(d)]) == NatValue(u, a) * 10 + d
  {
    DigitRead(u, d);
    assert (a + [Digit(d)])[..|a|] == a;
  }

  /** Appending a zero-padded block of digits multiplies by the block's power of ten and adds it. */
  lemma {:induction false} PaddedValue(u: Unicode, a: string, n: nat, width: nat)
    requires u.Numerals()
    requires n < Pow10(width)
    ensures NatValue(u, a + Padded(n, width)) == NatValue(u, a) * Pow10(width) + n
    decreases width
  {
    if width == 0 {
      assert a + "" == a;
    } else {
      var p, q, r := Pow10(width - 1), n / 10, n % 10;
      PaddedValue(u, a, q, width - 1);
      AppendDigit(u, a + Padded(q, width - 1), r);
      assert a + Padded(n, width) == (a + Padded(q, width - 1)) + [Digit(r)];
      ShiftDigit(NatValue(u, a), p, q, r);
    }
  }

  lemma {:induction false} CountAppend(a: string, b: string, c: char)
    ensures Count(a + b, c) == Count(a, c) + Count(b, c)
  {
    if a == "" { assert a + b == b; } else {
      CountAppend(a[1..], b, c);
      assert (a + b)[1..] == a[1..] + b;
    }
  }

  lemma {:induction false} RemoveAppend(a: string, b: string, c: char)
    ensures Remove(a + b, c) == Remove(a, c) + Remove(b, c)
  {
    if a == "" { assert a + b == b; } else {
      RemoveAppend(a[1..], b, c);
      assert (a + b)[1..] == a[1..] + b && (a + b)[0] == a[0];
    }
  }

  lemma {:induction false} Absent(s: string, c: char)
    requires c !in s
    ensures Count(s, c) == 0 && Remove(s, c) == s
  {
    if s != "" { Absent(s[1..], c); }
  }

  lemma {:induction false} LocalisedAppend(a: string, b: string)
    ensures Localised(a + b) == Localised(a) + Localised(b)
  {
    if a == "" { assert a + b == b; } else {
      LocalisedAppend(a[1..], b);
      assert (a + b)[1..] == a[1..] + b;
    }
  }

  lemma {:induction false} LocalisedDigits(s: string)
    requires AsciiDigits(s)
    ensures Localised(s) == s
  {
    if s != "" {
      LocalisedDigits(s[1..]);
    }
  }

  /** Swapping separators turns English grouping into Vietnamese grouping. */
  lemma {:induction false} LocalisedGrouped(n: nat)
    ensures Localised(Grouped(n, ',')) == Grouped(n, '.')
  {
    if n < 1000 {
      NaturalDigits(n);
      LocalisedDigits(Natural(n));
    } else {
      LocalisedGrouped(n / 1000);
      PaddedDigits(n % 1000, 3);
      LocalisedDigits(Padded(n % 1000, 3));
      LocalisedAppend(Grouped(n / 1000, ',') + [','], Padded(n % 1000, 3));
      LocalisedAppend(Grouped(n / 1000, ','), [',']);
    }
  }

  lemma RStripCharStep(s: string, c: char, x: char)
    ensures RStripChar(s + [x], c) == if x == c then RStripChar(s, c) else s + [x]
  {
    assert (s + [x])[..|s|] == s;
  }
}
