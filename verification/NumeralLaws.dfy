/**
 What a number token is read as, separator by separator: `_parse_decimal` of
 app/decision_intelligence/numeric_authority.py, lines 188 to 200.
 */
module NumeralLaws {
  import opened Text
  import opened Decimals
  import opened NumericAuthority
  import opened NumericRoundTrip

  // ---------- values of digits ----------

  lemma {:induction false} HeadValue(u: Unicode, c: char, s: string)
    requires u.digit(c) >= 0
    ensures NatValue(u, [c] + s) == u.digit(c) * Pow10(|s|) + NatValue(u, s)
  {
    var t := [c] + s;
    if s == "" {
      assert t[..0] == "" && NatValue(u, "") == 0;
    } else {
      var front := s[..|s| - 1];
      HeadValue(u, c, front);
      assert t[..|t| - 1] == [c] + front && t[|t| - 1] == s[|s| - 1];
      TimesTen(u.digit(c), Pow10(|front|));
    }
  }

  lemma TimesTen(d: nat, p: nat)
    ensures d * p * 10 == d * (10 * p)
  {}

  /** Decimals stand for their digits over a power of ten. */
  lemma {:induction false} FractionIs(u: Unicode, s: string)
    requires AllDigits(u, s)
    ensures FractionValue(u, s) == NatValue(u, s) as real / Pow10(|s|) as real
  {
    if s != "" {
      var rest := s[1..];
      FractionIs(u, rest);
      HeadValue(u, s[0], rest);
      assert s == [s[0]] + rest;
      Shifted(u.digit(s[0]), NatValue(u, rest), Pow10(|rest|));
    }
  }

  lemma Shifted(d: nat, n: nat, p: nat)
    requires p > 0
    ensures (d as real + n as real / p as real) / 10.0 == (d * p + n) as real / (10 * p) as real
  {
    var q := p as real;
    assert (d * p + n) as real == d as real * q + n as real;
    assert (10 * p) as real == 10.0 * q;
    assert (d as real * q + n as real) / q == d as real + n as real / q;
  }

  // ---------- one separator ----------

  /**
   Around a single point or comma: at most three digits before it and exactly three after it make a grouped integer,
   anything else a decimal fraction.
   */
  lemma SeparatedNumber(u: Unicode, left: string, sep: char, right: string)
    requires u.Numerals() && IsSep(sep) && AsciiDigits(left) && AsciiDigits(right) && left != "" && right != ""
    ensures ParseDecimal(u, left + [sep] + right) ==
      Some(if |left| <= 3 && |right| == 3 then NatValue(u, left + right) as real
           else NatValue(u, left) as real + NatValue(u, right) as real / Pow10(|right|) as real)
  {
    hide DecimalOf, Count, IndexOf, NatValue;
    OneSeparator(left, sep, right);
    DigitsDecimal(u, left + right);
    DecimalPoint(u, left, right);
    AsciiRead(u, right);
    FractionIs(u, right);
  }

  // ---------- several separators ----------

  function DigitsOf(u: Unicode, t: string): string {
    if t == "" then "" else (if u.digit(t[0]) >= 0 then [t[0]] else "") + DigitsOf(u, t[1..])
  }

  lemma {:induction false} OnlyDigitsStay(u: Unicode, t: string)
    requires u.Numerals() && forall k | 0 <= k < |t| :: DigitOrSep(u, t[k])
    ensures Remove(Remove(t, '.'), ',') == DigitsOf(u, t)
  {
    if t != "" {
      OnlyDigitsStay(u, t[1..]);
      var c, r := t[0], Remove(t[1..], '.');
      assert DigitOrSep(u, c) && ([c] + r)[1..] == r && "" + r == r && "" + Remove(r, ',') == Remove(r, ',');
      if c == '.' {
        assert Remove(t, '.') == r;
      } else {
        assert Remove(t, '.') == [c] + r;
        assert Remove([c] + r, ',') == (if c == ',' then "" else [c]) + Remove(r, ',');
      }
      assert "" + DigitsOf(u, t[1..]) == DigitsOf(u, t[1..]);
    }
  }

  /** Where a separator is repeated, all separators are dropped: the digits alone make the number. */
  lemma RepeatedSeparators(u: Unicode, t: string)
    requires u.Numerals() && Tokenlike(u, t) && (Count(t, '.') > 1 || Count(t, ',') > 1)
    ensures ParseDecimal(u, t) == Some(NatValue(u, DigitsOf(u, t)) as real)
  {
    OnlyDigitsStay(u, t);
    RemoveSeparators(u, t, '.');
    RemoveSeparators(u, Remove(t, '.'), ',');
    var r := Remove(Remove(t, '.'), ',');
    NoCommaNoPoint(u, r);
    AllDigitsDecimal(u, r);
  }

  /** "1.234" is a thousand and more, "1234.567" is not a million: four digits before the point make it a fraction. */
  lemma LongFraction(u: Unicode)
    requires u.Numerals()
    ensures ParseDecimal(u, "1.234") == Some(1234.0)
    ensures ParseDecimal(u, "1234.567") == Some(1234.0 + 567.0 / 1000.0)
  {
    hide ParseDecimal, NatValue;
    SeparatedNumber(u, "1", '.', "234");
    SeparatedNumber(u, "1234", '.', "567");
    assert "1" + ['.'] + "234" == "1.234" && "1234" + ['.'] + "567" == "1234.567" && "1" + "234" == "1234";
    FourDigits(u, '1', '2', '3', '4');
    ThreeDigits(u, '5', '6', '7');
    assert Pow10(3) == 1000 by { assert Pow10(2) == 100; }
  }

  lemma FourDigits(u: Unicode, a: char, b: char, c: char, d: char)
    requires u.digit(a) >= 0 && u.digit(b) >= 0 && u.digit(c) >= 0 && u.digit(d) >= 0
    ensures NatValue(u, [a, b, c, d]) == 1000 * u.digit(a) + 100 * u.digit(b) + 10 * u.digit(c) + u.digit(d)
  {
    ThreeDigits(u, a, b, c);
    assert [a, b, c, d][..3] == [a, b, c];
  }

  lemma ThreeDigits(u: Unicode, a: char, b: char, c: char)
    requires u.digit(a) >= 0 && u.digit(b) >= 0 && u.digit(c) >= 0
    ensures NatValue(u, [a, b, c]) == 100 * u.digit(a) + 10 * u.digit(b) + u.digit(c)
  {
    assert [a, b, c][..2] == [a, b] && [a, b][..1] == [a] && [a][..0] == "";
    assert NatValue(u, [a]) == u.digit(a);
    assert NatValue(u, [a, b]) == 10 * u.digit(a) + u.digit(b);
  }
}
