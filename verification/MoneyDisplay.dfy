/** Money displays: the error of what is read back, and the tolerance that accepts it. */
module MoneyDisplay {
  import opened Text
  import opened Decimals
  import opened Display
  import opened NumericAuthority
  import opened NumericRoundTrip
  import opened DisplayProofs

  // ---------- reading a money display ----------

  lemma MoneyBody(u: Unicode, s: string, a: string, tail: MoneyTail)
    requires Numeric(a) && a != "" && s == a + TailText(tail)
    ensures AllPrintable(s) && s != "" && s[0] != ' ' && s[|s| - 1] != ' '
  {
    TailPrintable(tail);
    assert s[|s| - 1] == TailText(tail)[|TailText(tail)| - 1];
  }

  lemma TailPrintable(tail: MoneyTail)
    ensures AllPrintable(TailText(tail)) && TailText(tail)[0] == ' ' && TailText(tail)[|TailText(tail)| - 1] == 'g'
  {}

  lemma MoneyToken(u: Unicode, s: string, negative: bool, m: nat, tail: MoneyTail)
    requires u.Numerals() && s == Sign(negative) + (Hundredths(m) + TailText(tail))
    ensures ReadToken(u, s) == Some(Seen(m))
  {
    var body := Hundredths(m) + TailText(tail);
    TailPrintable(tail);
    HundredthsToken(u, body, m, TailText(tail));
    TokenAfterSign(u, Sign(negative), body, TokenEnd(u, body, 0), Seen(m));
  }

  lemma ReadTail(u: Unicode, s: string, a: string, tail: MoneyTail, value: real)
    requires u.Valid() && Numeric(a) && a != "" && s == a + TailText(tail) && ReadToken(u, s) == Some(value)
    ensures ParseMention(u, s) == Some(Parsed(value * TailScale(tail), Some(Money), None))
  {
    MoneyBody(u, s, a, tail);
    ReadPrinted(u, s, value);
    MoneyKind(u, a, tail, value);
  }

  lemma SignedHundredths(u: Unicode, a: string, negative: bool, m: nat)
    requires u.Numerals() && a == Sign(negative) + Hundredths(m)
    ensures Numeric(a) && a != ""
  {
    HundredthsShape(u, m);
    SignedNumeric(negative, Hundredths(m));
  }

  lemma Reassociate(a: string, b: string, c: string)
    ensures a + b + c == a + (b + c)
  {}

  lemma ReadMoney(u: Unicode, s: string, negative: bool, m: nat, tail: MoneyTail)
    requires u.Valid() && s == Sign(negative) + Hundredths(m) + TailText(tail)
    ensures ParseMention(u, s) == Some(Parsed(Seen(m) * TailScale(tail), Some(Money), None))
  {
    hide ParseMention, Hundredths, TailText, Sign, ReadToken;
    var a := Sign(negative) + Hundredths(m);
    SignedHundredths(u, a, negative, m);
    Reassociate(Sign(negative), Hundredths(m), TailText(tail));
    MoneyToken(u, s, negative, m, tail);
    ReadTail(u, s, a, tail, Seen(m));
  }

  /** The unit word a purchase cost is shown with, and the hundredths of that unit that are shown. */
  function CostTail(amount: real): MoneyTail {
    if amount >= 1000000.0 then Million else if amount >= 1000.0 then ThousandDong else Dong
  }

  function CostHundredths(amount: real): nat {
    if amount >= 1000000.0 then HalfUp(amount / 1000000.0, 2)
    else if amount >= 1000.0 then 100 * HalfUp(amount / 1000.0, 0)
    else 100 * HalfUp(amount, 0)
  }

  lemma WholeText(v: real)
    ensures ViNumber(v, 0) == Sign(v < 0.0) + Hundredths(100 * HalfUp(v, 0))
  {
    PrintedWhole(v < 0.0, HalfUp(v, 0));
    WholeIsHundredths(HalfUp(v, 0));
  }

  lemma CostText(amount: real)
    ensures PurchaseCostDisplay(amount)
         == Sign(amount < 0.0) + Hundredths(CostHundredths(amount)) + TailText(CostTail(amount))
  {
    if amount >= 1000000.0 {
      PrintedHundredths(amount / 1000000.0 < 0.0, HalfUp(amount / 1000000.0, 2));
    } else if amount >= 1000.0 {
      WholeText(amount / 1000.0);
    } else {
      WholeText(amount);
    }
  }

  /** The amount a reader of `PurchaseCostDisplay(amount)` sees. */
  function Displayed(amount: real): real {
    if amount >= 1000000.0 then Seen(HalfUp(amount / 1000000.0, 2)) * 1000000.0
    else if amount >= 1000.0 then HalfUp(amount / 1000.0, 0) as real * 1000.0
    else HalfUp(amount, 0) as real
  }

  lemma DisplayedIs(amount: real)
    ensures Displayed(amount) == Seen(CostHundredths(amount)) * TailScale(CostTail(amount))
  {
    WholeIsHundredths(HalfUp(amount / 1000.0, 0));
    WholeIsHundredths(HalfUp(amount, 0));
  }

  /** The parser reads every purchase cost display back as money, scaled by its own unit word. */
  lemma CostDisplayRead(u: Unicode, amount: real)
    requires u.Valid()
    ensures ParseMention(u, PurchaseCostDisplay(amount)) == Some(Parsed(Displayed(amount), Some(Money), None))
  {
    CostText(amount);
    DisplayedIs(amount);
    ReadMoney(u, PurchaseCostDisplay(amount), amount < 0.0, CostHundredths(amount), CostTail(amount));
  }

  // ---------- the error bound ----------

  /** What the two-decimal reading loses: nothing below 1000, less than one unit from there on. */
  lemma SeenBound(m: nat)
    ensures Seen(m) <= m as real / 100.0 < Seen(m) + 1.0
    ensures m < 100000 ==> Seen(m) == m as real / 100.0
  {
    assert m as real == 100.0 * (m / 100) as real + (m % 100) as real;
  }

  /**
   A displayed amount is within 500 of the amount below a million, within 5000 while the rounded
   million-count is below 1000, and within a million beyond.
   */
  lemma DisplayError(amount: real)
    requires amount >= 0.0
    ensures amount < 1000.0 ==> Magnitude(Displayed(amount) - amount) <= 0.5
    ensures 1000.0 <= amount < 1000000.0 ==> Magnitude(Displayed(amount) - amount) <= 500.0
    ensures 1000000.0 <= amount && HalfUp(amount / 1000000.0, 2) < 100000 ==>
              Magnitude(Displayed(amount) - amount) <= 5000.0
    ensures 1000000.0 <= amount ==> Magnitude(Displayed(amount) - amount) < 1005000.0
  {
    Thousand();
    if amount >= 1000000.0 {
      var x := amount / 1000000.0;
      HalfUpNearest(x, 2);
      SeenBound(HalfUp(x, 2));
    } else if amount >= 1000.0 {
      HalfUpNearest(amount / 1000.0, 0);
    } else {
      HalfUpNearest(amount, 0);
    }
  }

  // ---------- the rendering that strips integer zeros ----------

  /** Trailing decimal zeros removed from a number. */
  function Trimmed(n: nat): (k: nat)
    ensures n > 0 ==> 0 < k && k % 10 != 0
    ensures k <= n && (n > 0 && n % 10 == 0 ==> k < n)
  {
    if n > 0 && n % 10 == 0 then Trimmed(n / 10) else n
  }

  lemma {:induction false} StripNatural(n: nat)
    requires n > 0
    ensures RStripChar(Natural(n), '0') == Natural(Trimmed(n))
  {
    if n < 10 {
      RStripCharStep("", '0', Digit(n));
    } else {
      RStripCharStep(Natural(n / 10), '0', Digit(n % 10));
      if n % 10 == 0 { StripNatural(n / 10); }
    }
  }

  /** What is left of a three-digit block. */
  function BlockLeft(r: nat): string
    requires r < 1000
  {
    RStripChar(Padded(r, 3), '0')
  }

  lemma {:induction false} StripAfter(p: string, b: string, c: char)
    requires p != "" && p[|p| - 1] != c
    ensures RStripChar(p + b, c) == p + RStripChar(b, c)
  {
    if b == "" {
      assert p + b == p;
    } else {
      assert (p + b)[..|p + b| - 1] == p + b[..|b| - 1];
      if b[|b| - 1] == c { StripAfter(p, b[..|b| - 1], c); }
    }
  }

  lemma {:induction false} StripDigits(s: string)
    requires AsciiDigits(s)
    ensures var r := RStripChar(s, '0'); AsciiDigits(r) && |r| <= |s| && (r != "" ==> r[|r| - 1] != '0')
    ensures s != "" && s[|s| - 1] == '0' ==> |RStripChar(s, '0')| < |s|
  {
    if s != "" && s[|s| - 1] == '0' { StripDigits(s[..|s| - 1]); }
  }

  lemma BlockLast(r: nat)
    requires r < 1000
    ensures Padded(r, 3)[2] == Digit(r % 10)
  {
    assert Padded(r, 3) == Padded(r / 10, 2) + [Digit(r % 10)];
  }

  lemma BlockLeftShape(n: nat)
    ensures var f := BlockLeft(n % 1000);
      AsciiDigits(f) && |f| <= 3 && (n % 10 == 0 ==> |f| <= 2)
  {
    hide Padded, RStripChar;
    var r := n % 1000;
    assert r % 10 == n % 10;
    PaddedDigits(r, 3);
    BlockLast(r);
    StripDigits(Padded(r, 3));
  }

  lemma LocalisedHead(p: string, f: string)
    requires AsciiDigits(f)
    ensures Localised(p + [','] + f) == Localised(p) + (['.'] + f)
  {
    LocalisedDigits(f);
    LocalisedAppend(p + [','], f);
    LocalisedAppend(p, [',']);
    assert Localised([',']) == ['.'];
  }

  /** A whole number printed by `Vi` from 1000 on: the zeros of its last group are gone, the separators stay. */
  lemma ViLarge(negative: bool, n: nat)
    requires n >= 1000
    ensures Localised(RStripChar(RStripChar(Fixed(negative, n, 0), '0'), '.'))
         == Sign(negative) + (Grouped(n / 1000, '.') + (['.'] + BlockLeft(n % 1000)))
  {
    var q, block, f := n / 1000, Padded(n % 1000, 3), BlockLeft(n % 1000);
    var h := Sign(negative) + Grouped(q, ',');
    var p := h + [','];
    hide Fixed, Padded, RStripChar, Localised;
    BlockLeftShape(n);
    WholeFixed(negative, n);
    assert Fixed(negative, n, 0) == p + block by {
      assert Grouped(n, ',') == Grouped(q, ',') + [','] + block;
    }
    StripAfter(p, block, '0');
    NoPointStrip(p, f);
    LocalisedHead(h, f);
    LocalisedSigned(negative, q);
  }

  lemma NoPointStrip(p: string, f: string)
    requires p != "" && p[|p| - 1] == ',' && AsciiDigits(f)
    ensures RStripChar(p + f, '.') == p + f
  {}

  lemma {:induction false} FractionBound(u: Unicode, s: string)
    requires u.Numerals()
    ensures 0.0 <= FractionValue(u, s) <= 1.0
  {
    if s != "" { FractionBound(u, s[1..]); }
  }

  lemma ViLargeToken(u: Unicode, body: string, q: nat, f: string) returns (value: real)
    requires u.Numerals() && AsciiDigits(f) && |f| <= 2 && body == Grouped(q, '.') + (['.'] + f)
    ensures value <= q as real + 1.0
    ensures body != "" && u.digit(body[0]) >= 0 && ParseDecimal(u, body[..TokenEnd(u, body, 0)]) == Some(value)
  {
    hide ParseDecimal, TokenEnd, Grouped, FractionValue;
    assert ['.'] + f + "" == ['.'] + f;
    ShortFractionToken(u, body, q, '.', f, "");
    FractionBound(u, f);
    value := if q < 1000 && f != "" then q as real + FractionValue(u, f) else q as real;
  }

  lemma ViLargeRead(u: Unicode, text: string, negative: bool, n: nat)
    requires u.Valid() && n >= 1000 && n % 10 == 0
    requires text == Sign(negative) + (Grouped(n / 1000, '.') + (['.'] + BlockLeft(n % 1000)))
    ensures ParseMention(u, text).Some? && ParseMention(u, text).value.value < n as real
  {
    hide ParseMention, BlockLeft, Grouped, ParseDecimal, TokenEnd;
    var q, f := n / 1000, BlockLeft(n % 1000);
    var body := Grouped(q, '.') + (['.'] + f);
    BlockLeftShape(n);
    GroupedNumeric(q);
    var value := ViLargeToken(u, body, q, f);
    ReadSigned(u, negative, body, value);
  }

  lemma ReadSigned(u: Unicode, negative: bool, body: string, value: real)
    requires u.Valid() && Numeric(body) && body != "" && u.digit(body[0]) >= 0
    requires ParseDecimal(u, body[..TokenEnd(u, body, 0)]) == Some(value)
    ensures ParseMention(u, Sign(negative) + body) == Some(Parsed(value, None, None))
  {
    SignedNumeric(negative, body);
    TokenAfterSign(u, Sign(negative), body, TokenEnd(u, body, 0), value);
    ReadPrinted(u, Sign(negative) + body, value);
    PlainKind(u, Sign(negative) + body, value);
  }

  lemma {:induction false} NaturalLast(n: nat)
    ensures Natural(n)[|Natural(n)| - 1] == Digit(n % 10)
  {}

  lemma {:induction false} GroupedEnd(n: nat)
    ensures var g := Grouped(n, ','); g != "" && g[|g| - 1] == Digit(n % 10)
  {
    if n < 1000 { NaturalLast(n); } else { BlockLast(n % 1000); assert n % 1000 % 10 == n % 10; }
  }

  lemma WholeFixed(negative: bool, n: nat)
    ensures Fixed(negative, n, 0) == Sign(negative) + Grouped(n, ',')
  {
    hide Grouped;
    assert Pow10(0) == 1 && Quotient(n, 1) == n;
  }

  /** Nothing to strip: the number is printed in full. */
  lemma ViFull(negative: bool, n: nat)
    requires n % 10 != 0
    ensures Localised(RStripChar(RStripChar(Fixed(negative, n, 0), '0'), '.')) == Sign(negative) + Grouped(n, '.')
  {
    hide Fixed, Localised, Grouped;
    var s := Fixed(negative, n, 0);
    GroupedEnd(n);
    WholeFixed(negative, n);
    assert s[|s| - 1] == Digit(n % 10);
    LocalisedSigned(negative, n);
  }

  lemma StripSmall(n: nat)
    requires n < 1000
    ensures var t := RStripChar(Natural(n), '0');
      t == (if n == 0 then "" else Natural(Trimmed(n))) && AsciiDigits(t)
  {
    if n == 0 {
      RStripCharStep("", '0', '0');
      assert Natural(0) == "" + ['0'];
    } else {
      StripNatural(n);
      NaturalDigits(Trimmed(n));
    }
  }

  lemma StripSigned(negative: bool, s: string)
    requires AsciiDigits(s)
    ensures RStripChar(Sign(negative) + s, '0') == Sign(negative) + RStripChar(s, '0')
  {
    if negative { StripAfter("-", s, '0'); } else { assert "" + s == s; }
  }

  lemma FixedSmall(negative: bool, n: nat)
    requires n < 1000
    ensures Fixed(negative, n, 0) == Sign(negative) + Natural(n)
  {
    assert Pow10(0) == 1 && Quotient(n, 1) == n;
    assert Sign(negative) + Natural(n) + "" == Sign(negative) + Natural(n);
  }

  lemma NoPointSmall(negative: bool, t: string)
    requires AsciiDigits(t)
    ensures RStripChar(Sign(negative) + t, '.') == Sign(negative) + t
  {}

  /** Below 1000 the trailing zeros go, and a zero goes entirely. */
  lemma ViSmall(negative: bool, n: nat)
    requires n < 1000
    ensures Localised(RStripChar(RStripChar(Fixed(negative, n, 0), '0'), '.'))
         == Sign(negative) + (if n == 0 then "" else Natural(Trimmed(n)))
  {
    hide Natural, RStripChar, Localised, Fixed;
    var t := RStripChar(Natural(n), '0');
    NaturalDigits(n);
    StripSmall(n);
    StripSigned(negative, Natural(n));
    FixedSmall(negative, n);
    NoPointSmall(negative, t);
    LocalisedDigits(t);
    LocalisedSign(negative);
    LocalisedAppend(Sign(negative), t);
  }

  /** A printed zero is no number at all. */
  lemma NothingToRead(u: Unicode, negative: bool)
    requires u.Valid()
    ensures ParseMention(u, Sign(negative)).None?
  {
    assert Fold(u, Sign(negative)) == Sign(negative);
    assert Strip(u, Sign(negative)) == Sign(negative);
  }

  /**
   _vi with no decimals strips zeros of the integer itself, so what it prints reads back as the rounded
   number exactly when that number is not a multiple of ten.
   */
  lemma ViWholeRoundTrip(u: Unicode, v: real)
    requires u.Valid()
    ensures var n := HalfEven(v, 0);
      ParseMention(u, Vi(v, 0)) == Some(Parsed(n as real, None, None)) <==> n % 10 != 0
  {
    var n, negative := HalfEven(v, 0), v < 0.0;
    if n % 10 != 0 {
      ViFull(negative, n);
      WholeIsHundredths(n);
      ReadHundredths(u, negative, 100 * n);
    } else if n == 0 {
      ViSmall(negative, n);
      assert Sign(negative) + "" == Sign(negative);
      NothingToRead(u, negative);
    } else if n < 1000 {
      ViSmall(negative, n);
      WholeIsHundredths(Trimmed(n));
      ReadHundredths(u, negative, 100 * Trimmed(n));
    } else {
      ViLarge(negative, n);
      ViLargeRead(u, Vi(v, 0), negative, n);
    }
  }

  /** Twenty is printed as "2" and read back as two. */
  lemma TwentyReadsAsTwo(u: Unicode)
    requires u.Valid()
    ensures Vi(20.0, 0) == "2" && ParseMention(u, Vi(20.0, 0)) == Some(Parsed(2.0, None, None))
  {
    assert Pow10(0) == 1;
    assert HalfEven(20.0, 0) == 20;
    ViSmall(false, 20);
    assert Trimmed(20) == Trimmed(2) == 2;
    assert Sign(false) + Natural(2) == "2";
    WholeIsHundredths(2);
    assert Grouped(2, '.') == "2";
    ReadHundredths(u, false, 200);
  }

  /** With two decimals `Vi` reads back like the manager-facing printer, up to its own rounding mode. */
  lemma ViHundredthsRead(u: Unicode, v: real)
    requires u.Valid()
    ensures ParseMention(u, Vi(v, 2)) == Some(Parsed(Seen(HalfEven(v, 2)), None, None))
  {
    PrintedHundredths(v < 0.0, HalfEven(v, 2));
    ReadHundredths(u, v < 0.0, HalfEven(v, 2));
  }
}
