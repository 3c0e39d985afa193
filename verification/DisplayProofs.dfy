/** The displays of money and quantities against the parser and the tolerance that check them. */
module DisplayProofs {
  import opened Text
  import opened Decimals
  import opened Display
  import opened NumericAuthority
  import opened NumericRoundTrip

  // ---------- the printed texts in closed form ----------

  function Sign(negative: bool): string {
    if negative then "-" else ""
  }

  /** The digits left of hundredths `f` once trailing zeros are stripped. */
  function FractionText(f: nat): string
    requires f < 100
  {
    if f == 0 then "" else if f % 10 == 0 then [Digit(f / 10)] else [Digit(f / 10), Digit(f % 10)]
  }

  /** `m` hundredths, printed the Vietnamese way without trailing zeros. */
  function Hundredths(m: nat): string {
    Grouped(m / 100, '.') + (if m % 100 == 0 then "" else "," + FractionText(m % 100))
  }

  lemma TwoDigits(f: nat)
    requires f < 100
    ensures Padded(f, 2) == [Digit(f / 10), Digit(f % 10)]
  {
    assert Padded(f, 2) == Padded(f / 10, 1) + [Digit(f % 10)];
    assert Padded(f / 10, 1) == Padded(f / 10 / 10, 0) + [Digit(f / 10 % 10)];
  }

  lemma StripHundredths(p: string, f: nat)
    requires f < 100 && p != "" && '0' <= p[|p| - 1] <= '9'
    ensures RStripChar(RStripChar(p + "." + Padded(f, 2), '0'), '.')
         == p + (if f == 0 then "" else "." + FractionText(f))
  {
    var a, b := Digit(f / 10), Digit(f % 10);
    var q := p + ".";
    var qa := q + [a];
    TwoDigits(f);
    assert q + Padded(f, 2) == qa + [b];
    RStripCharStep(qa, '0', b);
    if f % 10 != 0 {
      RStripCharStep(qa, '.', b);
      assert qa + [b] == p + ("." + FractionText(f));
    } else if f != 0 {
      RStripCharStep(q, '0', a);
      RStripCharStep(q, '.', a);
      assert qa == p + ("." + FractionText(f));
    } else {
      StripPoint(p, a);
    }
  }

  lemma StripPoint(p: string, a: char)
    requires a == '0' && p != "" && '0' <= p[|p| - 1] <= '9'
    ensures RStripChar(RStripChar(p + "." + [a], '0'), '.') == p
  {
    RStripCharStep(p + ".", '0', a);
    RStripCharStep(p, '0', '.');
    RStripCharStep(p, '.', '.');
    assert p + "." == p + ['.'];
  }

  lemma {:induction false} GroupedLast(n: nat)
    ensures var g := Grouped(n, ','); g != "" && '0' <= g[|g| - 1] <= '9'
  {
    if n < 1000 { NaturalDigits(n); } else { PaddedDigits(n % 1000, 3); }
  }

  lemma LocalisedSign(negative: bool)
    ensures Localised(Sign(negative)) == Sign(negative)
  {}

  lemma LocalisedSigned(negative: bool, n: nat)
    ensures Localised(Sign(negative) + Grouped(n, ',')) == Sign(negative) + Grouped(n, '.')
  {
    LocalisedSign(negative);
    LocalisedGrouped(n);
    LocalisedAppend(Sign(negative), Grouped(n, ','));
  }

  lemma LocalisedFraction(p: string, f: nat)
    requires f < 100
    ensures Localised(p + (if f == 0 then "" else "." + FractionText(f)))
         == Localised(p) + (if f == 0 then "" else "," + FractionText(f))
  {
    if f != 0 {
      var t := FractionText(f);
      LocalisedDigits(t);
      LocalisedAppend(p, "." + t);
      assert ("." + t)[1..] == t;
    } else {
      assert p + "" == p;
    }
  }

  lemma FixedHundredths(negative: bool, m: nat)
    ensures Fixed(negative, m, 2) == Sign(negative) + Grouped(m / 100, ',') + "." + Padded(m % 100, 2)
  {
    Thousand();
    var p, f := Sign(negative) + Grouped(m / 100, ','), Padded(m % 100, 2);
    assert Fixed(negative, m, 2) == p + ("." + f);
    assert p + ("." + f) == p + "." + f;
  }

  /** Both printers at two decimals: sign, grouped integer part, and the decimals that are not trailing zeros. */
  lemma PrintedHundredths(negative: bool, m: nat)
    ensures Localised(RStripChar(RStripChar(Fixed(negative, m, 2), '0'), '.')) == Sign(negative) + Hundredths(m)
  {
    hide Fixed, Localised, RStripChar, Grouped, Padded, FractionText;
    var q, f := m / 100, m % 100;
    var p := Sign(negative) + Grouped(q, ',');
    GroupedLast(q);
    FixedHundredths(negative, m);
    StripHundredths(p, f);
    LocalisedFraction(p, f);
    LocalisedSigned(negative, q);
  }

  lemma PrintedWhole(negative: bool, n: nat)
    ensures Localised(Fixed(negative, n, 0)) == Sign(negative) + Grouped(n, '.')
  {
    assert Fixed(negative, n, 0) == Sign(negative) + Grouped(n, ',');
    LocalisedSigned(negative, n);
  }

  lemma GroupedExample()
    ensures Grouped(1234, '.') == "1.234"
  {
    assert Natural(1) == "1" && Grouped(1, '.') == "1";
    assert Padded(2, 1) == Padded(0, 0) + [Digit(2)] == "2";
    assert Padded(23, 2) == Padded(2, 1) + [Digit(3)] == "23";
    assert Padded(234, 3) == Padded(23, 2) + [Digit(4)] == "234";
  }

  // ---------- reading a text made of a sign, a number and a tail ----------

  /** A character the printers use. */
  predicate Printable(c: char) {
    '0' <= c <= '9' || c == '.' || c == ',' || c == '-' || c == '%' || c == ' ' || UnitLetter(c)
  }

  predicate AllPrintable(s: string) {
    forall k | 0 <= k < |s| :: Printable(s[k])
  }

  predicate Numeric(s: string) {
    forall k | 0 <= k < |s| :: '0' <= s[k] <= '9' || s[k] == '.' || s[k] == ',' || s[k] == '-'
  }

  lemma PrintableFold(u: Unicode, s: string)
    requires u.Valid() && AllPrintable(s)
    ensures Fold(u, s) == s
  {
    forall k | 0 <= k < |s|
      ensures u.fold(s[k]) == [s[k]]
    {
      PrintableChar(u, s[k]);
    }
    FoldIdentity(u, s);
  }

  lemma PrintableChar(u: Unicode, c: char)
    requires u.Valid() && Printable(c)
    ensures u.fold(c) == [c]
    ensures c != ' ' ==> !u.space(c)
  {
    assert '0' <= c <= '9' ==> u.digit(c) >= 0;
  }

  lemma FoldStrip(u: Unicode, s: string)
    requires u.Valid() && AllPrintable(s) && s != "" && s[0] != ' ' && s[|s| - 1] != ' '
    ensures Strip(u, Fold(u, s)) == s
  {
    PrintableFold(u, s);
    PrintableChar(u, s[0]);
    PrintableChar(u, s[|s| - 1]);
  }

  lemma FirstDigitIs(u: Unicode, sign: string, body: string)
    requires u.Numerals() && (sign == "" || sign == "-") && body != "" && u.digit(body[0]) >= 0
    ensures FirstDigit(u, sign + body) == |sign|
  {
    var s := sign + body;
    if sign == "" {
      assert s == body;
      DigitFirst(u, s);
    } else {
      assert s[0] == '-' && s[1..] == body;
      DigitFirst(u, s[1..]);
    }
  }

  lemma DigitFirst(u: Unicode, s: string)
    requires s != "" && u.digit(s[0]) >= 0
    ensures FirstDigit(u, s) == 0
  {}

  lemma SliceShift(a: string, b: string, t: nat)
    requires t <= |b|
    ensures (a + b)[|a|..|a| + t] == b[..t]
  {}

  lemma TokenAfterSign(u: Unicode, sign: string, body: string, t: nat, value: real)
    requires u.Numerals() && (sign == "" || sign == "-") && body != "" && u.digit(body[0]) >= 0
    requires t == TokenEnd(u, body, 0) && ParseDecimal(u, body[..t]) == Some(value)
    ensures ReadToken(u, sign + body) == Some(value)
  {
    FirstDigitIs(u, sign, body);
    TokenShift(u, sign, body);
    SliceShift(sign, body, t);
  }

  lemma ParsedFrom(u: Unicode, text: string, value: real)
    requires Strip(u, Fold(u, text)) == text && ReadToken(u, text) == Some(value)
    ensures ParseMention(u, text) == Some(Classify(u, text, value))
  {}

  /** Fold and strip leave a printed text alone. */
  lemma ReadPrinted(u: Unicode, text: string, value: real)
    requires u.Valid() && AllPrintable(text) && text != "" && text[0] != ' ' && text[|text| - 1] != ' '
    requires ReadToken(u, text) == Some(value)
    ensures ParseMention(u, text) == Some(Classify(u, text, value))
  {
    FoldStrip(u, text);
    ParsedFrom(u, text, value);
  }

  lemma {:induction false} GroupedNumeric(n: nat)
    ensures Numeric(Grouped(n, '.'))
  {
    if n < 1000 {
      NaturalDigits(n);
    } else {
      GroupedNumeric(n / 1000);
      PaddedDigits(n % 1000, 3);
    }
  }

  // ---------- what the words after the number mean ----------

  /** The word starts with a letter, so a text of digits and separators does not contain it. */
  predicate LetterFirst(w: string) {
    w != "" && !('0' <= w[0] <= '9') && w[0] != '.' && w[0] != ',' && w[0] != '-'
  }

  lemma LetterAbsent(u: Unicode, s: string, w: string)
    requires Numeric(s) && LetterFirst(w)
    ensures !Contains(s, w) && !ContainsWord(u, s, w)
  {
    NumericLacks(s, w[0]);
    AbsentWord(u, s, w, w[0]);
    AbsentLetter(s, w, w[0]);
  }

  lemma {:induction false} NoAlias(u: Unicode, s: string, aliases: seq<(string, string)>)
    requires Numeric(s)
    requires forall i | 0 <= i < |aliases| :: LetterFirst(aliases[i].0)
    ensures FirstAlias(u, s, aliases).None?
  {
    if aliases != [] {
      LetterAbsent(u, s, aliases[0].0);
      NoAlias(u, s, aliases[1..]);
    }
  }

  lemma NumericLacks(s: string, c: char)
    requires Numeric(s) && !('0' <= c <= '9') && c != '.' && c != ',' && c != '-'
    ensures c !in s
  {}

  lemma AliasesAreWords()
    ensures forall i | 0 <= i < |UNIT_ALIASES| :: LetterFirst(UNIT_ALIASES[i].0)
  {
    assert |UNIT_ALIASES| == 12;
    assert LetterFirst("kg") && LetterFirst("liters") && LetterFirst("litres") && LetterFirst("lít");
    assert LetterFirst("cái") && LetterFirst("ngày") && LetterFirst("days") && LetterFirst("sku");
    assert LetterFirst("nguyên liệu") && LetterFirst("ingredients") && LetterFirst("g") && LetterFirst("l");
  }

  lemma NumericUnit(u: Unicode, s: string)
    requires u.Valid() && Numeric(s)
    ensures NormalizeUnit(u, s).None?
  {
    PrintableFold(u, s);
    AliasesAreWords();
    NoAlias(u, s, UNIT_ALIASES);
  }

  /** Digits and separators alone carry no kind and no unit. */
  lemma PlainKind(u: Unicode, s: string, value: real)
    requires u.Valid() && Numeric(s)
    ensures Classify(u, s, value) == Parsed(value, None, None)
  {
    forall p | p in MONEY_WORDS
      ensures !Contains(s, p)
    {
      LetterAbsent(u, s, p);
    }
    LetterAbsent(u, s, "tr"); LetterAbsent(u, s, "k");
    LetterAbsent(u, s, "%"); LetterAbsent(u, s, "phần trăm");
    NumericUnit(u, s);
  }

  datatype MoneyTail = Million | ThousandDong | Dong

  function TailText(tail: MoneyTail): string {
    match tail
    case Million => " triệu đồng"
    case ThousandDong => " nghìn đồng"
    case Dong => " đồng"
  }

  function TailScale(tail: MoneyTail): real {
    match tail case Million => 1000000.0 case ThousandDong => 1000.0 case Dong => 1.0
  }

  lemma MoneyWord(u: Unicode, s: string, i: nat)
    requires i < |MONEY_WORDS| && Contains(s, MONEY_WORDS[i])
    ensures SaysMoney(u, s)
  {
    assert MONEY_WORDS[i] in MONEY_WORDS;
  }

  lemma MillionKind(u: Unicode, s: string, value: real)
    requires Contains(s, "triệu")
    ensures Classify(u, s, value) == Parsed(value * 1000000.0, Some(Money), None)
  {
    MoneyWord(u, s, 0);
  }

  lemma ThousandKind(u: Unicode, s: string, value: real)
    requires Contains(s, "nghìn") && 't' !in s
    ensures Classify(u, s, value) == Parsed(value * 1000.0, Some(Money), None)
  {
    MoneyWord(u, s, 1);
    AbsentLetter(s, "triệu", 't');
    AbsentWord(u, s, "tr", 't');
  }

  lemma DongKind(u: Unicode, s: string, value: real)
    requires Contains(s, "đồng") && 't' !in s && 'h' !in s && 'à' !in s && 'k' !in s
    ensures Classify(u, s, value) == Parsed(value, Some(Money), None)
  {
    MoneyWord(u, s, 3);
    AbsentLetter(s, "triệu", 't'); AbsentWord(u, s, "tr", 't');
    AbsentLetter(s, "nghìn", 'h'); AbsentLetter(s, "ngàn", 'à'); AbsentWord(u, s, "k", 'k');
  }

  lemma NotIn(a: string, b: string, c: char)
    requires Numeric(a) && c in "thàk" && c !in b
    ensures c !in a + b
  {
    NumericLacks(a, c);
  }

  lemma WordInside(s: string, a: string, w: string, rest: string)
    requires s == a + (" " + w + rest)
    ensures Contains(s, w)
  {
    var i := |a| + 1;
    assert s[i..i + |w|] == w;
    assert At(s, i, w);
  }

  /** The money words scale the number and make it money. */
  lemma MoneyKind(u: Unicode, a: string, tail: MoneyTail, value: real)
    requires Numeric(a)
    ensures Classify(u, a + TailText(tail), value) == Parsed(value * TailScale(tail), Some(Money), None)
  {
    hide Classify, Contains, Numeric;
    var s := a + TailText(tail);
    match tail {
      case Million =>
        WordInside(s, a, "triệu", " đồng");
        MillionKind(u, s, value);
      case ThousandDong =>
        WordInside(s, a, "nghìn", " đồng");
        NotIn(a, " nghìn đồng", 't');
        ThousandKind(u, s, value);
      case Dong =>
        assert " " + "đồng" + "" == " đồng";
        WordInside(s, a, "đồng", "");
        NotIn(a, " đồng", 't'); NotIn(a, " đồng", 'h'); NotIn(a, " đồng", 'à'); NotIn(a, " đồng", 'k');
        DongKind(u, s, value);
    }
  }

  // ---------- the round trips ----------

  /** The number the parser sees in `m` printed hundredths: past 1000 the decimals are cut off. */
  function Seen(m: nat): real {
    if m / 100 < 1000 || m % 100 == 0 then m as real / 100.0 else (m / 100) as real
  }

  lemma FractionStep(u: Unicode, d: nat, rest: string)
    requires u.Numerals() && d < 10
    ensures FractionValue(u, [Digit(d)] + rest) == (d as real + FractionValue(u, rest)) / 10.0
  {
    DigitRead(u, d);
    assert ([Digit(d)] + rest)[1..] == rest;
  }

  lemma FractionRead(u: Unicode, f: nat)
    requires u.Numerals() && 0 < f < 100
    ensures AsciiDigits(FractionText(f)) && 1 <= |FractionText(f)| <= 2
    ensures FractionValue(u, FractionText(f)) == f as real / 100.0
  {
    var a, b := f / 10, f % 10;
    assert f as real == 10.0 * a as real + b as real;
    FractionStep(u, b, "");
    FractionStep(u, a, "");
    FractionStep(u, a, [Digit(b)]);
    assert [Digit(a)] + "" == [Digit(a)] && [Digit(b)] + "" == [Digit(b)];
    assert [Digit(a)] + [Digit(b)] == [Digit(a), Digit(b)];
  }

  lemma WholeToken(u: Unicode, s: string, n: nat, tail: string)
    requires u.Numerals() && Ends(u, tail) && s == Grouped(n, '.') + tail
    ensures s != "" && u.digit(s[0]) >= 0
    ensures ParseDecimal(u, s[..TokenEnd(u, s, 0)]) == Some(n as real)
  {
    TokenPlain(u, n, tail);
    var k := TokenEnd(u, s, 0);
    assert s[..k] == Grouped(n, '.');
    ParseGrouped(u, n);
  }

  /** A separator and at most two digits after a grouped number: read below 1000, cut off from 1000 on. */
  lemma ShortFractionToken(u: Unicode, s: string, n: nat, sep: char, f: string, tail: string)
    requires u.Numerals() && Ends(u, tail) && IsSep(sep) && |f| <= 2 && AsciiDigits(f)
    requires s == Grouped(n, '.') + ([sep] + f + tail)
    ensures s != "" && u.digit(s[0]) >= 0
    ensures ParseDecimal(u, s[..TokenEnd(u, s, 0)])
         == Some(if n < 1000 && f != "" then n as real + FractionValue(u, f) else n as real)
  {
    var g := Grouped(n, '.');
    TokenShortFraction(u, n, sep, f, tail);
    var k := TokenEnd(u, s, 0);
    if n < 1000 && f != "" {
      assert k == |g| + (1 + |f|) && s[..k] == g + ([sep] + f);
      ParseShortFraction(u, n, sep, f);
    } else {
      assert k == |g| && s[..k] == g;
      ParseGrouped(u, n);
    }
  }

  lemma HundredthsText(m: nat)
    ensures var n, f := m / 100, m % 100;
      && (f == 0 ==> Hundredths(m) == Grouped(n, '.') && Seen(m) == n as real)
      && (f != 0 ==> Hundredths(m) == Grouped(n, '.') + ([','] + FractionText(f)))
      && (f != 0 ==> Seen(m) == if n < 1000 then n as real + f as real / 100.0 else n as real)
  {
    assert Grouped(m / 100, '.') + "" == Grouped(m / 100, '.');
    assert m as real == 100.0 * (m / 100) as real + (m % 100) as real;
  }

  /** The token of printed hundredths and what it reads as. */
  lemma HundredthsToken(u: Unicode, s: string, m: nat, tail: string)
    requires u.Numerals() && Ends(u, tail) && s == Hundredths(m) + tail
    ensures s != "" && u.digit(s[0]) >= 0
    ensures ParseDecimal(u, s[..TokenEnd(u, s, 0)]) == Some(Seen(m))
  {
    hide ParseDecimal, TokenEnd, Grouped, Hundredths, Seen, FractionText;
    HundredthsText(m);
    if m % 100 == 0 {
      WholeToken(u, s, m / 100, tail);
    } else {
      FractionTextToken(u, s, m / 100, m % 100, tail);
    }
  }

  lemma FractionTextToken(u: Unicode, s: string, n: nat, f: nat, tail: string)
    requires u.Numerals() && Ends(u, tail) && 0 < f < 100
    requires s == Grouped(n, '.') + ([','] + FractionText(f)) + tail
    ensures s != "" && u.digit(s[0]) >= 0
    ensures ParseDecimal(u, s[..TokenEnd(u, s, 0)])
         == Some(if n < 1000 then n as real + f as real / 100.0 else n as real)
  {
    hide ParseDecimal, TokenEnd, Grouped, FractionText, FractionValue;
    FractionRead(u, f);
    assert s == Grouped(n, '.') + ([','] + FractionText(f) + tail);
    ShortFractionToken(u, s, n, ',', FractionText(f), tail);
  }

  lemma HundredthsShape(u: Unicode, m: nat)
    requires u.Numerals()
    ensures Numeric(Hundredths(m)) && Hundredths(m) != "" && '0' <= Hundredths(m)[0] <= '9'
  {
    GroupedShape(m / 100);
    GroupedNumeric(m / 100);
    if m % 100 != 0 { FractionRead(u, m % 100); }
  }

  lemma SignedNumeric(negative: bool, body: string)
    requires Numeric(body) && body != ""
    ensures var s := Sign(negative) + body;
      Numeric(s) && AllPrintable(s) && s != "" && s[0] != ' ' && s[|s| - 1] != ' '
  {}

  /** Without a unit word: printed hundredths are read back as `Seen`. */
  lemma ReadHundredths(u: Unicode, negative: bool, m: nat)
    requires u.Valid()
    ensures ParseMention(u, Sign(negative) + Hundredths(m)) == Some(Parsed(Seen(m), None, None))
  {
    var body := Hundredths(m);
    HundredthsShape(u, m);
    SignedNumeric(negative, body);
    assert body + "" == body;
    HundredthsToken(u, body, m, "");
    TokenAfterSign(u, Sign(negative), body, TokenEnd(u, body, 0), Seen(m));
    ReadPrinted(u, Sign(negative) + body, Seen(m));
    PlainKind(u, Sign(negative) + body, Seen(m));
  }

  lemma WholeIsHundredths(n: nat)
    ensures Hundredths(100 * n) == Grouped(n, '.') && Seen(100 * n) == n as real
  {
    var m := 100 * n;
    assert m / 100 == n && m % 100 == 0;
    assert Grouped(n, '.') + "" == Grouped(n, '.');
  }

  /**
   vi_number with no decimals: the parser gives back the rounded magnitude, whatever the number.
   */
  lemma ViNumberWhole(u: Unicode, v: real)
    requires u.Valid()
    ensures ParseMention(u, ViNumber(v, 0)) == Some(Parsed(HalfUp(v, 0) as real, None, None))
  {
    var n := HalfUp(v, 0);
    PrintedWhole(v < 0.0, n);
    WholeIsHundredths(n);
    ReadHundredths(u, v < 0.0, 100 * n);
  }

  /**
   vi_number with two decimals: the parser gives back the rounded magnitude below 1000 or when it is
   integral; otherwise the token stops before the decimal comma and only the integer part comes back.
   */
  lemma ViNumberHundredths(u: Unicode, v: real)
    requires u.Valid()
    ensures ParseMention(u, ViNumber(v, 2)) == Some(Parsed(Seen(HalfUp(v, 2)), None, None))
  {
    PrintedHundredths(v < 0.0, HalfUp(v, 2));
    ReadHundredths(u, v < 0.0, HalfUp(v, 2));
  }

  /** The exact domain of the two-decimal round trip. */
  lemma ViNumberRoundTrip(u: Unicode, v: real)
    requires u.Valid()
    ensures var m := HalfUp(v, 2);
      ParseMention(u, ViNumber(v, 2)) == Some(Parsed(m as real / 100.0, None, None))
      <==> m < 100000 || m % 100 == 0
  {
    var m := HalfUp(v, 2);
    ViNumberHundredths(u, v);
    assert m == 100 * (m / 100) + m % 100;
  }
}
