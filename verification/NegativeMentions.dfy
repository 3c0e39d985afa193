/**
 What the mention scanner finds of a printed negative number. The hyphen shields the first block of digits: below 1000
 only decimals are left to be found, from 1000 on the number that follows the first separator.
 */
module NegativeMentions {
  import opened Text
  import opened Decimals
  import opened NumericAuthority
  import opened NumericRoundTrip
  import opened DisplayProofs
  import opened Endings
  import opened PrintedMentions

  // ---------- the number after the first separator ----------

  /** The first block of digits of a grouped number. */
  function TopBlock(n: nat): nat
    requires n >= 1000
  {
    if n < 1000000 then n / 1000 else TopBlock(n / 1000)
  }

  /** What follows the first separator, as text and as a number. */
  function BelowText(n: nat): (s: string)
    requires n >= 1000
    ensures |s| >= 3
  {
    if n < 1000000 then Padded(n % 1000, 3) else BelowText(n / 1000) + ['.'] + Padded(n % 1000, 3)
  }

  function Below(n: nat): nat
    requires n >= 1000
  {
    if n < 1000000 then n % 1000 else Below(n / 1000) * 1000 + n % 1000
  }

  lemma {:induction false} GroupedSplit(n: nat)
    requires n >= 1000
    ensures TopBlock(n) < 1000 && Grouped(n, '.') == Natural(TopBlock(n)) + (['.'] + BelowText(n))
  {
    if n >= 1000000 { GroupedSplit(n / 1000); }
  }

  /** The number loses its first block: what is left is smaller than the number. */
  lemma {:induction false} BelowLess(n: nat)
    requires n >= 1000
    ensures Below(n) < n && (n < 1000000 ==> Below(n) == n % 1000)
  {
    if n >= 1000000 { BelowLess(n / 1000); }
  }

  lemma {:induction false} BelowNumeric(n: nat)
    requires n >= 1000
    ensures Numeric(BelowText(n)) && '0' <= BelowText(n)[0] <= '9' && (n < 1000000 ==> AsciiDigits(BelowText(n)))
  {
    PaddedDigits(n % 1000, 3);
    if n >= 1000000 { BelowNumeric(n / 1000); }
  }

  lemma {:induction false} BelowScan(u: Unicode, n: nat, rest: string)
    requires u.Numerals() && n >= 1000 && NoDigitFirst(u, rest)
    ensures var s := BelowText(n) + rest;
      DigitRun(u, s, 0) == 3 && GroupsEnd(u, s, 3) == |BelowText(n)| + GroupsEnd(u, rest, 0)
  {
    hide Padded, DigitRun, GroupsEnd;
    var block := Padded(n % 1000, 3);
    PaddedDigits(n % 1000, 3);
    if n < 1000000 {
      ScanHead(u, block, rest);
    } else {
      ScanBlock(u, block, rest);
      BelowScan(u, n / 1000, "." + block + rest);
      BlockRest(BelowText(n / 1000), block, rest);
    }
  }

  lemma EndsNoGroup(u: Unicode, tail: string)
    requires u.Numerals() && Ends(u, tail)
    ensures NoDigitFirst(u, tail) && GroupsEnd(u, tail, 0) == 0
  {}

  lemma BelowToken(u: Unicode, n: nat, tail: string)
    requires u.Numerals() && n >= 1000 && Ends(u, tail)
    ensures var s := BelowText(n) + tail;
      u.digit(s[0]) >= 0 && TokenEnd(u, s, 0) == |BelowText(n)|
  {
    hide DigitRun, GroupsEnd, Padded;
    var s := BelowText(n) + tail;
    BelowNumeric(n);
    EndsNoGroup(u, tail);
    BelowScan(u, n, tail);
    if n < 1000000 {
      assert tail != "" ==> s[3] == tail[0];
      assert |tail| > 1 ==> s[4] == tail[1];
    }
    BelowLong(n);
  }

  lemma BelowLong(n: nat)
    requires n >= 1000
    ensures |BelowText(n)| == 3 <==> n < 1000000
  {}

  lemma BelowFraction(u: Unicode, n: nat, f: string, tail: string)
    requires u.Numerals() && n >= 1000 && Ends(u, tail) && 1 <= |f| <= 2 && AsciiDigits(f)
    ensures var s := BelowText(n) + ([','] + f + tail);
      && u.digit(s[0]) >= 0
      && TokenEnd(u, s, 0) == |BelowText(n)| + if n < 1000000 then 1 + |f| else 0
  {
    hide DigitRun, GroupsEnd, Padded, BelowText;
    BelowNumeric(n);
    BelowLong(n);
    NoGroup(u, ',', f, tail);
    BelowScan(u, n, [','] + f + tail);
    SmallFractionEnd(u, BelowText(n), ',', f, tail);
  }

  // ---------- reading it ----------

  lemma BlockValue(u: Unicode, n: nat)
    requires u.Numerals() && n < 1000
    ensures NatValue(u, Padded(n, 3)) == n
  {
    Thousand();
    PaddedValue(u, "", n, 3);
    assert "" + Padded(n, 3) == Padded(n, 3);
  }

  lemma {:induction false} BelowDigits(u: Unicode, n: nat)
    requires u.Numerals() && n >= 1000
    ensures var g := BelowText(n);
      && ',' !in g
      && Count(g, '.') == (if n < 1000000 then 0 else 1 + Count(BelowText(n / 1000), '.'))
      && AsciiDigits(Remove(g, '.')) && Remove(g, '.') != ""
      && NatValue(u, Remove(g, '.')) == Below(n)
  {
    hide Count, Remove, NatValue;
    var k := n % 1000;
    PaddedDigits(k, 3);
    if n < 1000000 {
      Absent(Padded(k, 3), '.');
      BlockValue(u, k);
    } else {
      var head := BelowText(n / 1000);
      BelowDigits(u, n / 1000);
      BlockDigits(u, head, k);
      Thousand();
      PaddedValue(u, Remove(head, '.'), k, 3);
    }
  }

  lemma TwoBlocks(u: Unicode, a: nat, b: nat)
    requires u.Numerals() && a < 1000 && b < 1000
    ensures NatValue(u, Padded(a, 3) + Padded(b, 3)) == a * 1000 + b
  {
    hide Padded;
    Thousand();
    BlockValue(u, a);
    PaddedValue(u, Padded(a, 3), b, 3);
  }

  lemma ParseBelow(u: Unicode, n: nat)
    requires u.Numerals() && n >= 1000
    ensures ParseDecimal(u, BelowText(n)) == Some(Below(n) as real)
  {
    hide Padded, NatValue, Remove, Count, DecimalOf;
    var g := BelowText(n);
    BelowDigits(u, n);
    PaddedDigits(n % 1000, 3);
    PaddedDigits(n / 1000 % 1000, 3);
    if n < 1000000 {
      BlockValue(u, n % 1000);
      Absent(g, '.'); Absent(g, ',');
      NoSeparators(u, g);
    } else if n < 1000000000 {
      ParseOneGroup(u, Padded(n / 1000 % 1000, 3), Padded(n % 1000, 3));
      TwoBlocks(u, n / 1000 % 1000, n % 1000);
    } else {
      BelowDigits(u, n / 1000);
      Absent(Remove(g, '.'), ',');
      DigitsDecimal(u, Remove(g, '.'));
    }
  }

  lemma NoSeparators(u: Unicode, g: string)
    requires u.Numerals() && AsciiDigits(g) && g != ""
    ensures ParseDecimal(u, g) == Some(NatValue(u, g) as real)
  {
    Absent(g, '.'); Absent(g, ',');
    DigitsDecimal(u, g);
  }

  lemma ParseBelowFraction(u: Unicode, n: nat, f: nat)
    requires u.Numerals() && 1000 <= n < 1000000 && 0 < f < 100
    ensures ParseDecimal(u, BelowText(n) + ([','] + FractionText(f))) == Some(Below(n) as real + f as real / 100.0)
  {
    hide Padded, FractionText, FractionValue, NatValue, ParseDecimal;
    var g, t := Padded(n % 1000, 3), FractionText(f);
    PaddedDigits(n % 1000, 3);
    BlockValue(u, n % 1000);
    FractionRead(u, f);
    ParsePoint(u, g, ',', t);
    assert g + [','] + t == g + ([','] + t);
  }

  /** The number after the first separator and its decimals, where they are one token. */
  function BelowHundredths(m: nat): string
    requires m >= 100000
  {
    BelowText(m / 100) + (if m % 100 == 0 then "" else [','] + FractionText(m % 100))
  }

  predicate BelowWhole(m: nat) {
    m < 100000000 || m % 100 == 0
  }

  function BelowMention(m: nat, e: Ending): Parsed
    requires m >= 100000
  {
    Parsed((Below(m / 100) as real + (m % 100) as real / 100.0) * ScaleOf(e), KindOf(e), UnitOf(e))
  }

  lemma BelowTokenEnd(u: Unicode, m: nat, tail: string)
    requires u.Numerals() && m >= 100000 && Ends(u, tail)
    ensures var a := BelowHundredths(m);
      && Numeric(a) && a != "" && '0' <= a[0] <= '9'
      && TokenEnd(u, a + tail, 0) == if BelowWhole(m) then |a| else |BelowText(m / 100)|
  {
    hide TokenEnd, FractionText, BelowText, Ends;
    var n, f := m / 100, m % 100;
    assert n >= 1000 && (n < 1000000 <==> m < 100000000);
    BelowNumeric(n);
    if f == 0 {
      BelowToken(u, n, tail);
      assert BelowText(n) + "" == BelowText(n);
    } else {
      FractionRead(u, f);
      BelowFraction(u, n, FractionText(f), tail);
      assert BelowHundredths(m) + tail == BelowText(n) + ([','] + FractionText(f) + tail);
    }
  }

  lemma BelowParses(u: Unicode, m: nat)
    requires u.Numerals() && m >= 100000 && BelowWhole(m)
    ensures ParseDecimal(u, BelowHundredths(m)) == Some(Below(m / 100) as real + (m % 100) as real / 100.0)
  {
    hide ParseDecimal, FractionText, BelowText;
    if m % 100 == 0 {
      ParseBelow(u, m / 100);
      assert BelowText(m / 100) + "" == BelowText(m / 100);
    } else {
      ParseBelowFraction(u, m / 100, m % 100);
    }
  }

  lemma ReadBelow(u: Unicode, m: nat, e: Ending)
    requires u.Valid() && m >= 100000 && BelowWhole(m)
    ensures ParseMention(u, BelowHundredths(m) + WordOf(e)) == Some(BelowMention(m, e))
  {
    hide ParseDecimal, TokenEnd, ParseMention, WordOf, ReadToken, Numeric, BelowHundredths, ScaleOf, KindOf, UnitOf, Ends;
    hide Below;
    var a, value := BelowHundredths(m), Below(m / 100) as real + (m % 100) as real / 100.0;
    var s := a + WordOf(e);
    WordEnds(u, e);
    BelowTokenEnd(u, m, WordOf(e));
    BelowParses(u, m);
    assert s[..|a|] == a && s[0] == a[0];
    ReadAtStart(u, s, |a|, value);
    ReadEnding(u, a, e, value);
    assert BelowMention(m, e) == Parsed(value * ScaleOf(e), KindOf(e), UnitOf(e));
  }

  lemma ReadBelowText(u: Unicode, n: nat)
    requires u.Valid() && n >= 1000
    ensures ParseMention(u, BelowText(n)) == Some(Parsed(Below(n) as real, None, None))
  {
    hide ParseMention, BelowText, Below;
    var m := 100 * n;
    assert m / 100 == n && m % 100 == 0;
    ReadBelow(u, m, Bare);
    assert BelowText(n) + "" + "" == BelowText(n);
    assert (Below(n) as real + 0.0 / 100.0) * 1.0 == Below(n) as real;
  }

  // ---------- what the hyphen shields ----------

  lemma SignedSlices(s: string, lead: string, g: string, rest: string)
    requires s == lead + ("-" + (g + rest))
    ensures s[..|lead|] == lead && s[|lead|] == '-' && s[|lead| + 1..] == g + rest
    ensures forall k | 0 <= k < |g| :: s[|lead| + 1 + k] == g[k]
  {}

  /** The hyphen shields the first digit, and each digit shields the next. */
  lemma SignShields(u: Unicode, s: string, lead: string, g: string, rest: string)
    requires u.Valid() && Quiet(u, lead) && s == lead + ("-" + (g + rest)) && AsciiDigits(g)
    ensures forall k | 0 <= k < |lead| + 1 + |g| :: !Starts(u, s, k)
  {
    SignedSlices(s, lead, g, rest);
    forall k | 0 <= k < |lead| + 1 + |g|
      ensures !Starts(u, s, k)
    {
      if k < |lead| {
        assert s[k] == lead[k];
      } else if k > |lead| + 1 {
        assert s[k - 1] == g[k - 1 - (|lead| + 1)];
        assert u.digit(s[k - 1]) >= 0 && u.Classified(s[k - 1]);
      }
    }
  }

  /** After the shielded block and a separator the scanner is at a digit that nothing shields. */
  lemma ToTheSeparator(u: Unicode, s: string, lead: string, g: string, sep: char, rest: string) returns (p: nat)
    requires u.Valid() && Quiet(u, lead) && s == lead + ("-" + (g + ([sep] + rest))) && AsciiDigits(g) && IsSep(sep)
    requires rest != "" && u.digit(rest[0]) >= 0
    ensures p == |lead| + 1 + |g| + 1 < |s| && s[p..] == rest && Starts(u, s, p) && Matches(u, s, 0) == Matches(u, s, p)
  {
    hide Quiet, AsciiDigits;
    p := |lead| + 1 + |g| + 1;
    SignShields(u, s, lead, g, [sep] + rest);
    assert s == (lead + "-" + g + [sep]) + rest;
    assert s[p - 1] == sep && s[p] == rest[0] && s[p..] == rest;
    assert u.Classified(sep) by { assert u.word(sep) || !u.word(sep); }
    assert !Starts(u, s, p - 1);
    SkipTo(u, s, 0, p);
  }

  lemma NothingParsed(u: Unicode, s: string)
    ensures ParsedMentions(u, s, []) == []
  {}

  lemma SmallGrouped(n: nat)
    requires n < 1000
    ensures AsciiDigits(Grouped(n, '.'))
  {
    NaturalDigits(n);
  }

  /** What the scanner finds of `m` hundredths after a hyphen. */
  function NegativeAs(lead: nat, m: nat, e: Ending): seq<Mention> {
    var n, f := m / 100, m % 100;
    if n < 1000 then
      var p, t := lead + 1 + |Grouped(n, '.')| + 1, FractionText(f) + WordOf(e);
      if f == 0 then [] else [Mention(LeftOver(f, e), t, p, p + |t|)]
    else
      var p := lead + 1 + |Natural(TopBlock(n))| + 1;
      if BelowWhole(m) then
        var t := BelowHundredths(m) + WordOf(e);
        [Mention(BelowMention(m, e), t, p, p + |t|)]
      else
        var k, t := p + |BelowText(n)|, FractionText(f) + WordOf(e);
        [Mention(Parsed(Below(n) as real, None, None), BelowText(n), p, k), Mention(LeftOver(f, e), t, k + 1, k + 1 + |t|)]
  }

  lemma SmallWhole(u: Unicode, lead: string, n: nat, e: Ending, trail: string)
    requires u.Valid() && Quiet(u, lead) && Trails(u, e, trail) && n < 1000
    ensures Mentions(u, lead + ("-" + (Grouped(n, '.') + TailOf(e, trail)))) == []
  {
    hide TailOf, Matches, ParsedMentions, Quiet, Grouped, Trails, Starts;
    var g, t := Grouped(n, '.'), TailOf(e, trail);
    var s, end := lead + ("-" + (g + t)), |lead| + 1 + |Grouped(n, '.')|;
    SmallGrouped(n);
    SignShields(u, s, lead, g, t);
    TailQuiet(u, e, trail);
    assert s == (lead + "-" + g) + t;
    assert forall k | end <= k < |s| :: s[k] == t[k - end];
    SkipTo(u, s, 0, end);
    NothingFrom(u, s, end);
    NothingParsed(u, s);
  }

  lemma SmallFraction(u: Unicode, lead: string, n: nat, f: nat, e: Ending, trail: string)
    requires u.Valid() && Quiet(u, lead) && Trails(u, e, trail) && n < 1000 && 0 < f < 100
    ensures var s, t := lead + ("-" + (Grouped(n, '.') + ([','] + (FractionText(f) + TailOf(e, trail))))), FractionText(f) + WordOf(e);
      var p := |lead| + 1 + |Grouped(n, '.')| + 1;
      Mentions(u, s) == [Mention(LeftOver(f, e), t, p, p + |t|)]
  {
    hide TailOf, WordOf, Matches, Mentions, ParseMention, Quiet, LeftOver, FractionText, TokenEnd, Starts, Trails, Grouped;
    hide AsciiDigits;
    var g, t := Grouped(n, '.'), FractionText(f);
    var s := lead + ("-" + (g + ([','] + (t + TailOf(e, trail)))));
    SmallGrouped(n);
    CutFraction(u, f, e, trail);
    assert (t + TailOf(e, trail))[0] == t[0];
    var p := ToTheSeparator(u, s, lead, g, ',', t + TailOf(e, trail));
    ReadLeftOver(u, f, e);
    OneAt(u, s, p, t, e, trail, LeftOver(f, e));
  }

  lemma LargeText(lead: string, m: nat, tail: string)
    requires m >= 100000
    ensures Hundredths(m) + tail == Natural(TopBlock(m / 100)) + (['.'] + (BelowHundredths(m) + tail))
    ensures AsciiDigits(Natural(TopBlock(m / 100)))
  {
    hide Natural, BelowText, FractionText, Grouped;
    var n, f := m / 100, m % 100;
    GroupedSplit(n);
    NaturalDigits(TopBlock(n));
    HundredthsText(m);
    if f == 0 { assert BelowText(n) + "" == BelowText(n); }
    assert Hundredths(m) == Natural(TopBlock(n)) + (['.'] + BelowHundredths(m));
  }

  lemma BelowCut(m: nat, tail: string)
    requires m >= 100000 && !BelowWhole(m)
    ensures m % 100 != 0
    ensures BelowHundredths(m) + tail == BelowText(m / 100) + ([','] + (FractionText(m % 100) + tail))
  {
    hide BelowText, FractionText;
  }

  lemma LargeMentions(u: Unicode, lead: string, m: nat, e: Ending, trail: string)
    requires u.Valid() && u.Matching() && Quiet(u, lead) && Trails(u, e, trail) && m >= 100000
    ensures Mentions(u, lead + ("-" + (Hundredths(m) + TailOf(e, trail)))) == NegativeAs(|lead|, m, e)
  {
    hide TailOf, WordOf, Matches, Mentions, ParseMention, Quiet, LeftOver, FractionText, TokenEnd, Starts, Trails, Hundredths;
    hide BelowText, BelowHundredths, BelowMention, TopBlock, Natural, Below, AsciiDigits, Ends, BelowWhole;
    var n, tail := m / 100, TailOf(e, trail);
    var s, a := lead + ("-" + (Hundredths(m) + tail)), BelowHundredths(m);
    LargeText(lead, m, tail);
    TailEnds(u, e, trail);
    BelowTokenEnd(u, m, tail);
    assert (a + tail)[0] == a[0];
    var p := ToTheSeparator(u, s, lead, Natural(TopBlock(n)), '.', a + tail);
    if BelowWhole(m) {
      ReadBelow(u, m, e);
      OneAt(u, s, p, a, e, trail, BelowMention(m, e));
    } else {
      BelowCut(m, tail);
      CutFraction(u, m % 100, e, trail);
      BelowStart(u, n);
      ReadBelowText(u, n);
      ReadLeftOver(u, m % 100, e);
      TwoAt(u, s, p, BelowText(n), FractionText(m % 100), e, trail, Parsed(Below(n) as real, None, None), LeftOver(m % 100, e));
    }
  }

  lemma BelowStart(u: Unicode, n: nat)
    requires u.Numerals() && n >= 1000
    ensures BelowText(n) != "" && u.digit(BelowText(n)[0]) >= 0
  {
    BelowNumeric(n);
  }

  /** Everything the scanner finds in a sentence whose last number is a printed negative one. */
  lemma NegativeMentionsAre(u: Unicode, lead: string, m: nat, e: Ending, trail: string)
    requires u.Valid() && u.Matching() && Quiet(u, lead) && Trails(u, e, trail)
    ensures Mentions(u, lead + ("-" + (Hundredths(m) + TailOf(e, trail)))) == NegativeAs(|lead|, m, e)
  {
    hide TailOf, WordOf, Mentions, Quiet, LeftOver, FractionText, Trails, Hundredths, Grouped, BelowHundredths, BelowMention;
    if m >= 100000 {
      LargeMentions(u, lead, m, e, trail);
    } else {
      var n, f := m / 100, m % 100;
      HundredthsText(m);
      if f == 0 {
        SmallWhole(u, lead, n, e, trail);
      } else {
        SmallFraction(u, lead, n, f, e, trail);
        assert Hundredths(m) + TailOf(e, trail) == Grouped(n, '.') + ([','] + (FractionText(f) + TailOf(e, trail)));
      }
    }
  }
}
