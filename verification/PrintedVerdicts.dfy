/** The verdict of the number check on a sentence whose last number is a printed one. */
module PrintedVerdicts {
  import opened Text
  import opened Records
  import opened Decimals
  import opened NumericAuthority
  import opened NumericRoundTrip
  import opened DisplayProofs
  import opened MatchReading
  import opened NumberCheck
  import opened Endings
  import opened PrintedMentions
  import opened NegativeMentions

  // ---------- texts in which nothing is blanked ----------

  /** No slash, and no hyphen right after a digit: nothing in the text is a date. */
  predicate Dateless(u: Unicode, s: string) {
    '/' !in s && forall k | 0 < k < |s| && s[k] == '-' :: u.digit(s[k - 1]) < 0
  }

  predicate Dashless(s: string) {
    '–' !in s
  }

  lemma NoDateAt(u: Unicode, s: string, i: nat)
    requires i <= |s| && Dateless(u, s)
    ensures DateEnd(u, s, i) == None
  {
    hide Boundary;
    assert forall k | 0 <= k < |s| :: s[k] in s;
    assert forall k: nat :: !At(s, k, "/") by {
      forall k: nat
        ensures !At(s, k, "/")
      {
        if k + 1 <= |s| { assert s[k..k + 1][0] == s[k]; }
      }
    }
    if DigitsAt(u, s, i, 4) && i + 5 <= |s| {
      var k := i + 4;
      assert s[k..k + 1][0] == s[k] && u.digit(s[k - 1]) >= 0;
    }
  }

  lemma {:induction false} NoDates(u: Unicode, s: string, i: nat)
    requires i <= |s| && Dateless(u, s)
    ensures BlankDates(u, s, i) == s[i..]
    decreases |s| - i
  {
    hide Dateless, DateEnd;
    if i < |s| {
      NoDateAt(u, s, i);
      NoDates(u, s, i + 1);
      assert s[i..] == [s[i]] + s[i + 1..];
    }
  }

  lemma KeepOne(u: Unicode, s: string, i: nat)
    requires i < |s| && DateEnd(u, s, i).None?
    ensures BlankDates(u, s, i) == [s[i]] + BlankDates(u, s, i + 1)
  {}

  lemma {:induction false} DatesAfter(u: Unicode, s: string, i: nat, j: nat)
    requires i <= j <= |s| && forall k | i <= k < j :: DateEnd(u, s, k).None?
    ensures BlankDates(u, s, i) == s[i..j] + BlankDates(u, s, j)
    decreases j - i
  {
    hide DateEnd, BlankDates;
    if i < j {
      KeepOne(u, s, i);
      DatesAfter(u, s, i + 1, j);
      assert s[i..j] == [s[i]] + s[i + 1..j];
    } else {
      assert s[i..j] == "";
    }
  }

  lemma BlankOne(u: Unicode, s: string, i: nat, e: nat)
    requires i < |s| && DateEnd(u, s, i) == Some(e)
    ensures BlankDates(u, s, i) == " " + BlankDates(u, s, e)
  {}

  lemma NoDateWithoutDigit(u: Unicode, s: string, i: nat)
    requires i < |s| && u.digit(s[i]) < 0
    ensures DateEnd(u, s, i).None?
  {}

  lemma DigitIsWord(u: Unicode, c: char)
    requires u.Valid() && u.digit(c) >= 0
    ensures u.word(c)
  {
    assert u.Classified(c) by { assert u.word(c) || !u.word(c); }
  }

  /** Two digits, a slash and two digits between word boundaries are a date. */
  lemma DayMatched(u: Unicode, s: string, i: nat)
    requires u.Valid() && i + 5 <= |s| && (i > 0 ==> !u.word(s[i - 1])) && (i + 5 < |s| ==> !u.word(s[i + 5])) && s[i + 2] == '/'
    requires AsciiDigits(s[i..i + 2]) && AsciiDigits(s[i + 3..i + 5])
    ensures DateEnd(u, s, i) == Some(i + 5)
  {
    assert s[i..i + 2][0] == s[i] && s[i..i + 2][1] == s[i + 1];
    assert s[i + 3..i + 5][0] == s[i + 3] && s[i + 3..i + 5][1] == s[i + 4];
    assert u.digit(s[i]) >= 0 && u.digit(s[i + 1]) >= 0 && u.digit(s[i + 3]) >= 0 && u.digit(s[i + 4]) >= 0;
    DigitIsWord(u, s[i]);
    DigitIsWord(u, s[i + 4]);
    assert s[i + 4..i + 5] == [s[i + 4]] && s[i + 2..i + 3] == [s[i + 2]];
  }

  lemma {:induction false} ReplaceAbsent(s: string, pattern: string, by_: string, i: nat)
    requires pattern != "" && i <= |s| && !Contains(s, pattern)
    ensures ReplaceFrom(s, pattern, by_, i) == s[i..]
    decreases |s| - i
  {
    if i < |s| {
      assert !At(s, i, pattern);
      ReplaceAbsent(s, pattern, by_, i + 1);
      assert s[i..] == [s[i]] + s[i + 1..];
    }
  }

  lemma {:induction false} RangesDashed(fields: Record)
    ensures forall r | r in RangesIn(fields) :: Contains(r, EN_DASH)
  {
    hide Contains;
    if fields != [] { RangesDashed(fields[1..]); }
  }

  lemma {:induction false} SuppliedDashed(payloads: seq<Record>)
    ensures forall r | r in SuppliedRanges(payloads) :: Contains(r, EN_DASH)
  {
    hide Contains, RangesIn;
    if payloads != [] {
      match Get(payloads[0], "display_values") {
        case Dict(fields) => RangesDashed(fields);
        case _ =>
      }
      SuppliedDashed(payloads[1..]);
    }
  }

  lemma DashInside(text: string, r: string)
    requires Dashless(text) && Contains(r, EN_DASH)
    ensures !Contains(text, r) && r != ""
  {
    var i :| 0 <= i <= |r| && At(r, i, EN_DASH);
    assert r[i..i + 1][0] == r[i] == '–';
    AbsentLetter(text, r, '–');
  }

  lemma {:induction false} NoRanges(text: string, ranges: seq<string>)
    requires Dashless(text) && forall r | r in ranges :: Contains(r, EN_DASH)
    ensures BlankRanges(text, ranges) == text && !ContainsAny(text, ranges)
    decreases |ranges|
  {
    hide Contains, Dashless;
    forall r | r in ranges
      ensures !Contains(text, r)
    {
      DashInside(text, r);
    }
    if ranges != [] {
      assert ranges[0] in ranges && forall r | r in ranges[1..] :: r in ranges;
      DashInside(text, ranges[0]);
      ReplaceAbsent(text, ranges[0], " ", 0);
      NoRanges(text, ranges[1..]);
    }
  }

  lemma NothingBlanked(u: Unicode, text: string, payloads: seq<Record>)
    requires Dateless(u, text) && Dashless(text)
    ensures Protected(u, text, payloads) == text && !RangeContradicted(u, text, payloads)
  {
    hide Dateless, Dashless, BlankDates, ContainsAny, SuppliedRanges, BlankRanges;
    SuppliedDashed(payloads);
    NoRanges(text, SuppliedRanges(payloads));
    NoDates(u, text, 0);
  }

  lemma NoYear(u: Unicode, text: string, m: Mention)
    requires Dateless(u, text) && m in Mentions(u, text)
    ensures !YearDash(u, text, m)
  {
    hide Matches, ParsedMentions;
    MentionBounds(u, text, Matches(u, text, 0));
    if |m.text| == 4 && DigitsAt(u, m.text, 0, 4) && m.end + 1 <= |text| {
      assert m.text[3] == text[m.end - 1];
      assert text[m.end..m.end + 1][0] == text[m.end];
    }
  }

  /** Where nothing is blanked the check is about each mention of the text as it stands. */
  lemma PlainVerdict(u: Unicode, text: string, payloads: seq<Record>)
    requires Dateless(u, text) && Dashless(text)
    ensures NumbersVerdict(u, text, payloads) == Pass <==>
      forall m | m in Mentions(u, text) :: Authorized(m.parsed, Authority(u, payloads), Approximated(u, text, m))
    ensures NumbersVerdict(u, text, payloads).Pass? || NumbersVerdict(u, text, payloads).Unsupported?
  {
    hide Dateless, Dashless, Protected, RangeContradicted, Mentions, Authority, Authorized, Approximated, YearDash;
    NothingBlanked(u, text, payloads);
    forall m | m in Mentions(u, text)
      ensures !YearDash(u, text, m)
    {
      NoYear(u, text, m);
    }
  }

  // ---------- a number at the end of a sentence ----------

  /** A beginning of a sentence that keeps out of the number that follows it. */
  predicate Introduces(u: Unicode, lead: string) {
    Quiet(u, lead) && '/' !in lead && Dashless(lead)
  }

  /** An approximating word in the last sixteen characters. */
  predicate Announced(u: Unicode, before: string) {
    ContainsAny(Lower(u, Slice(before, if |before| < 16 then 0 else |before| - 16, |before|)), APPROXIMATE_WORDS)
  }

  lemma AnnouncedBefore(u: Unicode, text: string, m: Mention)
    requires m.start <= |text|
    ensures Approximated(u, text, m) <==> Announced(u, text[..m.start])
  {
    hide ContainsAny, Lower;
    var from := if m.start < 16 then 0 else m.start - 16;
    assert text[..m.start][from..m.start] == text[from..m.start];
  }

  lemma BodyCharacters(u: Unicode, m: nat, e: Ending, trail: string)
    requires u.Valid() && Trails(u, e, trail)
    ensures var b := Hundredths(m) + TailOf(e, trail);
      && '/' !in b && '–' !in b
      && (forall k | 0 <= k < |b| && b[k] == '-' :: k > 0 && u.digit(b[k - 1]) < 0)
  {
    hide Hundredths, TailOf, Trails;
    var h, t := Hundredths(m), TailOf(e, trail);
    var b := h + t;
    HundredthsUnsigned(u, m);
    TailCharacters(u, e, trail);
    TailQuiet(u, e, trail);
    forall k | 0 <= k < |b| && b[k] == '-'
      ensures k > 0 && u.digit(b[k - 1]) < 0
    {
      assert k >= |h| by { assert forall j | 0 <= j < |h| :: b[j] == h[j] && h[j] in h; }
      assert b[k] == t[k - |h|] && b[k - 1] == t[k - |h| - 1];
    }
  }

  lemma {:induction false} GroupedUnsigned(n: nat)
    ensures '-' !in Grouped(n, '.')
  {
    if n < 1000 {
      NaturalDigits(n);
    } else {
      GroupedUnsigned(n / 1000);
      PaddedDigits(n % 1000, 3);
    }
  }

  lemma HundredthsUnsigned(u: Unicode, m: nat)
    requires u.Numerals()
    ensures var h := Hundredths(m); '-' !in h && '/' !in h && '–' !in h
  {
    hide Grouped, FractionText;
    GroupedUnsigned(m / 100);
    GroupedNumeric(m / 100);
    if m % 100 != 0 { FractionRead(u, m % 100); }
  }

  /** A hyphen in front of the number is no part of a date: the beginning of the sentence has no digits. */
  lemma NothingInside(u: Unicode, lead: string, negative: bool, body: string)
    requires u.Numerals() && Introduces(u, lead) && '/' !in body && '–' !in body
    requires forall k | 0 <= k < |body| && body[k] == '-' :: k > 0 && u.digit(body[k - 1]) < 0
    ensures var s := lead + (Sign(negative) + body); Dateless(u, s) && Dashless(s)
  {
    var s, n := lead + (Sign(negative) + body), |lead| + |Sign(negative)|;
    forall k | 0 < k < |s| && s[k] == '-'
      ensures u.digit(s[k - 1]) < 0
    {
      if k <= |lead| {
        assert s[k - 1] == lead[k - 1];
      } else {
        assert s[k] == body[k - n] && s[k - 1] == body[k - n - 1];
      }
    }
  }

  lemma PlainBody(u: Unicode, lead: string, negative: bool, m: nat, e: Ending, trail: string)
    requires u.Valid() && Introduces(u, lead) && Trails(u, e, trail)
    ensures var s := lead + (Sign(negative) + (Hundredths(m) + TailOf(e, trail))); Dateless(u, s) && Dashless(s)
  {
    hide Hundredths, TailOf, Introduces, Trails, Dateless, Dashless;
    BodyCharacters(u, m, e, trail);
    NothingInside(u, lead, negative, Hundredths(m) + TailOf(e, trail));
  }

  /**
   A sentence whose last number is a printed one passes exactly when what the scanner finds of the number is
   authorised: the number itself if it was printed as one token, otherwise its integer part and its decimals, each on
   its own.
   */
  lemma PrintedVerdict(u: Unicode, lead: string, m: nat, e: Ending, trail: string, payloads: seq<Record>)
    requires u.Valid() && u.Matching() && Introduces(u, lead) && Trails(u, e, trail)
    ensures var v, facts := NumbersVerdict(u, lead + (Hundredths(m) + TailOf(e, trail)), payloads), Authority(u, payloads);
      && (v == Pass || v == Unsupported)
      && (v == Pass <==>
            if OneToken(m) then Authorized(WholeMention(m, e), facts, Announced(u, lead))
            else
              && Authorized(Parsed((m / 100) as real, None, None), facts, Announced(u, lead))
              && Authorized(LeftOver(m % 100, e), facts, Announced(u, lead + (Grouped(m / 100, '.') + ","))))
  {
    hide Hundredths, TailOf, WordOf, Grouped, FractionText, Announced, Approximated, Authorized, Authority, NumbersVerdict;
    hide Mentions, WholeMention, LeftOver, OneToken, Dateless, Dashless, Quiet, Trails;
    var body := Hundredths(m) + TailOf(e, trail);
    var s := lead + body;
    PlainBody(u, lead, false, m, e, trail);
    assert Sign(false) + body == body;
    PlainVerdict(u, s, payloads);
    PrintedMentionsAre(u, lead, m, e, trail);
    var ms := PrintedAs(|lead|, m, e);
    assert s[..|lead|] == lead;
    AnnouncedBefore(u, s, ms[0]);
    assert ms[0] in ms;
    if !OneToken(m) {
      CutAt(lead, m, e, trail);
      AnnouncedBefore(u, s, ms[1]);
      assert ms == [ms[0], ms[1]] && ms[1] in ms;
    } else {
      assert ms == [ms[0]];
    }
  }

  lemma CutAt(lead: string, m: nat, e: Ending, trail: string)
    requires !OneToken(m)
    ensures var s, p := lead + (Hundredths(m) + TailOf(e, trail)), |lead| + |Grouped(m / 100, '.')| + 1;
      p <= |s| && s[..p] == lead + (Grouped(m / 100, '.') + ",")
  {
    hide Grouped, FractionText, TailOf;
    var s, g := lead + (Hundredths(m) + TailOf(e, trail)), Grouped(m / 100, '.');
    assert s == (lead + (g + ",")) + (FractionText(m % 100) + TailOf(e, trail));
  }

  // ---------- negative numbers ----------

  /**
   The same for a negative number: of one below 1000 only the decimals are judged, of a larger one the number after its
   first separator, with its decimals below a million, and otherwise its decimals on their own.
   */
  lemma NegativeVerdict(u: Unicode, lead: string, m: nat, e: Ending, trail: string, payloads: seq<Record>)
    requires u.Valid() && u.Matching() && Introduces(u, lead) && Trails(u, e, trail)
    ensures var v, facts := NumbersVerdict(u, lead + ("-" + (Hundredths(m) + TailOf(e, trail))), payloads), Authority(u, payloads);
      && (v == Pass || v == Unsupported)
      && (v == Pass <==>
            if m < 100000 then
              m % 100 == 0 || Authorized(LeftOver(m % 100, e), facts, Announced(u, lead + ("-" + (Grouped(m / 100, '.') + ","))))
            else
              var before := lead + ("-" + (Natural(TopBlock(m / 100)) + "."));
              if BelowWhole(m) then Authorized(BelowMention(m, e), facts, Announced(u, before))
              else
                && Authorized(Parsed(Below(m / 100) as real, None, None), facts, Announced(u, before))
                && Authorized(LeftOver(m % 100, e), facts, Announced(u, before + (BelowText(m / 100) + ","))))
  {
    hide Hundredths, TailOf, WordOf, Grouped, FractionText, Announced, Approximated, Authorized, Authority, NumbersVerdict;
    hide Mentions, LeftOver, Dateless, Dashless, Quiet, Trails, BelowMention, BelowWhole, BelowText, Below, TopBlock, Natural;
    hide BelowHundredths;
    var s := lead + ("-" + (Hundredths(m) + TailOf(e, trail)));
    PlainBody(u, lead, true, m, e, trail);
    PlainVerdict(u, s, payloads);
    NegativeMentionsAre(u, lead, m, e, trail);
    var ms := NegativeAs(|lead|, m, e);
    if m < 100000 {
      if m % 100 != 0 {
        NegativeCutAt(lead, m, e, trail);
        AnnouncedBefore(u, s, ms[0]);
        assert ms == [ms[0]] && ms[0] in ms;
      }
    } else {
      LargeCutAt(lead, m, e, trail);
      AnnouncedBefore(u, s, ms[0]);
      if BelowWhole(m) {
        assert ms == [ms[0]] && ms[0] in ms;
      } else {
        AnnouncedBefore(u, s, ms[1]);
        assert ms == [ms[0], ms[1]] && ms[0] in ms && ms[1] in ms;
      }
    }
  }

  lemma NegativeCutAt(lead: string, m: nat, e: Ending, trail: string)
    requires m % 100 != 0
    ensures var s, p := lead + ("-" + (Hundredths(m) + TailOf(e, trail))), |lead| + 1 + |Grouped(m / 100, '.')| + 1;
      p <= |s| && s[..p] == lead + ("-" + (Grouped(m / 100, '.') + ","))
  {
    hide Grouped, FractionText, TailOf;
    var s, g := lead + ("-" + (Hundredths(m) + TailOf(e, trail))), Grouped(m / 100, '.');
    assert s == (lead + ("-" + (g + ","))) + (FractionText(m % 100) + TailOf(e, trail));
  }

  lemma LargeCutAt(lead: string, m: nat, e: Ending, trail: string)
    requires m >= 100000
    ensures var s, before := lead + ("-" + (Hundredths(m) + TailOf(e, trail))), lead + ("-" + (Natural(TopBlock(m / 100)) + "."));
      && |before| == |lead| + 1 + |Natural(TopBlock(m / 100))| + 1 <= |s| && s[..|before|] == before
      && (!BelowWhole(m) ==>
            var k := |before| + |BelowText(m / 100)| + 1;
            k <= |s| && s[..k] == before + (BelowText(m / 100) + ","))
  {
    hide Hundredths, Natural, TopBlock, BelowText, BelowHundredths, FractionText, TailOf, BelowWhole;
    var n, tail := m / 100, TailOf(e, trail);
    var s, before := lead + ("-" + (Hundredths(m) + tail)), lead + ("-" + (Natural(TopBlock(n)) + "."));
    LargeText(lead, m, tail);
    assert s == before + (BelowHundredths(m) + tail);
    if !BelowWhole(m) {
      BelowCut(m, tail);
      assert s == (before + (BelowText(n) + ",")) + (FractionText(m % 100) + tail);
    }
  }

  // ---------- numbers that are no mention at all ----------

  const FABRICATED := "1.234,567"

  lemma FabricatedToken(u: Unicode)
    requires u.Numerals()
    ensures var s := FABRICATED; u.digit(s[0]) >= 0 && TokenEnd(u, s, 0) == 9
  {
    var s := FABRICATED;
    assert DigitRun(u, s, 0) == 1 by { DigitRunIs(u, s, 0, 1); }
    assert GroupsEnd(u, s, 9) == 9 && GroupsEnd(u, s, 5) == 9 && GroupsEnd(u, s, 1) == 9;
  }

  lemma MixedCounts(a: string, b: string, c: string)
    requires AsciiDigits(a) && AsciiDigits(b) && AsciiDigits(c)
    ensures var t := a + ['.'] + b + [','] + c; Count(t, '.') == 1 && Count(t, ',') == 1
  {
    CountAppend(a + ['.'] + b + [','], c, '.'); CountAppend(a + ['.'] + b, [','], '.');
    CountAppend(a + ['.'], b, '.'); CountAppend(a, ['.'], '.');
    CountAppend(a + ['.'] + b + [','], c, ','); CountAppend(a + ['.'] + b, [','], ',');
    CountAppend(a + ['.'], b, ','); CountAppend(a, ['.'], ',');
    Absent(a, '.'); Absent(b, '.'); Absent(c, '.'); Absent(a, ','); Absent(b, ','); Absent(c, ',');
    Absent([','], '.'); Absent(['.'], ',');
    assert Count(['.'], '.') == 1 && Count([','], ',') == 1;
  }

  /** A number with one point and one comma that no evidence knows passes the check against any evidence, none included. */
  lemma FabricatedPasses(u: Unicode, payloads: seq<Record>)
    requires u.Valid() && u.Matching()
    ensures NumbersVerdict(u, FABRICATED, payloads) == Pass
  {
    hide TokenEnd, Count, ParseMention, Authority, Authorized, Approximated;
    var s := FABRICATED;
    FabricatedToken(u);
    MixedCounts("1", "234", "567");
    assert "1" + ['.'] + "234" + [','] + "567" == s;
    MatchUnparsed(u, s, 0);
    assert s[0..9] == s;
    FabricatedMentions(u);
    assert Dateless(u, s) && Dashless(s);
    PlainVerdict(u, s, payloads);
  }

  lemma FabricatedMentions(u: Unicode)
    requires u.Valid() && u.Matching() && ParseMention(u, FABRICATED).None?
    requires u.digit(FABRICATED[0]) >= 0 && TokenEnd(u, FABRICATED, 0) == 9
    ensures Mentions(u, FABRICATED) == []
  {
    hide TokenEnd, ParseMention, MatchEnd;
    var s := FABRICATED;
    MarkTrails(u, Bare, "");
    EndingMatch(u, s, 0, 9, Bare, "");
    MatchesFirst(u, s, 0, 9);
    NothingFrom(u, s, 9);
    assert s[0..9] == s && [Span(0, 9)][1..] == [];
    assert ParsedMentions(u, s, [Span(0, 9)]) == [];
  }
}
