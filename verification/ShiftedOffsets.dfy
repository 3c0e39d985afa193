/**
 Sentences in which a blanked date moves the lookups of the number check to the wrong place: a number that follows no
 approximating word gets its tolerance, and a number that is no year is let through as one.
 */
module ShiftedOffsets {
  import opened Text
  import opened Records
  import opened Decimals
  import opened NumericAuthority
  import opened FieldAuthority
  import opened NumericRoundTrip
  import opened DisplayProofs
  import opened NumberCheck
  import opened Endings
  import opened PrintedMentions
  import opened PrintedVerdicts
  import opened DisplayContract
  import opened ContractFacts
  import opened ShownNumbers
  import opened RefusedDisplays
  import opened ProtectedOffsets

  // ---------- a tolerance that belongs to another word ----------

  /** The number stands at position 19, in the protected text at 15. */
  const SENTENCE := "gần 01/02 thì tăng 98%"

  const LEAD := "gần   thì tăng "

  /** Characters that are their own lower case. */
  ghost predicate LowerCase(u: Unicode, s: string) {
    forall k | 0 <= k < |s| :: u.lower(s[k]) == [s[k]]
  }

  lemma {:induction false} LowerIdentity(u: Unicode, s: string)
    requires LowerCase(u, s)
    ensures Lower(u, s) == s
  {
    if s != "" {
      LowerIdentity(u, s[1..]);
      assert s == [s[0]] + s[1..];
    }
  }

  /** Letters of the unit words, and blanks. */
  predicate Wordlike(s: string) {
    forall k | 0 <= k < |s| :: UnitLetter(s[k]) || s[k] == ' '
  }

  lemma WordlikeQuiet(u: Unicode, s: string)
    requires u.Valid() && u.Matching() && Wordlike(s)
    ensures forall k | 0 <= k < |s| :: u.digit(s[k]) < 0
  {
    forall k | 0 <= k < |s|
      ensures u.digit(s[k]) < 0
    {
      assert u.Caseless(s[k], s[k]) by { assert u.alike(s[k], s[k]) || !u.alike(s[k], s[k]); }
    }
  }

  lemma Parts()
    ensures SENTENCE == "gần " + ("01/02" + (" thì tăng " + "98%"))
    ensures LEAD == "gần " + " " + " thì tăng "
    ensures Wordlike("gần ") && Wordlike(" thì tăng ") && Wordlike(LEAD)
    ensures '–' !in SENTENCE
  {}

  lemma Pieces(s: string, a: string, d: string, b: string, n: string)
    requires s == a + (d + (b + n)) && |a| == 4 && |d| == 5 && |b| == 10 && |n| == 3
    ensures |s| == 22 && s[..4] == a && s[4..9] == d && s[9..19] == b && s[19..] == n
    ensures (forall k | 0 <= k < 4 :: s[k] == a[k]) && (forall k | 9 <= k < 19 :: s[k] == b[k - 9])
    ensures (forall k | 4 <= k < 9 :: s[k] == d[k - 4]) && forall k | 19 <= k < 22 :: s[k] == n[k - 19]
  {}

  lemma NumberUndated(u: Unicode, s: string)
    requires u.Valid() && |s| == 22 && s[19..] == "98%" && (forall k | 19 <= k < 22 :: s[k] == "98%"[k - 19])
    ensures BlankDates(u, s, 19) == "98%"
  {
    assert u.Classified('9') && u.Classified('8') by { assert u.word('9') || !u.word('9'); assert u.word('8') || !u.word('8'); }
    assert s[19] == '9' && s[20] == '8' && s[21] == '%';
    assert s[20..21] == "8" && s[21..22] == "%";
    assert DateEnd(u, s, 19).None?;
    assert DateEnd(u, s, 20).None?;
    NoDateWithoutDigit(u, s, 21);
    DatesAfter(u, s, 19, 22);
    assert BlankDates(u, s, 22) == "" && s[19..22] == s[19..];
  }

  lemma LettersUndated(u: Unicode, s: string, w: string, i: nat)
    requires u.Valid() && u.Matching() && Wordlike(w) && i + |w| <= |s| && forall k | i <= k < i + |w| :: s[k] == w[k - i]
    ensures BlankDates(u, s, i) == s[i..i + |w|] + BlankDates(u, s, i + |w|)
  {
    hide DateEnd, BlankDates, Wordlike;
    WordlikeQuiet(u, w);
    forall k | i <= k < i + |w|
      ensures DateEnd(u, s, k).None?
    {
      NoDateWithoutDigit(u, s, k);
    }
    DatesAfter(u, s, i, i + |w|);
  }

  /** The date is blanked, which moves the number four positions to the left. */
  lemma Blanked(u: Unicode)
    requires u.Valid() && u.Matching()
    ensures BlankDates(u, SENTENCE, 0) == LEAD + "98%"
  {
    hide DateEnd, BlankDates, Wordlike, SENTENCE, LEAD;
    var s, a, b := SENTENCE, "gần ", " thì tăng ";
    Parts();
    Pieces(s, a, "01/02", b, "98%");
    LettersUndated(u, s, a, 0);
    LettersUndated(u, s, b, 9);
    TheDate(u, s);
    NumberUndated(u, s);
    BlankOne(u, s, 4, 9);
    Together(s[0..4], s[9..19]);
  }

  lemma Together(a: string, b: string)
    requires a == "gần " && b == " thì tăng "
    ensures a + (" " + (b + "98%")) == LEAD + "98%"
  {}

  lemma TheDate(u: Unicode, s: string)
    requires u.Valid() && |s| == 22 && s[4..9] == "01/02" && s[3] == ' ' && s[9] == ' '
    ensures DateEnd(u, s, 4) == Some(9)
  {
    hide DateEnd;
    assert u.Classified(' ') by { assert u.word(' ') || !u.word(' '); }
    var d := s[4..9];
    assert s[4..6] == d[..2] && s[7..9] == d[3..] && s[6] == d[2];
    assert d[..2] == "01" && d[3..] == "02" && d[2] == '/';
    DayMatched(u, s, 4);
  }

  lemma PercentMention(u: Unicode)
    requires u.Valid() && u.Matching()
    ensures Mentions(u, LEAD + "98%") == [Mention(Parsed(98.0, Some(Percent), None), "98%", 15, 18)]
  {
    hide Mentions, Wordlike, Grouped;
    Parts();
    WordlikeQuiet(u, LEAD);
    assert u.Classified(' ') by { assert u.word(' ') || !u.word(' '); }
    assert Quiet(u, LEAD);
    NinetyEight();
    MarkTrails(u, Percents, "");
    PrintedMentionsAre(u, LEAD, 9800, Percents, "");
    assert Hundredths(9800) + TailOf(Percents, "") == "98%" && Hundredths(9800) + WordOf(Percents) == "98%";
  }

  lemma NinetyEight()
    ensures Hundredths(9800) == "98" && Seen(9800) == 98.0
  {
    assert Natural(98) == Natural(9) + [Digit(8)] == "98";
    WholeIsHundredths(98);
  }

  lemma WordsAbsent(w: string)
    requires w == " 01/02 thì tăng "
    ensures !ContainsAny(w, APPROXIMATE_WORDS)
  {
    hide Contains;
    AbsentLetter(w, "khoảng", 'k');
    AbsentLetter(w, "xấp xỉ", 'x');
    AbsentLetter(w, "gần", 'ầ');
    AbsentLetter(w, "approximately", 'a');
    AbsentLetter(w, "about", 'a');
    AbsentLetter(w, "around", 'a');
    assert |APPROXIMATE_WORDS| == 6;
  }

  lemma WindowOf(u: Unicode)
    requires LowerCase(u, SENTENCE)
    ensures ContainsAny(Lower(u, SENTENCE[0..15]), APPROXIMATE_WORDS)
    ensures !ContainsAny(Lower(u, SENTENCE[3..19]), APPROXIMATE_WORDS)
  {
    hide ContainsAny, Lower;
    var s := SENTENCE;
    LowerIdentity(u, s[0..15]);
    LowerIdentity(u, s[3..19]);
    assert s[3..19] == " 01/02 thì tăng ";
    WordsAbsent(s[3..19]);
    assert s[0..15][0..3] == "gần";
    FoundAt(s[0..15], 0, 2);
  }

  lemma FoundAt(s: string, i: nat, w: nat)
    requires w < |APPROXIMATE_WORDS| && At(s, i, APPROXIMATE_WORDS[w])
    ensures ContainsAny(s, APPROXIMATE_WORDS)
  {
    assert APPROXIMATE_WORDS[w] in APPROXIMATE_WORDS && Contains(s, APPROXIMATE_WORDS[w]);
  }

  /**
   "gần 01/02 thì tăng 98%" passes against every evidence with an approximable 98.6 percent: "gần" stands before the
   date and not in the sixteen characters before the number, and where 98 percent is not authorised strictly it is not
   authorised at its own place.
   */
  lemma ToleranceMisplaced(u: Unicode, payloads: seq<Record>)
    requires u.Valid() && u.Matching() && LowerCase(u, SENTENCE)
    requires exists f :: f in Authority(u, payloads) && f.kind == Percent && f.value == 98.6 && f.approximate
    ensures SENTENCE[19..] == "98%" && !ContainsAny(Lower(u, SENTENCE[3..19]), APPROXIMATE_WORDS)
    ensures NumbersVerdict(u, SENTENCE, payloads) == Pass
  {
    hide Mentions, Authority, ContainsAny, Lower, SuppliedRanges, BlankDates, BlankRanges;
    var s := SENTENCE;
    var m := Mention(Parsed(98.0, Some(Percent), None), "98%", 15, 18);
    Parts();
    SuppliedDashed(payloads);
    NoRanges(s, SuppliedRanges(payloads));
    Blanked(u);
    PercentMention(u);
    WindowOf(u);
    assert Approximated(u, s, m);
    var fact :| fact in Authority(u, payloads) && fact.kind == Percent && fact.value == 98.6 && fact.approximate;
    assert EquivalentOrRounded(m.parsed, fact, true);
    assert MentionPasses(u, s, Authority(u, payloads), m);
  }

  // ---------- the evidence of a fill rate ----------

  /** An ingredient of which 986 of 1000 kg are fulfilled. */
  const RISK: Record := RISK_HEAD + RISK_TAIL

  const RISK_HEAD: Record := [
    ("evidence_id", Str("e")), ("evidence_ids", List([Str("e")])), ("type", Str("INGREDIENT_OPERATIONAL_RISK")),
    ("classification", Str("RISK_SIGNAL")), ("ingredient_id", Str("i")), ("ingredient_name", Null), ("unit", Str("kg")),
    ("basis_scenario_id", Null)]

  const RISK_TAIL: Record := [
    ("basis_scenario_name", Null), ("basis_kind", Null), ("demand_quantity", Num(1000.0)),
    ("fulfilled_quantity", Num(986.0)), ("fill_rate", Num(0.986)), ("shortage_quantity", Num(14.0)),
    ("first_stockout_date", Null), ("stockout_event_count", Num(1.0))]

  function RankOf(key: string): int {
    if |key| == 4 then (if key[0] == 't' then 2 else 6)
    else if |key| == 9 then 12
    else if |key| == 10 then 9
    else if |key| == 11 then 0
    else if |key| == 12 then 1
    else if |key| == 13 then 4
    else if |key| == 14 then 3
    else if |key| == 15 then (if key[0] == 'i' then 5 else 10)
    else if |key| == 17 then (if key[0] == 'b' then 7 else 13)
    else if |key| == 18 then 11
    else if |key| == 19 then (if key[0] == 'b' then 8 else 14)
    else if |key| == 20 then 15
    else -1
  }

  lemma RiskRanks(i: nat)
    requires i < 16
    ensures |RISK| == 16 && RankOf(RISK[i].0) == i
  {
    assert RankOf("evidence_id") == 0 && RankOf("evidence_ids") == 1 && RankOf("type") == 2 && RankOf("classification") == 3;
    assert RankOf("ingredient_id") == 4 && RankOf("ingredient_name") == 5 && RankOf("unit") == 6;
    assert RankOf("basis_scenario_id") == 7 && RankOf("basis_scenario_name") == 8 && RankOf("basis_kind") == 9;
    assert RankOf("demand_quantity") == 10 && RankOf("fulfilled_quantity") == 11 && RankOf("fill_rate") == 12;
    assert RankOf("shortage_quantity") == 13 && RankOf("first_stockout_date") == 14 && RankOf("stockout_event_count") == 15;
  }

  lemma RiskKeyed()
    ensures Keyed(RISK)
  {
    hide RankOf, RISK;
    RiskRanks(0);
    forall i, j | 0 <= i < j < |RISK|
      ensures RISK[i].0 != RISK[j].0
    {
      RiskRanks(i);
      RiskRanks(j);
    }
  }

  /** The numbers of the record. */
  predicate RiskNumber(f: (string, Value)) {
    || f == ("demand_quantity", Num(1000.0)) || f == ("fulfilled_quantity", Num(986.0)) || f == ("fill_rate", Num(0.986))
    || f == ("shortage_quantity", Num(14.0)) || f == ("stockout_event_count", Num(1.0))
  }

  predicate FreeKey(key: string) {
    !ContractKey(key) && key != "values" && key !in COST_KEYS && key != "budget_utilization_pct"
  }

  lemma FreeKeysFirst()
    ensures FreeKey("evidence_id") && FreeKey("evidence_ids") && FreeKey("type") && FreeKey("classification")
    ensures FreeKey("ingredient_id") && FreeKey("ingredient_name") && FreeKey("unit") && FreeKey("basis_scenario_id")
  {}

  lemma FreeKeysNext()
    ensures FreeKey("basis_scenario_name") && FreeKey("basis_kind") && FreeKey("demand_quantity") && FreeKey("fulfilled_quantity")
    ensures FreeKey("fill_rate") && FreeKey("shortage_quantity") && FreeKey("first_stockout_date")
    ensures FreeKey("stockout_event_count")
  {}

  lemma HeadFields()
    ensures forall f | f in RISK_HEAD :: FreeKey(f.0) && !f.1.Num?
  {
    hide FreeKey;
    FreeKeysFirst();
  }

  lemma TailFields()
    ensures forall f | f in RISK_TAIL :: FreeKey(f.0) && (f.1.Num? ==> RiskNumber(f))
  {
    hide FreeKey;
    FreeKeysNext();
  }

  lemma RiskDates()
    ensures forall f | f in RISK :: !IsDate(f)
  {
    assert |"INGREDIENT_OPERATIONAL_RISK"| == 27 && |"RISK_SIGNAL"| == 11;
  }

  lemma RiskAt()
    ensures |RISK| == 16 && RISK[2] == ("type", Str("INGREDIENT_OPERATIONAL_RISK")) && RISK[6] == ("unit", Str("kg"))
    ensures RISK[12] == ("fill_rate", Num(0.986))
  {}

  lemma RiskIs()
    ensures OnlyQuantities(RISK) && Get(RISK, "unit") == Str("kg") && ("fill_rate", Num(0.986)) in RISK
    ensures forall f | f in RISK && f.1.Num? :: RiskNumber(f)
  {
    hide Get, Keyed, RISK_HEAD, RISK_TAIL, IsDate, RiskNumber;
    RiskKeyed();
    HeadFields();
    TailFields();
    RiskDates();
    RiskAt();
    GetAt(RISK, 2);
    GetAt(RISK, 6);
    if Has(RISK, "values") { assert false; } else { GetAbsent(RISK, "values"); }
    assert RISK[12] in RISK;
  }

  lemma WholeOrRate(f: (string, Value))
    requires RiskNumber(f)
    ensures f.1.Num? && !ValueOf(f, 2, 98.0)
  {
    hide Units, Seen;
    WholeUnits(1000, 1000.0);
    WholeUnits(986, 986.0);
    WholeUnits(14, 14.0);
    WholeUnits(1, 1.0);
    FillRateUnits();
    RateNames();
  }

  lemma RateNames()
    ensures "demand_quantity" !in RATE_KEYS && "fulfilled_quantity" !in RATE_KEYS && "shortage_quantity" !in RATE_KEYS
    ensures "stockout_event_count" !in RATE_KEYS
  {}

  lemma FillRateUnits()
    ensures Units(0.986, 2) == 99 && Seen(99) == 0.99 && Units(0.986 * 100.0, 2) == 9860 && Seen(9860) == 98.6
  {
    Thousand();
    assert HalfUp(0.986, 2) == 99;
    assert 0.986 * 100.0 == 98.6 && HalfUp(98.6, 2) == 9860;
  }

  lemma RateIsPercent(u: Unicode, w: Record)
    requires u.Valid()
    ensures exists f :: f in FieldFact(u, w, ("fill_rate", Num(0.986))) && f.kind == Percent && f.value == 98.6 && f.approximate
  {
    hide ItemUnit, EvidenceId, FieldDisplay, ContainsAny, Contains;
    RateLetters();
    NotMoney(u, "fill_rate", 's', 'v');
    SpellingLower("fill_rate", 's', 'v');
    KeyFold(u, "fill_rate");
    AbsentLetter("fill_rate", "pct", 'p');
    AbsentLetter("fill_rate", "percentage_point", 'p');
    RateInside();
    var fact := Fact(98.6, Percent, "fill_rate", EvidenceId(w), None, FieldDisplay(w, "fill_rate"), true);
    assert FieldFact(u, w, ("fill_rate", Num(0.986))) == [fact];
  }

  lemma RateLetters()
    ensures Spelling("fill_rate", 's', 'v') && 'p' !in "fill_rate"
  {}

  lemma RateInside()
    ensures ContainsAny("fill_rate", PERCENT_KEYS)
  {
    var s := "fill_rate";
    assert s[5..9] == "rate";
    assert At(s, 5, "rate") && Contains(s, "rate") && PERCENT_KEYS[0] == "rate";
  }

  /** The record of this ingredient is such evidence, and does not authorise 98 percent without an approximating word. */
  lemma RiskIsEvidence(u: Unicode, discrete: Value -> bool, o: seq<string>)
    requires u.Valid() && IsRateOrder(o) && !discrete(Str("kg"))
    ensures var facts := Authority(u, [Contract(RISK, discrete, o)]);
      && (exists f :: f in facts && f.kind == Percent && f.value == 98.6 && f.approximate)
      && !Authorized(Parsed(98.0, Some(Percent), None), facts, false)
  {
    hide Contract, ItemFacts, OnlyQuantities, IsRateOrder, Get, RISK, FieldFact, ValueOf, RiskNumber;
    var w := Contract(RISK, discrete, o);
    RiskIs();
    OnlyItem(u, w);
    RiskRate(u, discrete, o);
    forall fact | fact in ItemFacts(u, w)
      ensures !EquivalentOrRounded(Parsed(98.0, Some(Percent), None), fact, false)
    {
      FactValue(u, RISK, discrete, o, fact);
      var f :| f in RISK && f.1.Num? && ValueOf(f, 2, fact.value);
      WholeOrRate(f);
    }
  }

  lemma RiskRate(u: Unicode, discrete: Value -> bool, o: seq<string>)
    requires u.Valid() && OnlyQuantities(RISK) && ("fill_rate", Num(0.986)) in RISK
    ensures exists f :: f in ItemFacts(u, Contract(RISK, discrete, o)) && f.kind == Percent && f.value == 98.6 && f.approximate
  {
    hide Contract, FieldFacts, LegacyFacts, FieldFact, EffectiveValues, Flat, RISK, Get;
    var w := Contract(RISK, discrete, o);
    FlatBasics(RISK);
    ContractFields(RISK, discrete, o);
    NumberStays(RISK, discrete, o, "fill_rate", 0.986);
    RateIsPercent(u, w);
    var fact :| fact in FieldFact(u, w, ("fill_rate", Num(0.986))) && fact.kind == Percent && fact.value == 98.6 && fact.approximate;
    FieldFactIn(u, w, w, ("fill_rate", Num(0.986)), fact);
  }

  // ---------- a number that passes as a year ----------

  /** The number stands at position 12, in the protected text at 3; position 7 of the sentence is a hyphen of the date. */
  const DATED := "2024-01-05, 4321"

  lemma DatedDigits(u: Unicode)
    requires u.Valid()
    ensures forall k | 0 <= k < 16 :: u.digit(DATED[k]) >= 0 <==> k != 4 && k != 7 && k != 10 && k != 11
    ensures forall k | 0 <= k < 16 :: u.word(DATED[k]) <==> k != 4 && k != 7 && k != 10 && k != 11
  {
    hide DATED;
    DatedText();
    forall k | 0 <= k < 16
      ensures u.digit(DATED[k]) >= 0 <==> k != 4 && k != 7 && k != 10 && k != 11
      ensures u.word(DATED[k]) <==> k != 4 && k != 7 && k != 10 && k != 11
    {
      assert u.Classified(DATED[k]) by { assert u.word(DATED[k]) || !u.word(DATED[k]); }
    }
  }

  lemma DatedText()
    ensures |DATED| == 16 && DATED[4] == DATED[7] == '-' && DATED[10] == ',' && DATED[11] == ' '
    ensures forall k | 0 <= k < 16 && k != 4 && k != 7 && k != 10 && k != 11 :: '0' <= DATED[k] <= '9'
    ensures DATED[10..] == ", 4321" && DATED[10..12] == ", " && DATED[12..] == "4321"
  {}

  lemma DatedDates(u: Unicode)
    requires u.Valid()
    ensures BlankDates(u, DATED, 0) == " , 4321"
  {
    hide DATED, DateEnd, BlankDates;
    var s := DATED;
    DatedText();
    DatedDigits(u);
    IsoDate(u, s);
    BlankOne(u, s, 0, 10);
    forall k | 10 <= k < 16
      ensures DateEnd(u, s, k).None?
    {
      NoSecondDate(u, s, k);
    }
    DatesAfter(u, s, 10, 16);
    assert s[10..16] == ", 4321";
    NothingToBlank(u, s);
  }

  lemma NothingToBlank(u: Unicode, s: string)
    ensures BlankDates(u, s, |s|) == ""
  {}

  lemma IsoDate(u: Unicode, s: string)
    requires |s| == 16 && s[4] == s[7] == '-'
    requires forall k | 0 <= k < 16 :: u.digit(s[k]) >= 0 <==> k != 4 && k != 7 && k != 10 && k != 11
    requires forall k | 0 <= k < 16 :: u.word(s[k]) <==> k != 4 && k != 7 && k != 10 && k != 11
    ensures DateEnd(u, s, 0) == Some(10)
  {
    assert s[4..5] == [s[4]] && s[7..8] == [s[7]];
  }

  lemma NoSecondDate(u: Unicode, s: string, k: nat)
    requires |s| == 16 && 10 <= k < 16 && (forall j | 12 <= j < 16 :: '0' <= s[j] <= '9') && u.digit(s[10]) < 0 && u.digit(s[11]) < 0
    ensures DateEnd(u, s, k).None?
  {
    assert k + 3 <= 16 ==> s[k + 2..k + 3] == [s[k + 2]];
    assert k + 2 <= 16 ==> s[k + 1..k + 2] == [s[k + 1]];
  }

  lemma OneRun(u: Unicode, s: string)
    requires u.Valid() && u.Matching() && s == " , 4321"
    ensures Matches(u, s, 0) == [Span(3, 7)]
  {
    hide Trails;
    assert u.Classified(' ') && u.Classified(',') by { assert u.word(' ') || !u.word(' '); assert u.word(',') || !u.word(','); }
    assert s[0] == ' ' && s[1] == ',' && s[2] == ' ' && s[3] == '4' && s[4] == '3' && s[5] == '2' && s[6] == '1';
    DigitRunIs(u, s, 3, 4);
    assert TokenEnd(u, s, 3) == 7;
    MarkTrails(u, Bare, "");
    EndingMatch(u, s, 3, 7, Bare, "");
    SkipTo(u, s, 0, 3);
    MatchesFirst(u, s, 3, 7);
    NothingFrom(u, s, 7);
  }

  lemma {:induction false} MentionsOfOne(u: Unicode, s: string, a: Span)
    requires a.start < a.end <= |s|
    ensures forall m | m in ParsedMentions(u, s, [a]) :: m.text == s[a.start..a.end] && m.start == a.start && m.end == a.end
  {
    hide ParseMention;
    assert [a][1..] == [];
  }

  /**
   A number two characters after an ISO date passes against any evidence, none included: the hyphen that makes it a year
   is looked up nine characters too early and found inside the date. No hyphen follows the number.
   */
  lemma YearMisplaced(u: Unicode, payloads: seq<Record>)
    requires u.Valid() && u.Matching()
    ensures DATED[12..] == "4321" && NumbersVerdict(u, DATED, payloads) == Pass
  {
    hide SuppliedRanges, Matches, ParsedMentions, Authority, Authorized, ContainsAny, BlankRanges, BlankDates, Approximated;
    var s, p := DATED, " , 4321";
    DatedText();
    assert '–' !in s;
    SuppliedDashed(payloads);
    NoRanges(s, SuppliedRanges(payloads));
    DatedDates(u);
    OneRun(u, p);
    MentionsOfOne(u, p, Span(3, 7));
    DatedDigits(u);
    assert p[3..7] == "4321" == s[12..];
    forall m | m in Mentions(u, p)
      ensures YearDash(u, s, m)
    {
      assert s[7..8] == "-";
      assert forall k | 0 <= k < 4 :: m.text[k] == s[12 + k];
    }
  }
}
