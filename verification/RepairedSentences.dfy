/** A number is repaired by a fact of its own kind only: an order of 12 kg corrects "10 kg" and leaves "60%" alone. */
module RepairedSentences {
  import opened Text
  import opened Records
  import opened Decimals
  import opened NumericAuthority
  import opened FieldAuthority
  import opened DisplayProofs
  import opened NumberCheck
  import opened Endings
  import opened PrintedMentions
  import opened PrintedVerdicts
  import opened RepairLaws
  import ContractFacts
  import MeasureSentences

  /** An ordered line without a cost, with the display that the contract gives it. */
  const ORDER: Record := [
    ("evidence_id", Str("e")), ("type", Str("PROCUREMENT_QUANTITY")), ("quantity", Num(12.0)), ("unit", Str("kg")),
    ("purchase_cost", Null), ("display_values", Dict([("quantity", Str("12"))])),
    ("allowed_numeric_mentions", List([Str("12")]))]

  lemma OrderLooks()
    ensures Get(ORDER, "unit") == Str("kg") && Get(ORDER, "type") == Str("PROCUREMENT_QUANTITY")
    ensures EffectiveValues(ORDER) == ORDER && AllowedMentions(ORDER) == ["12"]
    ensures ORDER[2] == ("quantity", Num(12.0)) && forall f | f in ORDER && f.1.Num? :: f == ORDER[2]
  {
    hide Get, ORDER;
    OrderKeyed();
    GetAt(ORDER, 1); GetAt(ORDER, 3); GetAt(ORDER, 6);
    GetAbsent(ORDER, "values");
    OneText("12");
  }

  lemma OrderKeyed()
    ensures Keyed(ORDER) && |ORDER| == 7 && !Has(ORDER, "values")
    ensures ORDER[1] == ("type", Str("PROCUREMENT_QUANTITY")) && ORDER[3] == ("unit", Str("kg"))
    ensures ORDER[6] == ("allowed_numeric_mentions", List([Str("12")]))
    ensures ORDER[2] == ("quantity", Num(12.0)) && forall f | f in ORDER && f.1.Num? :: f == ORDER[2]
  {}

  lemma OneText(t: string)
    ensures Strings([Str(t)]) == [t]
  {
    assert [Str(t)][1..] == [] && Strings([]) == [];
  }

  lemma QuantityIsKey(u: Unicode)
    requires u.Valid()
    ensures QuantityKey(u, "quantity") && !ShareKey(u, "quantity")
  {
    hide ContainsAny, Fold;
    var key := "quantity";
    ContractFacts.LettersFold(u, key);
    NoneContained(key, ["cost", "budget", "spend", "over", "remaining", "purchase"], "cbsorp");
    NoneContained(key, ["rate", "probability", "utilization", "pct", "percent"], "rplpp");
    NoneContained(key, ["day", "delay", "lead_time"], "ddl");
    assert |key| == 8 && |"scenario_count"| == 14 && |"warning_count"| == 13 && |"hard_violation_count"| == 20;
  }

  lemma TwelveReads(u: Unicode)
    requires u.Valid()
    ensures ParseMention(u, "12") == Some(Parsed(12.0, None, None))
  {
    hide ParseMention;
    assert Grouped(12, '.') == "12" by { assert Natural(12) == Natural(1) + [Digit(2)]; }
    ReadGrouped(u, 12);
  }

  ghost predicate IsTwelve(fact: Fact) {
    fact.kind == Quantity && fact.value == 12.0 && fact.unit == Some("kg")
  }

  /** What the display contributes. */
  function Shown(u: Unicode): Fact {
    Fact(12.0, Quantity, "legacy_display", EvidenceId(ORDER), Some("kg"), Some("12"), false)
  }

  lemma OrderUnit(u: Unicode)
    requires u.Valid()
    ensures ItemUnit(u, ORDER) == Some("kg")
  {
    hide Get, NormalizeUnit, EffectiveValues, ORDER;
    OrderLooks();
    MeasureSentences.UnitAlone(u, Kilograms);
  }

  lemma ShownIs(u: Unicode)
    requires u.Valid()
    ensures DisplayFact(u, ORDER, "12") == [Shown(u)]
  {
    hide Get, ParseMention, ItemUnit, EvidenceId, ORDER;
    OrderLooks();
    OrderUnit(u);
    TwelveReads(u);
  }

  /** Every fact of the order is 12 kg, and the last is its display. */
  lemma OrderFacts(u: Unicode)
    requires u.Valid()
    ensures var facts := Authority(u, [ORDER]);
      && facts != [] && facts[|facts| - 1] == Shown(u) && forall fact | fact in facts :: IsTwelve(fact)
  {
    hide Get, FieldFacts, FieldFact, DisplayFact, EffectiveValues, AllowedMentions, ItemUnit, EvidenceId, ORDER, ParseMention;
    hide Stated, FieldDisplay;
    OrderLooks();
    ShownIs(u);
    assert [ORDER][1..] == [] && ["12"][1..] == [];
    assert LegacyFacts(u, ORDER, ["12"]) == [Shown(u)] + LegacyFacts(u, ORDER, []) == [Shown(u)];
    assert Authority(u, [ORDER]) == FieldFacts(u, ORDER, ORDER) + [Shown(u)] + Authority(u, []);
    assert Authority(u, [ORDER]) == FieldFacts(u, ORDER, ORDER) + [Shown(u)];
    forall fact | fact in FieldFacts(u, ORDER, ORDER)
      ensures IsTwelve(fact)
    {
      FieldFactFrom(u, ORDER, ORDER, fact);
      var f :| f in ORDER && fact in FieldFact(u, ORDER, f);
      OrderField(u, f, fact);
    }
  }

  lemma OrderField(u: Unicode, f: (string, Value), fact: Fact)
    requires u.Valid() && f in ORDER && fact in FieldFact(u, ORDER, f)
    ensures IsTwelve(fact)
  {
    hide Get, ItemUnit, EvidenceId, ORDER, FieldFact, FieldDisplay, ContainsAny, Fold;
    OrderLooks();
    OrderUnit(u);
    QuantityIsKey(u);
    FieldFactIs(u, ORDER, f, fact);
  }

  // ---------- the sentences ----------

  lemma SixtyPercent()
    ensures Hundredths(6000) + TailOf(Percents, "") == "60%" && OneToken(6000) && KindOf(Percents) == Some(Percent)
  {
    WholeIsHundredths(60);
    assert Hundredths(6000) == Grouped(60, '.') == "60" by { assert Natural(60) == Natural(6) + [Digit(0)]; }
    assert "%" + ("" + "") == "%";
  }

  lemma TenKilograms()
    ensures Hundredths(1000) + TailOf(Kilograms, "") == "10 kg" && OneToken(1000)
    ensures WholeMention(1000, Kilograms) == Parsed(10.0, Some(Quantity), Some("kg"))
    ensures |Hundredths(1000) + WordOf(Kilograms)| == 5
  {
    WholeIsHundredths(10);
    assert Hundredths(1000) == Grouped(10, '.') == "10" by { assert Natural(10) == Natural(1) + [Digit(0)]; }
    assert " kg" + ("" + "") == " kg";
  }

  lemma LeadQuiet(u: Unicode, lead: string)
    requires Introduces(u, lead)
    ensures Quiet(u, lead)
  {}

  lemma NotTwelve(m: Parsed, fact: Fact, approximate: bool)
    requires IsTwelve(fact) && (m.kind == Some(Percent) || m.value == 10.0)
    ensures !EquivalentOrRounded(m, fact, approximate)
  {}

  /** A percentage has no fact of its kind to take its place: it is not repaired, and the number check refuses it. */
  lemma PercentStays(u: Unicode, lead: string)
    requires u.Valid() && u.Matching() && Introduces(u, lead)
    ensures Repaired(u, lead + "60%", [ORDER]) == None
    ensures NumbersVerdict(u, lead + "60%", [ORDER]) == Unsupported
  {
    hide Authority, Introduces, Announced, Trails, Hundredths, TailOf, ORDER, NumbersVerdict, EquivalentOrRounded, Repaired, Mentions;
    hide Quiet, IsTwelve;
    SixtyPercent();
    MarkTrails(u, Percents, "");
    OrderFacts(u);
    PrintedVerdict(u, lead, 6000, Percents, "", [ORDER]);
    LeadQuiet(u, lead);
    PrintedMentionsAre(u, lead, 6000, Percents, "");
    var p := WholeMention(6000, Percents);
    forall fact, approximate: bool | fact in Authority(u, [ORDER])
      ensures !EquivalentOrRounded(p, fact, approximate) && !Suits(p, fact)
    {
      NotTwelve(p, fact, approximate);
      OtherKind(fact);
    }
    assert Sole(Mentions(u, lead + "60%"), Authority(u, [ORDER]), 0);
    NothingSuits(u, lead + "60%", [ORDER], 0);
  }

  lemma OtherKind(fact: Fact)
    requires IsTwelve(fact)
    ensures fact.kind != Percent
  {}

  lemma TwelvesAgree(u: Unicode, context: string, m: Parsed)
    requires u.Valid() && m.kind == Some(Quantity) && m.unit == Some("kg")
    requires forall key :: !Pointed(context, key)
    ensures var facts := Authority(u, [ORDER]);
      Agreed(context, facts, m) && LastEligible(context, facts, m, |facts| - 1)
  {
    hide Authority, ORDER, Pointed;
    OrderFacts(u);
    var facts := Authority(u, [ORDER]);
    assert facts[|facts| - 1] in facts;
    assert forall f | f in facts :: IsTwelve(f) && Suits(m, f);
    assert Eligible(context, facts, m, facts[|facts| - 1]);
  }

  lemma RenderedTwelve(u: Unicode)
    requires u.Valid()
    ensures RenderFact(u, Shown(u)) == "12 kg"
  {
    assert u.digit('1') == 1 && u.digit('2') == 2;
    assert u.Classified('1') && u.Classified('2') by { assert u.word('1') || !u.word('1'); assert u.word('2') || !u.word('2'); }
    FoldIdentity(u, "12");
    AbsentLetter("12", "kg", 'k');
    assert "12" + " " + "kg" == "12 kg";
  }

  /** A wrong quantity is corrected to the ordered one, when the sentence has no hint to a key. */
  lemma QuantityCorrected(u: Unicode, lead: string)
    requires u.Valid() && u.Matching() && Introduces(u, lead)
    requires forall key :: !Pointed(Fold(u, lead + "10 kg"), key)
    ensures Repaired(u, lead + "10 kg", [ORDER]) == Some(lead + "12 kg")
    ensures NumbersVerdict(u, lead + "10 kg", [ORDER]) == Unsupported
  {
    hide Authority, Introduces, Announced, Trails, Hundredths, TailOf, WordOf, ORDER, NumbersVerdict, EquivalentOrRounded, Repaired;
    hide Quiet, IsTwelve, Mentions, Pointed, Fold, RenderFact, Agreed, LastEligible;
    var text, facts := lead + "10 kg", Authority(u, [ORDER]);
    TenKilograms();
    MarkTrails(u, Kilograms, "");
    OrderFacts(u);
    PrintedVerdict(u, lead, 1000, Kilograms, "", [ORDER]);
    LeadQuiet(u, lead);
    PrintedMentionsAre(u, lead, 1000, Kilograms, "");
    var p := WholeMention(1000, Kilograms);
    forall fact, approximate: bool | fact in facts
      ensures !EquivalentOrRounded(p, fact, approximate)
    {
      NotTwelve(p, fact, approximate);
    }
    assert Sole(Mentions(u, text), facts, 0);
    TwelvesAgree(u, Fold(u, text), p);
    RepairedIs(u, text, [ORDER], 0, |facts| - 1);
    RenderedTwelve(u);
    var m := Mentions(u, text)[0];
    assert m.start == |lead| && m.end == |text|;
    assert text[..m.start] == lead && text[m.end..] == "" && lead + "12 kg" + "" == lead + "12 kg";
  }
}
