/** A sentence about one ingredient is not checked against another ingredient's evidence, whatever numbers that has. */
module ScopedSentences {
  import opened Text
  import opened Records
  import opened Ordering
  import opened Decimals
  import opened NumericAuthority
  import opened FieldAuthority
  import opened DisplayProofs
  import opened NumberCheck
  import Narrative
  import opened Endings
  import opened PrintedMentions
  import opened PrintedVerdicts
  import opened ScopeLaws
  import ContractFacts
  import MeasureSentences

  /** The demand for one ingredient over the horizon. */
  function Demand(id: string, p50: real): Record {
    [("evidence_id", Str(id)), ("type", Str("DEMAND_HORIZON_SUMMARY")), ("classification", Str("OBSERVATION")),
     ("ingredient_id", Str(id)), ("unit", Str("kg")), ("p50_total", Num(p50))]
  }

  const LEAD := "Bột mì cần "

  function FlourQuestion(u: Unicode, policy: Narrative.Policy): Question {
    Question(u, policy, LEAD + "12 kg", [Demand("flour", 10.0), Demand("sugar", 12.0)], [Narrative.Named("flour", "Bột mì")], "")
  }

  lemma DemandLooks(id: string, p50: real)
    ensures var r := Demand(id, p50);
      && Get(r, "type") == Str("DEMAND_HORIZON_SUMMARY") && Get(r, "classification") == Str("OBSERVATION")
      && Get(r, "ingredient_id") == Str(id) && Get(r, "unit") == Str("kg") && EffectiveValues(r) == r
      && AllowedMentions(r) == []
  {
    hide Get, Demand;
    var r := Demand(id, p50);
    DemandKeyed(id, p50);
    GetAt(r, 1); GetAt(r, 2); GetAt(r, 3); GetAt(r, 4);
    GetAbsent(r, "values");
    GetAbsent(r, "allowed_numeric_mentions");
  }

  lemma DemandKeyed(id: string, p50: real)
    ensures var r := Demand(id, p50);
      && Keyed(r) && |r| == 6 && !Has(r, "values") && !Has(r, "allowed_numeric_mentions")
      && r[1] == ("type", Str("DEMAND_HORIZON_SUMMARY")) && r[2] == ("classification", Str("OBSERVATION"))
      && r[3] == ("ingredient_id", Str(id)) && r[4] == ("unit", Str("kg")) && r[5] == ("p50_total", Num(p50))
      && forall f | f in r && f.1.Num? :: f == r[5]
  {}

  lemma DemandIsPlain(policy: Narrative.Policy, text: string, lowered: string, said: string, mentioned: set<string>, id: string,
      p50: real)
    ensures var r := Demand(id, p50);
      && !IsCausal(r) && !Answers(policy, text, lowered, r) && !IsRisk(r) && ComparesOnly(policy, r, mentioned)
  {
    hide Get, Demand, Contains;
    DemandLooks(id, p50);
    assert |"DEMAND_HORIZON_SUMMARY"| == 22 && |"OBSERVATION"| == 11;
  }

  lemma FlourNamed(u: Unicode, policy: Narrative.Policy)
    ensures var q := FlourQuestion(u, policy);
      AboutNamed(q, Demand("flour", 10.0)) && !AboutNamed(q, Demand("sugar", 12.0))
  {
    hide Get, Demand, Fold;
    var q := FlourQuestion(u, policy);
    DemandLooks("flour", 10.0);
    DemandLooks("sugar", 12.0);
    var rest := " cần 12 kg";
    assert LEAD + "12 kg" == "Bột mì" + rest;
    FoldAppend(u, "Bột mì", rest);
    var lowered := Fold(u, q.text);
    assert At(lowered, 0, Fold(u, "Bột mì"));
    assert q.rows[0] in q.rows && Named(u, lowered, q.rows, "", "flour");
    assert |"sugar"| == 5 && "sugar"[0] == 's' && "flour"[0] == 'f';
    assert forall r | r in q.rows :: r == q.rows[0];
  }

  /**
   "Bột mì cần 12 kg" against the demand for flour, 10 kg, and for sugar, 12 kg: the sentence is scoped to flour, although
   only the other item has its number.
   */
  lemma FlourOnly(u: Unicode, policy: Narrative.Policy)
    ensures Scoped(FlourQuestion(u, policy)) == [Demand("flour", 10.0)]
    ensures var q := FlourQuestion(u, policy);
      forall x :: AfterPair(q, x) <==> x in q.structured
  {
    hide Demand, Scoped, Answers, IsRisk, IsCausal, ComparesOnly, RiskSaid, AboutNamed, BacksNumber, Fold, Narrative.PlainD;
    var q := FlourQuestion(u, policy);
    var flour, sugar := Demand("flour", 10.0), Demand("sugar", 12.0);
    var said, mentioned := Narrative.PlainD(policy.normalise(q.text)), policy.strategies(q.text);
    DemandIsPlain(policy, q.text, Fold(u, q.text), said, mentioned, "flour", 10.0);
    DemandIsPlain(policy, q.text, Fold(u, q.text), said, mentioned, "sugar", 12.0);
    FlourNamed(u, policy);
    assert forall x | x in q.structured :: x == flour || x == sugar;
    assert forall x :: AfterCause(q, x) <==> x in q.structured;
    assert forall x :: AfterType(q, x) <==> x in q.structured;
    assert forall x :: AfterRisk(q, x) <==> x in q.structured;
    assert forall x :: AfterPair(q, x) <==> x in q.structured;
    assert flour in q.structured;
    assert forall x :: AfterEntity(q, x) <==> x == flour;
    assert forall x :: InScope(q, x) <==> x == flour;
    ScopeIs(q);
    DifferentItems();
    FirstOfTwo(flour, sugar, (x: Record) => InScope(q, x));
  }

  lemma DifferentItems()
    ensures Demand("flour", 10.0) != Demand("sugar", 12.0)
  {
    hide Demand;
    DemandKeyed("flour", 10.0);
    DemandKeyed("sugar", 12.0);
  }

  lemma FirstOfTwo(a: Record, b: Record, keep: Record -> bool)
    requires keep(a) && !keep(b)
    ensures Filter([a, b], keep) == [a]
  {
    assert [a, b][1..] == [b] && [b][1..] == [];
    assert Filter([b], keep) == [];
  }

  // ---------- what the number check then says ----------

  lemma TotalFolds(u: Unicode)
    requires u.Valid()
    ensures Fold(u, "p50_total") == "p50_total"
  {
    assert "p50_total" == "p50" + "_total" && ContractFacts.LowerKey("_total");
    ContractFacts.KeyFold(u, "_total");
    assert u.digit('0') == 0 && u.digit('5') == 5;
    assert u.Classified('p') && u.Classified('5') && u.Classified('0') by {
      assert u.word('p') || !u.word('p'); assert u.word('5') || !u.word('5'); assert u.word('0') || !u.word('0');
    }
    FoldIdentity(u, "p50");
    FoldAppend(u, "p50", "_total");
  }

  lemma TotalKey(u: Unicode)
    requires u.Valid()
    ensures QuantityKey(u, "p50_total")
  {
    hide ContainsAny, Fold;
    var key := "p50_total";
    TotalFolds(u);
    NoneContained(key, ["cost", "budget", "spend", "over", "remaining", "purchase"], "cbsvru");
    NoneContained(key, ["rate", "probability", "utilization", "pct", "percent"], "rrucr");
    NoneContained(key, ["day", "delay", "lead_time"], "ddd");
    assert |key| == 9 && |"scenario_count"| == 14 && |"warning_count"| == 13 && |"hard_violation_count"| == 20;
  }

  lemma DemandBacks(u: Unicode, id: string, p50: real, approximate: bool)
    requires u.Valid()
    ensures Authorized(Parsed(12.0, Some(Quantity), Some("kg")), Authority(u, [Demand(id, p50)]), approximate) <==> p50 == 12.0
  {
    hide Get, Demand, Authority, Authorized, QuantityKey, MoneyKey, ShareKey, NormalizeUnit, EffectiveValues, AllowedMentions;
    var r := Demand(id, p50);
    DemandLooks(id, p50);
    DemandKeyed(id, p50);
    TotalKey(u);
    KeyIsNoShare(u);
    MeasureSentences.UnitAlone(u, Kilograms);
    QuantityIff(u, [r], 12.0, "kg", approximate);
    assert ItemUnit(u, r) == Some("kg");
    if p50 == 12.0 {
      var f := r[5];
      assert f in EffectiveValues(r) && Speaks(u, r, f, Quantity) && Stated(u, f) == Some(12.0);
      assert r in [r];
    }
  }

  lemma KeyIsNoShare(u: Unicode)
    requires QuantityKey(u, "p50_total")
    ensures !ShareKey(u, "p50_total")
  {}

  /** Against flour's evidence the number is unsupported; against sugar's it would have passed. */
  lemma FlourRefused(u: Unicode)
    requires u.Valid() && u.Matching() && Introduces(u, LEAD)
    ensures NumbersVerdict(u, LEAD + "12 kg", [Demand("flour", 10.0)]) == Unsupported
    ensures NumbersVerdict(u, LEAD + "12 kg", [Demand("sugar", 12.0)]) == Pass
  {
    hide Demand, Authority, Authorized, NumbersVerdict, Introduces, Announced, Trails, Hundredths, Grouped;
    MarkTrails(u, Kilograms, "");
    Twelve();
    PrintedVerdict(u, LEAD, 1200, Kilograms, "", [Demand("flour", 10.0)]);
    PrintedVerdict(u, LEAD, 1200, Kilograms, "", [Demand("sugar", 12.0)]);
    DemandBacks(u, "flour", 10.0, Announced(u, LEAD));
    DemandBacks(u, "sugar", 12.0, Announced(u, LEAD));
  }

  lemma Twelve()
    ensures Hundredths(1200) + TailOf(Kilograms, "") == "12 kg"
    ensures OneToken(1200) && WholeMention(1200, Kilograms) == Parsed(12.0, Some(Quantity), Some("kg"))
  {
    WholeIsHundredths(12);
    assert Hundredths(1200) == Grouped(12, '.') == "12" by { assert Natural(12) == Natural(1) + [Digit(2)]; }
    assert " kg" + ("" + "") == " kg";
  }
}
