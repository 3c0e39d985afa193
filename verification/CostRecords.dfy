/** The costs of the evidence records as they are built, and which of their displays the number check accepts. */
module CostRecords {
  import opened Text
  import opened Records
  import opened Decimals
  import opened Display
  import opened NumericAuthority
  import opened FieldAuthority
  import opened NumericRoundTrip
  import opened DisplayProofs
  import opened MoneyDisplay
  import opened NumberCheck
  import opened Endings
  import opened PrintedMentions
  import opened PrintedVerdicts
  import opened DisplayContract
  import opened ContractFacts
  import opened ShownNumbers
  import opened CostSentences

  // ---------- records of one cost ----------

  /** All money of the record is `x`. */
  ghost predicate OnlyCost(u: Unicode, r: Record, x: real) {
    forall f | f in r && f.1.Num? && MoneyKey(u, f.0) :: f.1.n == x
  }

  /** A cost under any key but the total's is supported as a number only. */
  lemma RecordSupports(u: Unicode, r: Record, discrete: Value -> bool, o: seq<string>, key: string, x: real)
    requires u.Valid() && Flat(r) && OnlyCost(u, r, x) && (key, Num(x)) in r && MoneyKey(u, key)
    requires !Get(r, "total_purchase_cost").Num?
    ensures Supports(u, [Contract(r, discrete, o)], x)
  {
    hide Get, Contract, ItemFacts, Flat, MoneyKey, Ops;
    var w := Contract(r, discrete, o);
    OnlyItem(u, w);
    forall fact | fact in Authority(u, [w]) && fact.kind == Money
      ensures fact.value == x
    {
      MoneyFactFrom(u, r, discrete, o, fact);
    }
    MoneyFieldFact(u, r, discrete, o, key, x);
  }

  lemma TotalShown(r: Record, discrete: Value -> bool, o: seq<string>, x: real)
    requires Get(r, "total_purchase_cost") == Num(x)
    ensures Assign("total_purchase_cost", PurchaseCostDisplay(x)) in Ops(r, discrete, o)
  {
    hide Get, AllFieldOps, AllDateOps, AllRateOps, RangeOps, BudgetOps, PurchaseCostDisplay;
    var op := Assign("total_purchase_cost", PurchaseCostDisplay(x));
    assert CostOps(r)[0] == op;
    assert op in CostOps(r);
  }

  lemma TotalNotEmpty(x: real)
    ensures PurchaseCostDisplay(x) != ""
  {}

  /** The total cost is shown, and what is shown backs itself. */
  lemma RecordDisplays(u: Unicode, r: Record, discrete: Value -> bool, o: seq<string>, x: real)
    requires u.Valid() && Flat(r) && IsRateOrder(o) && OnlyCost(u, r, x) && Get(r, "total_purchase_cost") == Num(x)
    ensures Displays(u, [Contract(r, discrete, o)], x)
  {
    hide Get, Contract, ItemFacts, Flat, MoneyKey, Ops, PurchaseCostDisplay, ParseMention, Displayed, IsRateOrder;
    var w := Contract(r, discrete, o);
    OnlyItem(u, w);
    forall fact | fact in Authority(u, [w]) && fact.kind == Money
      ensures fact.value == x || fact.value == Displayed(x)
    {
      MoneyFactFrom(u, r, discrete, o, fact);
    }
    FlatIsKeyed(r);
    TotalShown(r, discrete, o, x);
    TotalNotEmpty(x);
    CostDisplayRead(u, x);
    ShownIsAllowed(u, r, discrete, o, Assign("total_purchase_cost", PurchaseCostDisplay(x)));
    var p := Parsed(Displayed(x), Some(Money), None);
    var fact :| fact in ItemFacts(u, w) && EquivalentOrRounded(p, fact, false);
    assert fact.kind == Money && fact.value == Displayed(x);
  }

  /** Against a record whose only money is its total cost, the shown cost passes exactly when it is scanned as one number. */
  lemma TotalCostPassesIff(u: Unicode, lead: string, trail: string, r: Record, discrete: Value -> bool, o: seq<string>, x: real)
    requires u.Valid() && u.Matching() && Introduces(u, lead) && Trails(u, CostEnding(x), trail)
    requires Flat(r) && IsRateOrder(o) && OnlyCost(u, r, x) && Get(r, "total_purchase_cost") == Num(x)
    ensures NumbersVerdict(u, lead + (PurchaseCostDisplay(x) + trail), [Contract(r, discrete, o)]) == Pass <==>
      if x < 0.0 then HalfUp(x, 0) < 1000 else OneToken(CostHundredths(x))
  {
    hide Get, Contract, Flat, OnlyCost, PurchaseCostDisplay, IsRateOrder, NumbersVerdict, HalfUp, OneToken, CostHundredths;
    hide Displays, Introduces, Trails, CostEnding;
    RecordDisplays(u, r, discrete, o, x);
    DisplayedPassesIff(u, lead, trail, x, [Contract(r, discrete, o)]);
  }

  /** Whatever else a record holds, its shown total cost passes against it when it is scanned as one number. */
  lemma TotalCostPasses(u: Unicode, lead: string, trail: string, r: Record, discrete: Value -> bool, o: seq<string>, x: real)
    requires u.Valid() && u.Matching() && Introduces(u, lead) && Trails(u, CostEnding(x), trail)
    requires KeyedDisplay(r) && IsRateOrder(o) && Get(r, "total_purchase_cost") == Num(x)
    requires x >= 0.0 && OneToken(CostHundredths(x))
    ensures NumbersVerdict(u, lead + (PurchaseCostDisplay(x) + trail), [Contract(r, discrete, o)]) == Pass
  {
    hide Get, Contract, KeyedDisplay, PurchaseCostDisplay, IsRateOrder, NumbersVerdict, OneToken, CostHundredths, Ops;
    hide Introduces, Trails, CostEnding, Hundredths, TailOf;
    TotalShown(r, discrete, o, x);
    CostSpelled(x);
    ShownNumberPassesIff(u, lead, trail, r, discrete, o, Assign("total_purchase_cost", PurchaseCostDisplay(x)),
                         CostHundredths(x), CostEnding(x));
  }

  // ---------- a candidate strategy ----------

  /** The record of a candidate without risk metrics; the counts are those of its findings and warnings. */
  function Candidate(x: real, findings: real, warnings: real): Record {
    CandidateHead(x) + CandidateTail(findings, warnings)
  }

  function CandidateHead(x: real): Record {
    [("evidence_id", Str("e")), ("type", Str("STRATEGY_CANDIDATE_METRICS")), ("classification", Str("OBSERVATION")),
     ("strategy", Str("balanced")), ("selected", Bool(false)), ("feasible", Bool(true)), ("purchase_cost", Num(x)),
     ("expected_fill_rate", Null)]
  }

  function CandidateTail(findings: real, warnings: real): Record {
    [("stockout_probability", Null), ("risk_evaluation_status", Null), ("risk_evaluation_method", Null),
     ("risk_evaluation_metric_source", Null), ("hard_violation_count", Num(findings)), ("warning_count", Num(warnings)),
     ("stress_shortage_observed", Bool(false)), ("stress_capacity_violation", Bool(false)),
     ("evidence_ids", List([Str("e")]))]
  }

  /** Tells the keys of a candidate apart. */
  function RankOf(key: string): int {
    if |key| == 4 then 1
    else if |key| == 8 then (if key[0] == 'f' then 5 else if key[1] == 't' then 3 else 4)
    else if |key| == 11 then 0
    else if |key| == 12 then 16
    else if |key| == 13 then (if key[0] == 'p' then 6 else 13)
    else if |key| == 14 then 2
    else if |key| == 18 then 7
    else if |key| == 20 then (if key[0] == 's' then 8 else 12)
    else if |key| == 22 then (if key[16] == 's' then 9 else 10)
    else if |key| == 24 then 14
    else if |key| == 25 then 15
    else if |key| == 29 then 11
    else -1
  }

  lemma CandidateRanks(x: real, findings: real, warnings: real, i: nat)
    requires i < 17
    ensures |Candidate(x, findings, warnings)| == 17 && RankOf(Candidate(x, findings, warnings)[i].0) == i
  {
    assert RankOf("evidence_id") == 0 && RankOf("type") == 1 && RankOf("classification") == 2 && RankOf("strategy") == 3;
    assert RankOf("selected") == 4 && RankOf("feasible") == 5 && RankOf("purchase_cost") == 6;
    assert RankOf("expected_fill_rate") == 7 && RankOf("stockout_probability") == 8 && RankOf("risk_evaluation_status") == 9;
    assert RankOf("risk_evaluation_method") == 10 && RankOf("risk_evaluation_metric_source") == 11;
    assert RankOf("hard_violation_count") == 12 && RankOf("warning_count") == 13 && RankOf("stress_shortage_observed") == 14;
    assert RankOf("stress_capacity_violation") == 15 && RankOf("evidence_ids") == 16;
  }

  lemma CandidateKeys(x: real, findings: real, warnings: real)
    ensures Keyed(Candidate(x, findings, warnings))
  {
    hide RankOf, Candidate;
    var r := Candidate(x, findings, warnings);
    CandidateRanks(x, findings, warnings, 0);
    forall i, j | 0 <= i < j < |r|
      ensures r[i].0 != r[j].0
    {
      CandidateRanks(x, findings, warnings, i);
      CandidateRanks(x, findings, warnings, j);
    }
  }

  predicate CandidateCount(key: string) {
    key == "hard_violation_count" || key == "warning_count"
  }

  /** No key of the contract, none that nests values, and not the total cost. */
  predicate OwnKey(key: string) {
    !ContractKey(key) && key != "values" && key != "total_purchase_cost"
  }

  lemma OwnKeysFirst()
    ensures OwnKey("evidence_id") && OwnKey("type") && OwnKey("classification") && OwnKey("strategy") && OwnKey("selected")
    ensures OwnKey("feasible") && OwnKey("purchase_cost") && OwnKey("expected_fill_rate") && OwnKey("evidence_ids")
  {}

  lemma OwnKeysNext()
    ensures OwnKey("stockout_probability") && OwnKey("risk_evaluation_status") && OwnKey("risk_evaluation_method")
    ensures OwnKey("risk_evaluation_metric_source") && OwnKey("hard_violation_count") && OwnKey("warning_count")
    ensures OwnKey("stress_shortage_observed") && OwnKey("stress_capacity_violation")
  {}

  lemma CandidateFields(x: real, findings: real, warnings: real)
    ensures forall f | f in Candidate(x, findings, warnings) :: OwnKey(f.0)
    ensures forall f | f in Candidate(x, findings, warnings) && f.1.Num? :: f == ("purchase_cost", Num(x)) || CandidateCount(f.0)
  {
    hide OwnKey, CandidateHead, CandidateTail, CandidateCount;
    HeadFields(x);
    TailFields(findings, warnings);
  }

  lemma HeadFields(x: real)
    ensures forall f | f in CandidateHead(x) :: OwnKey(f.0) && (f.1.Num? ==> f == ("purchase_cost", Num(x)))
  {
    hide OwnKey;
    OwnKeysFirst();
  }

  lemma TailFields(findings: real, warnings: real)
    ensures forall f | f in CandidateTail(findings, warnings) :: OwnKey(f.0) && (f.1.Num? ==> CandidateCount(f.0))
  {
    hide OwnKey;
    OwnKeysFirst();
    OwnKeysNext();
  }

  lemma CandidateDates(x: real, findings: real, warnings: real)
    ensures forall f | f in Candidate(x, findings, warnings) :: !IsDate(f)
  {
    assert |"STRATEGY_CANDIDATE_METRICS"| == 26 && |"OBSERVATION"| == 11 && |"balanced"| == 8;
  }

  lemma CandidateAt(x: real, findings: real, warnings: real)
    ensures var r := Candidate(x, findings, warnings);
      |r| == 17 && r[1] == ("type", Str("STRATEGY_CANDIDATE_METRICS")) && r[6] == ("purchase_cost", Num(x))
  {}

  lemma CandidateCounts(u: Unicode, key: string)
    requires u.Valid() && CandidateCount(key)
    ensures !MoneyKey(u, key)
  {
    hide MoneyKey, Spelling;
    FindingLetters();
    WarningLetters();
    if key == "warning_count" { NotMoney(u, key, 's', 'v'); } else { NotMoney(u, key, 's', 'e'); }
  }

  lemma FindingLetters()
    ensures Spelling("hard_violation_count", 's', 'e')
  {}

  lemma WarningLetters()
    ensures Spelling("warning_count", 's', 'v')
  {}

  lemma CandidateIs(u: Unicode, x: real, findings: real, warnings: real)
    requires u.Valid()
    ensures var r := Candidate(x, findings, warnings);
      && Flat(r) && OnlyCost(u, r, x) && ("purchase_cost", Num(x)) in r && MoneyKey(u, "purchase_cost")
      && !Get(r, "total_purchase_cost").Num?
  {
    hide Get, Keyed, Candidate, IsDate, MoneyKey, CandidateCount;
    var r := Candidate(x, findings, warnings);
    CandidateKeys(x, findings, warnings);
    CandidateFields(x, findings, warnings);
    CandidateDates(x, findings, warnings);
    CandidateAt(x, findings, warnings);
    GetAt(r, 1);
    if Has(r, "values") { assert false; } else { GetAbsent(r, "values"); }
    if Has(r, "total_purchase_cost") { assert false; } else { GetAbsent(r, "total_purchase_cost"); }
    assert r[6] in r;
    CostKey(u, "purchase_");
    assert "purchase_" + "cost" == "purchase_cost";
    forall f | f in r && f.1.Num? && MoneyKey(u, f.0)
      ensures f.1.n == x
    {
      if CandidateCount(f.0) { CandidateCounts(u, f.0); }
    }
  }

  /** The record of a candidate supports its cost as a number. */
  lemma CandidateSupports(u: Unicode, discrete: Value -> bool, o: seq<string>, x: real, findings: real, warnings: real)
    requires u.Valid()
    ensures Supports(u, [Contract(Candidate(x, findings, warnings), discrete, o)], x)
  {
    hide Supports, Contract, Candidate, Flat, OnlyCost, MoneyKey, Get;
    CandidateIs(u, x, findings, warnings);
    RecordSupports(u, Candidate(x, findings, warnings), discrete, o, "purchase_cost", x);
  }

  // ---------- the overview of a plan ----------

  function Overview(x: real, days: real, ordered: real): Record {
    [("evidence_id", Str("e")), ("type", Str("PLAN_OVERVIEW")), ("classification", Str("OBSERVATION")),
     ("recommendation_available", Bool(true)), ("strategy", Str("balanced")), ("horizon_days", Num(days)),
     ("ordered_ingredient_count", Num(ordered)), ("total_purchase_cost", Num(x)), ("evidence_ids", List([Str("e")]))]
  }

  lemma OverviewKeys(x: real, days: real, ordered: real)
    ensures Keyed(Overview(x, days, ordered))
  {}

  predicate OverviewCount(key: string) {
    key == "horizon_days" || key == "ordered_ingredient_count"
  }

  lemma OverviewFields(x: real, days: real, ordered: real)
    ensures forall f | f in Overview(x, days, ordered) ::
      && !ContractKey(f.0) && f.0 != "values"
      && (f.1.Num? ==> f == ("total_purchase_cost", Num(x)) || OverviewCount(f.0))
  {}

  lemma OverviewDates(x: real, days: real, ordered: real)
    ensures forall f | f in Overview(x, days, ordered) :: !IsDate(f)
  {
    assert |"PLAN_OVERVIEW"| == 13 && |"OBSERVATION"| == 11 && |"balanced"| == 8;
  }

  lemma OverviewAt(x: real, days: real, ordered: real)
    ensures var r := Overview(x, days, ordered);
      |r| == 9 && r[1] == ("type", Str("PLAN_OVERVIEW")) && r[7] == ("total_purchase_cost", Num(x))
  {}

  lemma HorizonLetters()
    ensures Spelling("horizon_days", 'c', 'v')
  {}

  lemma OrderedLetters()
    ensures Spelling("ordered_ingredient_count", 's', 'v')
  {}

  lemma OverviewIs(u: Unicode, x: real, days: real, ordered: real)
    requires u.Valid()
    ensures var r := Overview(x, days, ordered);
      Flat(r) && OnlyCost(u, r, x) && Get(r, "total_purchase_cost") == Num(x)
  {
    hide Get, Keyed, Overview, IsDate, MoneyKey, Spelling;
    var r := Overview(x, days, ordered);
    OverviewKeys(x, days, ordered);
    OverviewFields(x, days, ordered);
    OverviewDates(x, days, ordered);
    OverviewAt(x, days, ordered);
    GetAt(r, 1);
    GetAt(r, 7);
    if Has(r, "values") { assert false; } else { GetAbsent(r, "values"); }
    HorizonLetters();
    OrderedLetters();
    forall f | f in r && f.1.Num? && MoneyKey(u, f.0)
      ensures f.1.n == x
    {
      if f.0 == "horizon_days" { NotMoney(u, f.0, 'c', 'v'); }
      if f.0 == "ordered_ingredient_count" { NotMoney(u, f.0, 's', 'v'); }
    }
  }

  // ---------- a small cost ----------

  lemma OneThousand()
    ensures HalfUp(1400.0 / 1000.0, 0) == 1 && PurchaseCostDisplay(1400.0) == "1 nghìn đồng"
  {
    assert Pow10(0) == 1;
    assert HalfUp(1400.0 / 1000.0, 0) == 1;
    PrintedWhole(false, 1);
    assert Grouped(1, '.') == "1" && Sign(false) + "1" == "1";
  }

  /**
   1400 is shown as one thousand. Against a record that has the number and not its display, a candidate's, that never
   passes; against the overview of a plan, which shows its total cost, it always does.
   */
  lemma SmallAmountRefused(u: Unicode, lead: string, mark: string, discrete: Value -> bool, o: seq<string>,
      findings: real, warnings: real, days: real, ordered: real)
    requires u.Valid() && u.Matching() && Introduces(u, lead) && Mark(mark) && IsRateOrder(o)
    ensures PurchaseCostDisplay(1400.0) == "1 nghìn đồng"
    ensures NumbersVerdict(u, lead + ("1 nghìn đồng" + mark), [Contract(Candidate(1400.0, findings, warnings), discrete, o)]) != Pass
    ensures NumbersVerdict(u, lead + ("1 nghìn đồng" + mark), [Contract(Overview(1400.0, days, ordered), discrete, o)]) == Pass
  {
    hide PurchaseCostDisplay, NumbersVerdict, Announced, Introduces, Supports, HalfUp, Trails, Candidate, Overview, Contract;
    hide Flat, OnlyCost, Get, IsRateOrder;
    OneThousand();
    MarkTrails(u, CostEnding(1400.0), mark);
    CandidateSupports(u, discrete, o, 1400.0, findings, warnings);
    AcceptedIff(u, lead, mark, 1400.0, [Contract(Candidate(1400.0, findings, warnings), discrete, o)]);
    OverviewIs(u, 1400.0, days, ordered);
    BelowMillionWhole(1400.0);
    TotalCostPassesIff(u, lead, mark, Overview(1400.0, days, ordered), discrete, o, 1400.0);
  }

  // ---------- past 1000 million ----------

  lemma BillionShown()
    ensures HalfUp(1234570000.0 / 1000000.0, 2) == 123457
    ensures PurchaseCostDisplay(1234570000.0) == "1.234,57 triệu đồng"
  {
    Thousand();
    var x := 1234570000.0 / 1000000.0;
    assert x == 1234.57;
    assert HalfUp(x, 2) == 123457;
    PrintedHundredths(x < 0.0, 123457);
    BillionText();
  }

  lemma BillionText()
    ensures Sign(false) + Hundredths(123457) + " triệu đồng" == "1.234,57 triệu đồng"
  {
    hide Grouped;
    GroupedExample();
    assert FractionText(57) == "57";
    HundredthsText(123457);
    assert Hundredths(123457) == "1.234" + ([','] + "57") == "1.234,57";
  }

  /**
   Past 1000 million a fraction is enough: the overview shows 1,234,570,000 as "1.234,57 triệu đồng", and a sentence that
   repeats it never passes against that overview. The scanner finds 1234 and 57 million, and 57 million is no cost of it.
   */
  lemma BillionRefused(u: Unicode, lead: string, mark: string, discrete: Value -> bool, o: seq<string>, days: real, ordered: real)
    requires u.Valid() && u.Matching() && Introduces(u, lead) && Mark(mark) && IsRateOrder(o)
    ensures var w := Contract(Overview(1234570000.0, days, ordered), discrete, o);
      && "1.234,57 triệu đồng" in AllowedMentions(w)
      && NumbersVerdict(u, lead + ("1.234,57 triệu đồng" + mark), [w]) != Pass
  {
    hide PurchaseCostDisplay, NumbersVerdict, Introduces, HalfUp, Trails, Overview, Contract, Flat, OnlyCost, Get, IsRateOrder;
    hide AllowedMentions, Ops;
    var x, r := 1234570000.0, Overview(1234570000.0, days, ordered);
    BillionShown();
    MarkTrails(u, CostEnding(x), mark);
    OverviewIs(u, x, days, ordered);
    TotalCostPassesIff(u, lead, mark, r, discrete, o, x);
    TotalShown(r, discrete, o, x);
    FlatIsKeyed(r);
    ShownIsAllowed(u, r, discrete, o, Assign("total_purchase_cost", PurchaseCostDisplay(x)));
  }
}
