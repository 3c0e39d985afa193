/** Sentences about the horizon and the number of ordered ingredients, checked against the overview of a plan. */
module OverviewSentences {
  import opened Text
  import opened Records
  import opened Decimals
  import opened Display
  import opened NumericAuthority
  import opened FieldAuthority
  import opened DisplayProofs
  import opened MoneyDisplay
  import opened NumberCheck
  import opened Endings
  import opened PrintedMentions
  import opened PrintedVerdicts
  import opened DisplayContract
  import opened ContractFacts
  import opened ShownNumbers
  import opened RefusedDisplays
  import opened CostRecords

  // ---------- what the keys of an overview are about ----------

  lemma KeysSpelled(u: Unicode)
    requires u.Valid()
    ensures Fold(u, "horizon_days") == "horizon_days"
    ensures Fold(u, "ordered_ingredient_count") == "ordered_ingredient_count"
    ensures !MoneyKey(u, "horizon_days") && !MoneyKey(u, "ordered_ingredient_count")
  {
    hide MoneyKey, LowerKey;
    HorizonLetters();
    OrderedLetters();
    SpellingLower("horizon_days", 'c', 'v');
    SpellingLower("ordered_ingredient_count", 's', 'v');
    KeyFold(u, "horizon_days");
    KeyFold(u, "ordered_ingredient_count");
    NotMoney(u, "horizon_days", 'c', 'v');
    NotMoney(u, "ordered_ingredient_count", 's', 'v');
  }

  lemma HorizonKey(u: Unicode)
    requires u.Valid()
    ensures DayKey(u, "horizon_days")
  {
    hide MoneyKey, Contains, Fold;
    KeysSpelled(u);
    NoneContained("horizon_days", ["rate", "probability", "utilization", "pct", "percent"], "tpupp");
    assert Contains("horizon_days", "day") by { Inside("horizon_days", 8, "day"); }
    assert "day" in ["day", "delay", "lead_time"];
  }

  lemma OrderedKey(u: Unicode)
    requires u.Valid()
    ensures OtherKey(u, "ordered_ingredient_count") && !CountName(u, "ordered_ingredient_count")
    ensures CountKey(u, "ordered_ingredient_count", None)
  {
    hide MoneyKey, Contains, Fold;
    KeysSpelled(u);
    var key := "ordered_ingredient_count";
    NoneContained(key, ["rate", "probability", "utilization", "pct", "percent"], "aplpp");
    NoneContained(key, ["day", "delay", "lead_time"], "all");
    assert |key| == 24 && |"scenario_count"| == 14 && |"warning_count"| == 13 && |"hard_violation_count"| == 20;
    assert key[19..] == "count";
  }

  lemma Inside(s: string, i: nat, p: string)
    requires i + |p| <= |s| && s[i..i + |p|] == p
    ensures Contains(s, p)
  {
    assert At(s, i, p);
  }

  // ---------- what an overview states ----------

  /** A text without a unit word names no unit. */
  lemma NoUnit(u: Unicode)
    requires u.Valid()
    ensures NormalizeUnit(u, "None") == None
  {
    assert u.Classified('N') && u.Classified('o') && u.Classified('n') && u.Classified('e') by {
      assert u.word('N') || !u.word('N'); assert u.word('o') || !u.word('o');
      assert u.word('n') || !u.word('n'); assert u.word('e') || !u.word('e');
    }
    assert "None" == ['N'] + "one" && "one" == ['o'] + "ne" && "ne" == ['n'] + "e";
    assert Fold(u, "one") == "one" by { LettersFold(u, "one"); }
    assert Fold(u, "None") == "n" + "one" == "none";
    NoAlias(u, "none", UNIT_ALIASES, "klllcgdsgggl");
  }

  lemma {:induction false} NoAlias(u: Unicode, s: string, aliases: seq<(string, string)>, letters: string)
    requires |aliases| <= |letters| && forall i | 0 <= i < |aliases| :: letters[i] in aliases[i].0 && letters[i] !in s
    ensures FirstAlias(u, s, aliases) == None
  {
    hide ContainsWord;
    if aliases != [] {
      AbsentWord(u, s, aliases[0].0, letters[0]);
      assert forall i | 0 <= i < |aliases[1..]| :: aliases[1..][i] == aliases[i + 1] && letters[1..][i] == letters[i + 1];
      NoAlias(u, s, aliases[1..], letters[1..]);
    }
  }

  lemma OverviewLooks(x: real, days: real, ordered: real)
    ensures var r := Overview(x, days, ordered);
      && ("horizon_days", Num(days)) in r && ("ordered_ingredient_count", Num(ordered)) in r
      && Get(r, "unit") == Null && Get(r, "type") == Str("PLAN_OVERVIEW")
  {
    hide Get, Overview;
    var r := Overview(x, days, ordered);
    OverviewKeys(x, days, ordered);
    OverviewPlaces(x, days, ordered);
    assert r[5] in r && r[6] in r;
    GetAt(r, 1);
    if Has(r, "unit") { assert false; } else { GetAbsent(r, "unit"); }
  }

  lemma OverviewPlaces(x: real, days: real, ordered: real)
    ensures var r := Overview(x, days, ordered);
      && |r| == 9 && r[5] == ("horizon_days", Num(days)) && r[6] == ("ordered_ingredient_count", Num(ordered))
      && r[1] == ("type", Str("PLAN_OVERVIEW")) && forall f | f in r :: f.0 != "unit"
  {}

  /** The numbers of an overview with its display contract, and that it has no unit. */
  lemma OverviewStates(u: Unicode, x: real, days: real, ordered: real, discrete: Value -> bool, o: seq<string>)
    requires u.Valid()
    ensures var r := Overview(x, days, ordered);
      var w := Contract(r, discrete, o);
      && ItemUnit(u, w) == None && Get(w, "type") == Str("PLAN_OVERVIEW")
      && ("horizon_days", Num(days)) in EffectiveValues(w) && ("ordered_ingredient_count", Num(ordered)) in EffectiveValues(w)
      && forall f | f in EffectiveValues(w) && f.1.Num? ::
           f == ("total_purchase_cost", Num(x)) || f == ("horizon_days", Num(days)) || f == ("ordered_ingredient_count", Num(ordered))
  {
    hide Get, Overview, Contract, EffectiveValues, NormalizeUnit, Flat, OnlyCost;
    var r := Overview(x, days, ordered);
    var w := Contract(r, discrete, o);
    OverviewIs(u, x, days, ordered);
    OverviewLooks(x, days, ordered);
    FlatBasics(r);
    ContractFields(r, discrete, o);
    NumberStays(r, discrete, o, "horizon_days", days);
    NumberStays(r, discrete, o, "ordered_ingredient_count", ordered);
    NoUnit(u);
    OverviewNumbers(x, days, ordered);
  }

  lemma OverviewNumbers(x: real, days: real, ordered: real)
    ensures forall f | f in Overview(x, days, ordered) && f.1.Num? ::
      f == ("total_purchase_cost", Num(x)) || f == ("horizon_days", Num(days)) || f == ("ordered_ingredient_count", Num(ordered))
  {}

  lemma CostIsMoney(u: Unicode)
    requires u.Valid()
    ensures MoneyKey(u, "total_purchase_cost")
  {
    CostKey(u, "total_purchase_");
    assert "total_purchase_" + "cost" == "total_purchase_cost";
  }

  lemma StatesDays(u: Unicode, x: real, days: real, ordered: real, discrete: Value -> bool, o: seq<string>, n: real)
    requires u.Valid()
    ensures States(u, Contract(Overview(x, days, ordered), discrete, o), Days, n) <==> n == days
    ensures States(u, Contract(Overview(x, days, ordered), discrete, o), Tally, n) <==> n == ordered
  {
    hide Overview, Contract, EffectiveValues, MoneyKey, ItemUnit, Fold, Contains;
    var w := Contract(Overview(x, days, ordered), discrete, o);
    OverviewStates(u, x, days, ordered, discrete, o);
    HorizonKey(u);
    OrderedKey(u);
    CostIsMoney(u);
    var a, b := ("horizon_days", Num(days)), ("ordered_ingredient_count", Num(ordered));
    assert Speaks(u, w, a, Days) && Stated(u, a) == Some(days);
    assert Speaks(u, w, b, Tally) && Stated(u, b) == Some(ordered);
    assert a.0 != b.0 by { assert |a.0| == 12 && |b.0| == 24; }
  }

  // ---------- what an overview allows ----------

  /** An allowed mention is a number that the contract prints for the horizon or the count, or the displayed cost. */
  lemma OverviewAllows(u: Unicode, x: real, days: real, ordered: real, discrete: Value -> bool, o: seq<string>, t: string)
    requires u.Valid() && IsRateOrder(o)
    requires t in AllowedMentions(Contract(Overview(x, days, ordered), discrete, o))
    ensures var d := Precision(discrete, Null);
      || Allow(t) in NumberOps("horizon_days", days, d) || Allow(t) in NumberOps("ordered_ingredient_count", ordered, d)
      || t == PurchaseCostDisplay(x)
  {
    hide Get, AllFieldOps, AllDateOps, AllRateOps, ViNumber, NumberOps, PurchaseCostDisplay, IsDate, Opening, Overview;
    hide Contract, AllowedMentions, Flat, OnlyCost, IsRateOrder, MoneyKey;
    var r := Overview(x, days, ordered);
    OverviewIs(u, x, days, ordered);
    OverviewLooks(x, days, ordered);
    OverviewNumbers(x, days, ordered);
    FlatBasics(r);
    FlatIsKeyed(r);
    FlatNoDates(r);
    ContractAllows(r, discrete, o, t);
    var d, op := Precision(discrete, Get(r, "unit")), Allow(t);
    InFieldOps(r, d, op);
    InDateOps(r, op);
    InRateOps(r, o, op);
    if k :| k in o && op in RateOps(r, k) {
      RateKey(o, k);
      RateIsNoNumber(x, days, ordered, k);
    } else if f :| f in r && op in FieldOps(f, d) {
      CostIsShownElsewhere();
    }
  }

  lemma CostIsShownElsewhere()
    ensures "total_purchase_cost" in COST_KEYS
  {}

  lemma RateIsNoNumber(x: real, days: real, ordered: real, k: string)
    requires k in RATE_KEYS
    ensures !Get(Overview(x, days, ordered), k).Num?
  {
    hide Get, Overview;
    var r := Overview(x, days, ordered);
    OverviewKeys(x, days, ordered);
    OverviewNumbers(x, days, ordered);
    RateNames(k);
    if Get(r, k).Num? { GetNumber(r, k); }
  }

  lemma RateNames(k: string)
    requires k in RATE_KEYS
    ensures k != "total_purchase_cost" && k != "horizon_days" && k != "ordered_ingredient_count"
  {}

  lemma OverviewReads(u: Unicode, x: real, days: real, ordered: real, discrete: Value -> bool, o: seq<string>, t: string)
    requires u.Valid() && IsRateOrder(o)
    requires t in AllowedMentions(Contract(Overview(x, days, ordered), discrete, o))
    ensures var d := Precision(discrete, Null);
      || ParseMention(u, t) == Some(Parsed(Seen(Units(days, d)), None, None))
      || ParseMention(u, t) == Some(Parsed(Seen(Units(ordered, d)), None, None))
      || (ParseMention(u, t).Some? && ParseMention(u, t).value.kind == Some(Money))
  {
    hide Get, NumberOps, PurchaseCostDisplay, Overview, Contract, AllowedMentions, IsRateOrder, ParseMention, Seen, Units;
    OverviewAllows(u, x, days, ordered, discrete, o, t);
    var d := Precision(discrete, Null);
    if Allow(t) in NumberOps("horizon_days", days, d) {
      TextValue(u, "horizon_days", days, d, t);
    } else if Allow(t) in NumberOps("ordered_ingredient_count", ordered, d) {
      TextValue(u, "ordered_ingredient_count", ordered, d, t);
    } else {
      CostDisplayRead(u, x);
    }
  }

  /** The shown horizon and the shown count are allowed mentions. */
  lemma OverviewShows(u: Unicode, x: real, days: real, ordered: real, discrete: Value -> bool, o: seq<string>)
    requires u.Valid() && IsRateOrder(o)
    ensures var d, allowed := Precision(discrete, Null), AllowedMentions(Contract(Overview(x, days, ordered), discrete, o));
      ViNumber(days, d) in allowed && ViNumber(ordered, d) in allowed
  {
    hide Get, Ops, Overview, Contract, AllowedMentions, IsRateOrder, ParseMention, ViNumber, Flat, OnlyCost, MoneyKey, Units;
    hide Spelled, ItemFacts, Authorized;
    var r, d := Overview(x, days, ordered), Precision(discrete, Null);
    OverviewIs(u, x, days, ordered);
    OverviewLooks(x, days, ordered);
    FlatIsKeyed(r);
    CountsShown();
    FieldShown(u, r, discrete, o, "horizon_days", days);
    FieldShown(u, r, discrete, o, "ordered_ingredient_count", ordered);
    SpelledNotEmpty(Units(days, d), Bare);
    SpelledNotEmpty(Units(ordered, d), Bare);
    NotEmptySpelled(days < 0.0, Units(days, d));
    NotEmptySpelled(ordered < 0.0, Units(ordered, d));
    ShownIsAllowed(u, r, discrete, o, Default("horizon_days", ViNumber(days, d)));
    ShownIsAllowed(u, r, discrete, o, Default("ordered_ingredient_count", ViNumber(ordered, d)));
  }

  lemma NotEmptySpelled(negative: bool, m: nat)
    requires Hundredths(m) + TailOf(Bare, "") != ""
    ensures Spelled(negative, m, Bare) != ""
  {}

  lemma CountsShown()
    ensures "horizon_days" !in COST_KEYS && "horizon_days" !in RATE_KEYS
    ensures "ordered_ingredient_count" !in COST_KEYS && "ordered_ingredient_count" !in RATE_KEYS
  {}

  // ---------- the sentences ----------

  lemma WholeWord(n: nat, e: Ending, trail: string)
    requires e == Daily || e == Skus || e == Ingredients
    ensures Hundredths(100 * n) + TailOf(e, trail) == Grouped(n, '.') + (WordOf(e) + trail)
    ensures OneToken(100 * n) && WholeMention(100 * n, e) == Parsed(n as real, KindOf(e), UnitOf(e))
  {
    hide Grouped, Hundredths;
    WholeIsHundredths(n);
    assert RestOf(e) + trail == trail;
  }

  /** "n ngày" passes against the overview of a plan exactly when n is its horizon. */
  lemma HorizonPassesIff(u: Unicode, lead: string, trail: string, n: nat, x: real, days: real, ordered: real,
      discrete: Value -> bool, o: seq<string>)
    requires u.Valid() && u.Matching() && Introduces(u, lead) && Trails(u, Daily, trail) && IsRateOrder(o)
    ensures var w := Contract(Overview(x, days, ordered), discrete, o);
      NumbersVerdict(u, lead + (Grouped(n, '.') + (" ngày" + trail)), [w]) == Pass <==> n as real == days
  {
    hide Overview, Contract, Authority, Authorized, NumbersVerdict, Introduces, Trails, Announced, Grouped, Hundredths, TailOf;
    hide IsRateOrder, OneToken, WholeMention, LeftOver, States, AllowedMentions, ParseMention;
    var w := Contract(Overview(x, days, ordered), discrete, o);
    WholeWord(n, Daily, trail);
    PrintedVerdict(u, lead, 100 * n, Daily, trail, [w]);
    ExactKindIff(u, [w], Days, n as real, UnitOf(Daily), Announced(u, lead));
    StatesDays(u, x, days, ordered, discrete, o, n as real);
    if t :| t in AllowedMentions(w) && Reads(u, w, t, Days, n as real) {
      OverviewReads(u, x, days, ordered, discrete, o, t);
      OverviewStates(u, x, days, ordered, discrete, o);
    }
    assert !Lists(u, w, Days, n as real);
    assert w in [w];
  }

  lemma WholeUnits(n: nat, d: nat)
    requires d == 0 || d == 2
    ensures Seen(Units(n as real, d)) == n as real
  {
    hide Seen;
    WholeIsHundredths(n);
    WholeHalfUp(n, d);
  }

  lemma WholeHalfUp(n: nat, d: nat)
    requires d == 0 || d == 2
    ensures HalfUp(n as real, d) == if d == 0 then n else 100 * n
  {
    assert Pow10(0) == 1 && Pow10(1) == 10 && Pow10(2) == 100;
    assert (n as real + 0.5).Floor == n && (n as real * 100.0 + 0.5).Floor == 100 * n;
  }

  /** An allowed mention without a kind counts as a count, whatever field it shows. */
  lemma ListsCounts(u: Unicode, x: real, days: nat, ordered: nat, discrete: Value -> bool, o: seq<string>, n: nat)
    requires u.Valid() && IsRateOrder(o)
    ensures Lists(u, Contract(Overview(x, days as real, ordered as real), discrete, o), Tally, n as real)
       <==> n == days || n == ordered
  {
    hide Overview, Contract, AllowedMentions, ParseMention, IsRateOrder, Units, Seen, Get, ViNumber, EffectiveValues, ItemUnit;
    var a, b, d := days as real, ordered as real, Precision(discrete, Null);
    var w := Contract(Overview(x, a, b), discrete, o);
    OverviewStates(u, x, a, b, discrete, o);
    OverviewNotMeasured(w);
    WholeUnits(days, d);
    WholeUnits(ordered, d);
    OverviewShows(u, x, a, b, discrete, o);
    EnglishRead(u, a, d);
    EnglishRead(u, b, d);
    if n == days { assert Reads(u, w, ViNumber(a, d), Tally, n as real); }
    if n == ordered { assert Reads(u, w, ViNumber(b, d), Tally, n as real); }
    if t :| t in AllowedMentions(w) && Reads(u, w, t, Tally, n as real) {
      OverviewReads(u, x, a, b, discrete, o, t);
    }
  }

  lemma OverviewNotMeasured(w: Record)
    requires Get(w, "type") == Str("PLAN_OVERVIEW")
    ensures !MeasuredType(w)
  {}

  /**
   "n nguyên liệu" and "n sku" pass exactly when n is the number of ordered ingredients or the horizon: the display of the
   horizon is a count as well.
   */
  lemma OrderedPassesIff(u: Unicode, lead: string, trail: string, n: nat, x: real, days: nat, ordered: nat, e: Ending,
      discrete: Value -> bool, o: seq<string>)
    requires u.Valid() && u.Matching() && Introduces(u, lead) && Trails(u, e, trail) && IsRateOrder(o)
    requires e == Skus || e == Ingredients
    ensures var w := Contract(Overview(x, days as real, ordered as real), discrete, o);
      NumbersVerdict(u, lead + (Grouped(n, '.') + (WordOf(e) + trail)), [w]) == Pass <==> n == ordered || n == days
  {
    hide Overview, Contract, Authority, Authorized, NumbersVerdict, Introduces, Trails, Announced, Grouped, Hundredths, TailOf;
    hide IsRateOrder, OneToken, WholeMention, LeftOver, States, Lists, WordOf;
    var w := Contract(Overview(x, days as real, ordered as real), discrete, o);
    WholeWord(n, e, trail);
    PrintedVerdict(u, lead, 100 * n, e, trail, [w]);
    ExactKindIff(u, [w], Tally, n as real, UnitOf(e), Announced(u, lead));
    StatesDays(u, x, days as real, ordered as real, discrete, o, n as real);
    ListsCounts(u, x, days, ordered, discrete, o, n);
    assert w in [w];
  }
}
