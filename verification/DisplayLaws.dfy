/**
 What the display contract writes into a record, key by key and mention by mention, said of the record's own fields:
 `add_numeric_display_contract` of app/decision_intelligence/display.py, lines 51 to 110.
 */
module DisplayLaws {
  import opened Text
  import opened Records
  import opened Display
  import opened DisplayContract
  import opened FieldAuthority
  import opened ContractFacts
  import opened NumericAuthority

  // ---------- the fields a text is made from ----------

  predicate RateKey(k: string) {
    k == "expected_fill_rate" || k == "fill_rate" || k == "stockout_probability"
  }

  predicate CostName(k: string) {
    k == "total_purchase_cost" || k == "purchase_cost"
  }

  /** A number that is neither a rate nor a cost. */
  predicate NumberField(r: Record, k: string, x: real) {
    (k, Num(x)) in r && !RateKey(k) && !CostName(k)
  }

  /** A text of the form yyyy-mm-dd under a key that ends in "_date"; only its length and its first hyphen are looked at. */
  predicate DateField(r: Record, k: string, text: string) {
    (k, Str(text)) in r && |k| >= 5 && k[|k| - 5..] == "_date" && |text| == 10 && text[4] == '-'
  }

  function DayMonth(text: string): string
    requires |text| == 10
  {
    [text[8], text[9], '/', text[5], text[6]]
  }

  /** A demand summary with a unit and both ends of its daily range. */
  predicate Ranged(r: Record) {
    && Get(r, "type") == Str("DEMAND_HORIZON_SUMMARY") && Truthy(Get(r, "unit"))
    && Get(r, "daily_p50_min").Num? && Get(r, "daily_p50_max").Num?
  }

  predicate Utilised(r: Record) {
    Get(r, "type") == Str("BUDGET_STATUS") && Get(r, "budget_utilization_pct").Num?
  }

  /** No decimals for a unit that is counted in whole pieces, two otherwise. */
  function Places(discrete: Value -> bool, unit: Value): nat {
    if Truthy(unit) && discrete(unit) then 0 else 2
  }

  /** `t` with a point wherever `s` has a comma. */
  predicate Dotted(s: string, t: string) {
    |t| == |s| && forall i | 0 <= i < |s| :: t[i] == if s[i] == ',' then '.' else s[i]
  }

  lemma {:induction false} ReplaceDots(s: string, i: nat)
    requires i <= |s|
    ensures Dotted(s[i..], ReplaceFrom(s, ",", ".", i))
    decreases |s| - i
  {
    if i < |s| {
      CommaAt(s, i);
      ReplaceDots(s, i + 1);
      assert s[i..] == [s[i]] + s[i + 1..];
    }
  }

  lemma EnglishIs(s: string, t: string)
    ensures t == English(s) <==> Dotted(s, t)
  {
    ReplaceDots(s, 0);
    assert s[0..] == s;
  }

  // ---------- operations ----------

  lemma {:induction false} Kept(sheet: Sheet, ops: seq<Op>, key: string)
    requires Keyed(sheet.display) && Has(sheet.display, key) && forall op | op in ops && op.Assign? :: op.key != key
    ensures Get(ApplyAll(sheet, ops).display, key) == Get(sheet.display, key) && Has(ApplyAll(sheet, ops).display, key)
    decreases |ops|
  {
    hide Get, Put;
    if ops != [] {
      var op := ops[0];
      assert ops == [op] + ops[1..];
      if !op.Allow? { PutGet(sheet.display, op.key, Str(op.text)); }
      Kept(Applied(sheet, op), ops[1..], key);
    }
  }

  /** The keys whose text replaces whatever was shown. */
  predicate Replaced(r: Record, k: string) {
    || (RateKey(k) && Get(r, k).Num?)
    || (k == "total_purchase_cost" && Get(r, k).Num?)
    || (k == "daily_demand_range" && Ranged(r))
    || (k == "budget_utilization_pct" && Utilised(r))
  }

  lemma AssignsReplaced(r: Record, discrete: Value -> bool, o: seq<string>, op: Op)
    requires IsRateOrder(o) && op in Ops(r, discrete, o) && op.Assign?
    ensures Replaced(r, op.key)
  {
    hide Get, Ops, ViNumber, PurchaseCostDisplay, Truthy, Show;
    AssignedBy(r, discrete, o, op);
    SingleKeys(r, discrete, op);
  }

  /** The text that replaces. */
  predicate Replacement(r: Record, discrete: Value -> bool, k: string, t: string) {
    || (RateKey(k) && Get(r, k).Num? && t == ViNumber(Get(r, k).n * 100.0, 2) + "%")
    || (k == "total_purchase_cost" && Get(r, k).Num? && t == PurchaseCostDisplay(Get(r, k).n))
    || (k == "daily_demand_range" && Ranged(r) && RangeText(r, discrete, t))
    || (k == "budget_utilization_pct" && Utilised(r) && t == ViNumber(Get(r, k).n, 2) + "%")
  }

  /** "low–high unit/ngày" */
  predicate RangeText(r: Record, discrete: Value -> bool, t: string)
    requires Ranged(r)
  {
    var unit := Get(r, "unit");
    var places := Places(discrete, Str(Show(unit)));
    t == ViNumber(Get(r, "daily_p50_min").n, places) + "–" + ViNumber(Get(r, "daily_p50_max").n, places) + " " + Show(unit) + "/ngày"
  }

  lemma ReplacementIs(r: Record, discrete: Value -> bool, o: seq<string>, k: string, t: string)
    requires IsRateOrder(o)
    ensures Assign(k, t) in Ops(r, discrete, o) <==> Replacement(r, discrete, k, t)
  {
    hide Get, AllFieldOps, AllDateOps, AllRateOps, CostOps, RangeOps, BudgetOps, RangeText, ViNumber, PurchaseCostDisplay;
    hide IsRateOrder;
    FieldsDoNotAssign(r, Precision(discrete, Get(r, "unit")), Assign(k, t));
    RateAssigns(r, discrete, o, k, t);
    SingleAssigns(r, discrete, k, t);
  }

  lemma RateAssigns(r: Record, discrete: Value -> bool, o: seq<string>, k: string, t: string)
    requires IsRateOrder(o)
    ensures Assign(k, t) in AllRateOps(r, o) <==> RateKey(k) && Replacement(r, discrete, k, t)
  {
    hide Get, AllRateOps, ViNumber, PurchaseCostDisplay, RangeText;
    InRateOps(r, o, Assign(k, t));
  }

  lemma SingleAssigns(r: Record, discrete: Value -> bool, k: string, t: string)
    ensures Assign(k, t) in CostOps(r) <==> k == "total_purchase_cost" && Replacement(r, discrete, k, t)
    ensures Assign(k, t) in BudgetOps(r) <==> k == "budget_utilization_pct" && Replacement(r, discrete, k, t)
    ensures Assign(k, t) in RangeOps(r, discrete) <==> k == "daily_demand_range" && Replacement(r, discrete, k, t)
  {
    hide Get, ViNumber, PurchaseCostDisplay, Truthy, Show;
  }

  /** The text that is shown where nothing was. */
  ghost predicate Offered(r: Record, discrete: Value -> bool, k: string, t: string) {
    || (exists x :: NumberField(r, k, x) && t == ViNumber(x, Places(discrete, Get(r, "unit"))))
    || (exists text :: DateField(r, k, text) && t == DayMonth(text))
  }

  lemma EndsWithDate(k: string)
    ensures EndsWith(k, "_date") <==> |k| >= 5 && k[|k| - 5..] == "_date"
  {}

  lemma DateGives(r: Record, k: string, text: string)
    ensures DateField(r, k, text) <==> (k, Str(text)) in r && IsDate((k, Str(text)))
    ensures DateField(r, k, text) ==> DateOps((k, Str(text))) == [Default(k, DayMonth(text)), Allow(text), Allow(DayMonth(text))]
  {
    EndsWithDate(k);
    if |text| == 10 { assert text[8..10] + "/" + text[5..7] == DayMonth(text); }
  }

  lemma OffersNumber(r: Record, discrete: Value -> bool, k: string, t: string)
    ensures Default(k, t) in AllFieldOps(r, Precision(discrete, Get(r, "unit"))) <==>
      exists x :: NumberField(r, k, x) && t == ViNumber(x, Places(discrete, Get(r, "unit")))
  {
    hide Get, AllFieldOps, ViNumber, Truthy, English;
    var op, places := Default(k, t), Precision(discrete, Get(r, "unit"));
    InFieldOps(r, places, op);
    if f :| f in r && op in FieldOps(f, places) {
      assert NumberField(r, k, f.1.n);
    }
    if x :| NumberField(r, k, x) && t == ViNumber(x, places) {
      assert op in FieldOps((k, Num(x)), places);
    }
  }

  lemma OffersDay(r: Record, k: string, t: string)
    ensures Default(k, t) in AllDateOps(r) <==> exists text :: DateField(r, k, text) && t == DayMonth(text)
  {
    hide AllDateOps;
    var op := Default(k, t);
    InDateOps(r, op);
    if f :| f in r && op in DateOps(f) {
      DateGives(r, k, f.1.text);
    }
    if text :| DateField(r, k, text) && t == DayMonth(text) {
      DateGives(r, k, text);
      assert op in DateOps((k, Str(text)));
    }
  }

  lemma OffersNoMore(r: Record, discrete: Value -> bool, o: seq<string>, k: string, t: string)
    ensures Default(k, t) !in AllRateOps(r, o) && Default(k, t) !in CostOps(r)
    ensures Default(k, t) !in RangeOps(r, discrete) && Default(k, t) !in BudgetOps(r)
  {
    hide Get, AllRateOps, ViNumber, PurchaseCostDisplay, Truthy, Show;
    InRateOps(r, o, Default(k, t));
  }

  lemma OfferedIs(r: Record, discrete: Value -> bool, o: seq<string>, k: string, t: string)
    ensures Default(k, t) in Ops(r, discrete, o) <==> Offered(r, discrete, k, t)
  {
    hide Get, AllFieldOps, AllDateOps, AllRateOps, CostOps, RangeOps, BudgetOps, ViNumber, Places, Precision;
    OffersNumber(r, discrete, k, t);
    OffersDay(r, k, t);
    OffersNoMore(r, discrete, o, k, t);
  }

  /** A dictionary offers one text per key. */
  lemma OfferedOnce(r: Record, discrete: Value -> bool, k: string, s: string, t: string)
    requires Keyed(r) && Offered(r, discrete, k, s) && Offered(r, discrete, k, t)
    ensures s == t
  {
    hide Get, ViNumber, Places;
  }

  // ---------- the display values ----------

  /**
   Every display value of the result: a rate as a percentage, the total cost in its words, the daily range and the
   budget's utilisation always replace what was shown; otherwise what was shown stays; otherwise a number is shown with
   its unit's decimals and a date as day and month; and nothing else is shown.
   */
  lemma DisplayIs(r: Record, discrete: Value -> bool, o: seq<string>, k: string)
    requires KeyedDisplay(r) && IsRateOrder(o)
    ensures var before, after := Opening(r).display, Opening(Contract(r, discrete, o)).display;
      && (forall t | Replacement(r, discrete, k, t) :: Get(after, k) == Str(t))
      && (!Replaced(r, k) && Has(before, k) ==> Get(after, k) == Get(before, k))
      && (!Replaced(r, k) && !Has(before, k) ==> forall t | Offered(r, discrete, k, t) :: Get(after, k) == Str(t))
      && (Has(after, k) <==> Replaced(r, k) || Has(before, k) || exists t :: Offered(r, discrete, k, t))
  {
    hide Get, Put, Ops, Applied, ApplyAll, Opening, Contract, Replaced, Replacement, Offered, Precision;
    var ops, before, after := Ops(r, discrete, o), Opening(r), Opening(Contract(r, discrete, o)).display;
    ContractDone(r, discrete, o);
    forall op | op in ops && op.Assign?
      ensures Replaced(r, op.key)
    {
      AssignsReplaced(r, discrete, o, op);
    }
    if Replaced(r, k) { ReplacedShown(r, discrete, o, k); }
    forall t | Replacement(r, discrete, k, t)
      ensures Get(after, k) == Str(t)
    {
      ReplacementIs(r, discrete, o, k, t);
      assert Done(ApplyAll(before, ops), Assign(k, t));
    }
    forall t | Offered(r, discrete, k, t)
      ensures Has(after, k)
    {
      OfferedIs(r, discrete, o, k, t);
      assert Done(ApplyAll(before, ops), Default(k, t));
    }
    if !Replaced(r, k) {
      if Has(before.display, k) {
        Kept(before, ops, k);
      } else if Has(after, k) {
        FirstShown(r, discrete, o, k);
      }
    } else {
      var t :| Replacement(r, discrete, k, t);
      ReplacementIs(r, discrete, o, k, t);
      assert Done(ApplyAll(before, ops), Assign(k, t));
    }
  }

  lemma ReplacedShown(r: Record, discrete: Value -> bool, o: seq<string>, k: string)
    requires Replaced(r, k)
    ensures exists t :: Replacement(r, discrete, k, t)
  {
    hide Get, ViNumber, PurchaseCostDisplay, Truthy, Show;
    if RateKey(k) {
      assert Replacement(r, discrete, k, ViNumber(Get(r, k).n * 100.0, 2) + "%");
    } else if k == "total_purchase_cost" {
      assert Replacement(r, discrete, k, PurchaseCostDisplay(Get(r, k).n));
    } else if k == "budget_utilization_pct" {
      assert Replacement(r, discrete, k, ViNumber(Get(r, k).n, 2) + "%");
    } else {
      var places := Places(discrete, Str(Show(Get(r, "unit"))));
      var t := ViNumber(Get(r, "daily_p50_min").n, places) + "–" + ViNumber(Get(r, "daily_p50_max").n, places)
        + " " + Show(Get(r, "unit")) + "/ngày";
      assert Replacement(r, discrete, k, t);
    }
  }

  lemma FirstShown(r: Record, discrete: Value -> bool, o: seq<string>, k: string)
    requires KeyedDisplay(r) && IsRateOrder(o) && !Replaced(r, k) && !Has(Opening(r).display, k)
    requires var after := Opening(Contract(r, discrete, o)).display; Has(after, k)
    ensures var after := Opening(Contract(r, discrete, o)).display;
      exists t :: Offered(r, discrete, k, t) && Get(after, k) == Str(t) && forall s | Offered(r, discrete, k, s) :: s == t
  {
    hide Get, Put, Ops, Applied, ApplyAll, Opening, Contract, Replaced, Offered, Precision;
    var ops, after := Ops(r, discrete, o), Opening(Contract(r, discrete, o)).display;
    ContractDone(r, discrete, o);
    ShownFrom(Opening(r), ops, k);
    var op :| op in ops && !op.Allow? && op.key == k && Get(after, k) == Str(op.text);
    if op.Assign? { AssignsReplaced(r, discrete, o, op); }
    OfferedIs(r, discrete, o, k, op.text);
    assert op == Default(k, op.text);
    forall s | Offered(r, discrete, k, s)
      ensures s == op.text
    {
      OfferedOnce(r, discrete, k, s, op.text);
    }
  }

  // ---------- the allowed mentions ----------

  /** A number's own text, with a point for the comma too, and both without the sign where it is negative. */
  predicate SpelledAs(x: real, places: nat, t: string) {
    var text, positive := ViNumber(x, places), ViNumber(-x, places);
    t == text || Dotted(text, t) || (x < 0.0 && (t == positive || Dotted(positive, t)))
  }

  ghost predicate Repeats(r: Record, discrete: Value -> bool, t: string) {
    || (exists k, x :: NumberField(r, k, x) && SpelledAs(x, Places(discrete, Get(r, "unit")), t))
    || (exists k, text :: DateField(r, k, text) && (t == text || t == DayMonth(text)))
    || (exists k :: Replacement(r, discrete, k, t))
  }

  lemma NumberAllows(k: string, x: real, places: nat, t: string)
    ensures Allow(t) in NumberOps(k, x, places) <==> SpelledAs(x, places, t)
  {
    hide ViNumber, English, Dotted;
    EnglishIs(ViNumber(x, places), t);
    EnglishIs(ViNumber(-x, places), t);
  }

  lemma RepeatsFields(r: Record, discrete: Value -> bool, t: string)
    ensures Allow(t) in AllFieldOps(r, Precision(discrete, Get(r, "unit"))) <==>
      exists k, x :: NumberField(r, k, x) && SpelledAs(x, Places(discrete, Get(r, "unit")), t)
  {
    hide Get, AllFieldOps, NumberOps, SpelledAs, Truthy;
    var op, places := Allow(t), Precision(discrete, Get(r, "unit"));
    InFieldOps(r, places, op);
    if f :| f in r && op in FieldOps(f, places) {
      NumberAllows(f.0, f.1.n, places, t);
      assert NumberField(r, f.0, f.1.n);
    }
    if k, x :| NumberField(r, k, x) && SpelledAs(x, places, t) {
      NumberAllows(k, x, places, t);
      assert op in FieldOps((k, Num(x)), places);
    }
  }

  lemma RepeatsDates(r: Record, t: string)
    ensures Allow(t) in AllDateOps(r) <==> exists k, text :: DateField(r, k, text) && (t == text || t == DayMonth(text))
  {
    hide AllDateOps;
    var op := Allow(t);
    InDateOps(r, op);
    if f :| f in r && op in DateOps(f) {
      DateGives(r, f.0, f.1.text);
      assert DateField(r, f.0, f.1.text);
    }
    if k, text :| DateField(r, k, text) && (t == text || t == DayMonth(text)) {
      DateGives(r, k, text);
      assert op in DateOps((k, Str(text)));
    }
  }

  lemma RateAllows(r: Record, discrete: Value -> bool, o: seq<string>, t: string)
    requires IsRateOrder(o)
    ensures Allow(t) in AllRateOps(r, o) <==> exists k :: RateKey(k) && Replacement(r, discrete, k, t)
  {
    hide Get, AllRateOps, ViNumber, PurchaseCostDisplay, Truthy, Show, RangeText;
    var op := Allow(t);
    InRateOps(r, o, op);
    if k :| k in o && op in RateOps(r, k) {
      assert RateKey(k) && Replacement(r, discrete, k, t);
    }
    if k :| RateKey(k) && Replacement(r, discrete, k, t) {
      assert k in o && op in RateOps(r, k);
    }
  }

  lemma SingleAllows(r: Record, discrete: Value -> bool, t: string)
    ensures Allow(t) in CostOps(r) <==> Replacement(r, discrete, "total_purchase_cost", t)
    ensures Allow(t) in BudgetOps(r) <==> Replacement(r, discrete, "budget_utilization_pct", t)
    ensures Allow(t) in RangeOps(r, discrete) <==> Replacement(r, discrete, "daily_demand_range", t)
  {
    hide Get, ViNumber, PurchaseCostDisplay, Truthy, Show;
  }

  lemma RepeatsReplacements(r: Record, discrete: Value -> bool, o: seq<string>, t: string)
    requires IsRateOrder(o)
    ensures Allow(t) in AllRateOps(r, o) + CostOps(r) + RangeOps(r, discrete) + BudgetOps(r) <==>
      exists k :: Replacement(r, discrete, k, t)
  {
    hide Get, AllRateOps, CostOps, RangeOps, BudgetOps, RangeText, ViNumber, PurchaseCostDisplay, IsRateOrder;
    RateAllows(r, discrete, o, t);
    SingleAllows(r, discrete, t);
  }

  lemma AllowsIff(r: Record, discrete: Value -> bool, o: seq<string>, t: string)
    requires IsRateOrder(o)
    ensures Allow(t) in Ops(r, discrete, o) <==> Repeats(r, discrete, t)
  {
    hide Get, AllFieldOps, AllDateOps, AllRateOps, CostOps, RangeOps, BudgetOps, SpelledAs, Replacement, IsRateOrder, Places, Precision;
    RepeatsFields(r, discrete, t);
    RepeatsDates(r, t);
    RepeatsReplacements(r, discrete, o, t);
  }

  /** What may be repeated: exactly what was allowed before and what the fields give, and never the empty text. */
  lemma AllowedAre(r: Record, discrete: Value -> bool, o: seq<string>, t: string)
    requires KeyedDisplay(r) && IsRateOrder(o)
    ensures t in AllowedMentions(Contract(r, discrete, o)) <==>
      t != "" && (t in AllowedMentions(r) || Repeats(r, discrete, t))
  {
    hide Get, Put, Ops, ApplyAll, Grouping.Dedup, Ordering.Filter, Strings, Repeats, Done, Applied;
    var ops := Ops(r, discrete, o);
    var sheet := ApplyAll(Opening(r), ops);
    ContractDone(r, discrete, o);
    AllowsIff(r, discrete, o, t);
    WrittenReads(r, sheet);
    StringsOfTexts(Grouping.Dedup(Ordering.Filter(sheet.allowed, NotEmpty)));
    Ordering.FilterMember(sheet.allowed, NotEmpty);
    Grouping.DedupMembers(Ordering.Filter(sheet.allowed, NotEmpty));
    StaysAllowed(Opening(r), ops, t);
    if t in sheet.allowed { AllowedFrom(Opening(r), ops, t); }
  }

  lemma {:induction false} StaysAllowed(sheet: Sheet, ops: seq<Op>, t: string)
    ensures t in sheet.allowed || Allow(t) in ops ==> t in ApplyAll(sheet, ops).allowed
    decreases |ops|
  {
    hide Put;
    if ops != [] {
      assert ops == [ops[0]] + ops[1..];
      StaysAllowed(Applied(sheet, ops[0]), ops[1..], t);
    }
  }

  /** No other field of the record changes. */
  lemma OthersStay(r: Record, discrete: Value -> bool, o: seq<string>, k: string)
    requires Keyed(r) && k != "display_values" && k != "allowed_numeric_mentions"
    ensures Get(Contract(r, discrete, o), k) == Get(r, k) && Keyed(Contract(r, discrete, o))
    ensures Get(Contract(r, discrete, o), "display_values") == Dict(Opening(Contract(r, discrete, o)).display)
  {
    hide Get, Put, Ops, ApplyAll, Grouping.Dedup, Ordering.Filter;
    WrittenReads(r, ApplyAll(Opening(r), Ops(r, discrete, o)));
  }

  // ---------- when it raises ----------

  /** True or false stands under a key whose number would be printed. */
  predicate Untold(r: Record, k: string) {
    Get(r, k) == Bool(true) || Get(r, k) == Bool(false)
  }

  ghost predicate Told(r: Record, k: string) {
    exists x: real :: Get(r, k) == Num(x)
  }

  /**
   The contract raises exactly when a rate, the total cost, the utilisation of a budget status, or an end of a range
   that would be shown is true or false.
   */
  lemma RaisesIff(r: Record)
    ensures Raises(r) <==>
      || (exists k :: RateKey(k) && Untold(r, k))
      || Untold(r, "total_purchase_cost")
      || (Get(r, "type") == Str("BUDGET_STATUS") && Untold(r, "budget_utilization_pct"))
      || (&& Get(r, "type") == Str("DEMAND_HORIZON_SUMMARY") && Truthy(Get(r, "unit"))
          && (Untold(r, "daily_p50_min") || Untold(r, "daily_p50_max"))
          && (Untold(r, "daily_p50_min") || Told(r, "daily_p50_min"))
          && (Untold(r, "daily_p50_max") || Told(r, "daily_p50_max")))
  {
    hide Get, Truthy;
    forall k
      ensures Untold(r, k) <==> Get(r, k).Bool?
      ensures Told(r, k) <==> Get(r, k).Num?
    {
      if Get(r, k).Num? { assert Get(r, k) == Num(Get(r, k).n); }
    }
    if k :| RateKey(k) && Untold(r, k) { assert k in RATE_KEYS && Get(r, k).Bool?; }
    if k :| k in RATE_KEYS && Get(r, k).Bool? { assert RateKey(k) && Untold(r, k); }
  }
}
