/**
 The display contract of an evidence record: `add_numeric_display_contract` of app/decision_intelligence/display.py,
 lines 51 to 110.

 The rate keys are a Python set, so the order they are visited in is a parameter; so is the question whether a unit is
 counted in whole pieces.
 */
module DisplayContract {
  import opened Text
  import opened Records
  import opened Ordering
  import opened Grouping
  import opened Display
  import NumericAuthority
  import NumberCheck

  /** One effect on the display values or on the allowed mentions. */
  datatype Op = Default(key: string, text: string) | Assign(key: string, text: string) | Allow(text: string)

  datatype Sheet = Sheet(display: Record, allowed: seq<string>)

  const RATE_KEYS := {"expected_fill_rate", "fill_rate", "stockout_probability"}
  const COST_KEYS := {"total_purchase_cost", "purchase_cost"}

  function English(text: string): string {
    ReplaceFrom(text, ",", ".", 0)
  }

  /** _precision_for_unit */
  function Precision(discrete: Value -> bool, unit: Value): nat {
    if Truthy(unit) && discrete(unit) then 0 else 2
  }

  // ---------- the effects of a record ----------

  /** allow(key, value) on a number */
  function NumberOps(key: string, x: real, decimals: nat): seq<Op> {
    var text := ViNumber(x, decimals);
    var positive := ViNumber(-x, decimals);
    [Default(key, text), Allow(text), Allow(English(text))]
    + if x < 0.0 then [Allow(positive), Allow(English(positive))] else []
  }

  function FieldOps(f: (string, Value), decimals: nat): seq<Op> {
    if f.0 in COST_KEYS || f.0 in RATE_KEYS || !f.1.Num? then [] else NumberOps(f.0, f.1.n, decimals)
  }

  predicate IsDate(f: (string, Value)) {
    NumericAuthority.EndsWith(f.0, "_date") && f.1.Str? && |f.1.text| == 10 && f.1.text[4] == '-'
  }

  function DateOps(f: (string, Value)): seq<Op> {
    if !IsDate(f) then []
    else
      var shown := f.1.text[8..10] + "/" + f.1.text[5..7];
      [Default(f.0, shown), Allow(f.1.text), Allow(shown)]
  }

  function AllFieldOps(fields: Record, decimals: nat): seq<Op> {
    if fields == [] then [] else FieldOps(fields[0], decimals) + AllFieldOps(fields[1..], decimals)
  }

  function AllDateOps(fields: Record): seq<Op> {
    if fields == [] then [] else DateOps(fields[0]) + AllDateOps(fields[1..])
  }

  function Shown(key: string, text: string): seq<Op> {
    [Assign(key, text), Allow(text)]
  }

  function RateOps(record: Record, key: string): seq<Op> {
    match Get(record, key)
    case Num(x) => Shown(key, ViNumber(x * 100.0, 2) + "%")
    case _ => []
  }

  function AllRateOps(record: Record, keys: seq<string>): seq<Op> {
    if keys == [] then [] else RateOps(record, keys[0]) + AllRateOps(record, keys[1..])
  }

  function CostOps(record: Record): seq<Op> {
    match Get(record, "total_purchase_cost")
    case Num(x) => Shown("total_purchase_cost", PurchaseCostDisplay(x))
    case _ => []
  }

  function RangeOps(record: Record, discrete: Value -> bool): seq<Op> {
    var unit := Get(record, "unit");
    if Get(record, "type") != Str("DEMAND_HORIZON_SUMMARY") || !Truthy(unit) then []
    else match (Get(record, "daily_p50_min"), Get(record, "daily_p50_max"))
      case (Num(low), Num(high)) =>
        var decimals := Precision(discrete, Str(Show(unit)));
        Shown("daily_demand_range", ViNumber(low, decimals) + "–" + ViNumber(high, decimals) + " " + Show(unit) + "/ngày")
      case _ => []
  }

  function BudgetOps(record: Record): seq<Op> {
    match Get(record, "budget_utilization_pct")
    case Num(x) =>
      if Get(record, "type") == Str("BUDGET_STATUS") then Shown("budget_utilization_pct", ViNumber(x, 2) + "%") else []
    case _ => []
  }

  /** All effects, in order. */
  function Ops(record: Record, discrete: Value -> bool, rateOrder: seq<string>): seq<Op> {
    AllFieldOps(record, Precision(discrete, Get(record, "unit"))) + AllRateOps(record, rateOrder) + AllDateOps(record)
    + CostOps(record) + RangeOps(record, discrete) + BudgetOps(record)
  }

  /** A boolean where a number is printed: Decimal("True") raises. */
  predicate Raises(record: Record) {
    || (exists k | k in RATE_KEYS :: Get(record, k).Bool?)
    || Get(record, "total_purchase_cost").Bool?
    || (&& Get(record, "type") == Str("DEMAND_HORIZON_SUMMARY") && Truthy(Get(record, "unit"))
        && IsNumber(Get(record, "daily_p50_min")) && IsNumber(Get(record, "daily_p50_max"))
        && (Get(record, "daily_p50_min").Bool? || Get(record, "daily_p50_max").Bool?))
    || (Get(record, "type") == Str("BUDGET_STATUS") && Get(record, "budget_utilization_pct").Bool?)
  }

  /** isinstance(value, (int, float)) */
  predicate IsNumber(v: Value) {
    v.Num? || v.Bool?
  }

  // ---------- applying them ----------

  function Applied(sheet: Sheet, op: Op): Sheet {
    match op
    case Default(key, text) => if Has(sheet.display, key) then sheet else sheet.(display := Put(sheet.display, key, Str(text)))
    case Assign(key, text) => sheet.(display := Put(sheet.display, key, Str(text)))
    case Allow(text) => sheet.(allowed := sheet.allowed + [text])
  }

  function ApplyAll(sheet: Sheet, ops: seq<Op>): Sheet
    decreases |ops|
  {
    if ops == [] then sheet else ApplyAll(Applied(sheet, ops[0]), ops[1..])
  }

  function Opening(record: Record): Sheet {
    Sheet(match Get(record, "display_values") case Dict(fields) => fields case _ => [],
          match Get(record, "allowed_numeric_mentions") case List(items) => Strings(items) case _ => [])
  }

  predicate NotEmpty(s: string) {
    s != ""
  }

  function Texts(ss: seq<string>): seq<Value> {
    seq(|ss|, i requires 0 <= i < |ss| => Str(ss[i]))
  }

  function Written(record: Record, sheet: Sheet): Record {
    Put(Put(record, "display_values", Dict(sheet.display)),
        "allowed_numeric_mentions", List(Texts(Dedup(Filter(sheet.allowed, NotEmpty)))))
  }

  function Contract(record: Record, discrete: Value -> bool, rateOrder: seq<string>): Record {
    Written(record, ApplyAll(Opening(record), Ops(record, discrete, rateOrder)))
  }

  lemma {:induction false} ApplyAppend(sheet: Sheet, a: seq<Op>, b: seq<Op>)
    ensures ApplyAll(sheet, a + b) == ApplyAll(ApplyAll(sheet, a), b)
    decreases |a|
  {
    if a == [] {
      assert a + b == b;
    } else {
      ApplyAppend(Applied(sheet, a[0]), a[1..], b);
      var ab := a + b;
      assert ab[0] == a[0] && ab[1..] == a[1..] + b;
    }
  }

  // ---------- the method ----------

  /** The loop over the fields, with `allow` inlined. */
  method AllowFields(sheet: Sheet, record: Record, decimals: nat) returns (r: Sheet)
    ensures r == ApplyAll(sheet, AllFieldOps(record, decimals))
  {
    hide Applied, ViNumber, English;
    r := sheet;
    for i := 0 to |record|
      invariant ApplyAll(r, AllFieldOps(record[i..], decimals)) == ApplyAll(sheet, AllFieldOps(record, decimals))
    {
      NumberCheck.Suffix(record, i);
      ApplyAppend(r, FieldOps(record[i], decimals), AllFieldOps(record[i + 1..], decimals));
      if record[i].0 !in COST_KEYS && record[i].0 !in RATE_KEYS && record[i].1.Num? {
        r := ApplyAll(r, NumberOps(record[i].0, record[i].1.n, decimals));
      }
    }
    assert record[|record|..] == [];
  }

  method AllowRates(sheet: Sheet, record: Record, rateOrder: seq<string>) returns (r: Sheet)
    ensures r == ApplyAll(sheet, AllRateOps(record, rateOrder))
  {
    hide Applied, ViNumber;
    r := sheet;
    for i := 0 to |rateOrder|
      invariant ApplyAll(r, AllRateOps(record, rateOrder[i..])) == ApplyAll(sheet, AllRateOps(record, rateOrder))
    {
      NumberCheck.Suffix(rateOrder, i);
      ApplyAppend(r, RateOps(record, rateOrder[i]), AllRateOps(record, rateOrder[i + 1..]));
      r := ApplyAll(r, RateOps(record, rateOrder[i]));
    }
    assert rateOrder[|rateOrder|..] == [];
  }

  method AllowDates(sheet: Sheet, record: Record) returns (r: Sheet)
    ensures r == ApplyAll(sheet, AllDateOps(record))
  {
    hide Applied, IsDate;
    r := sheet;
    for i := 0 to |record|
      invariant ApplyAll(r, AllDateOps(record[i..])) == ApplyAll(sheet, AllDateOps(record))
    {
      NumberCheck.Suffix(record, i);
      ApplyAppend(r, DateOps(record[i]), AllDateOps(record[i + 1..]));
      r := ApplyAll(r, DateOps(record[i]));
    }
    assert record[|record|..] == [];
  }

  /** add_numeric_display_contract; None where it raises */
  method AddNumericDisplayContract(record: Record, discrete: Value -> bool,
      rateOrder: seq<string>) returns (r: Option<Record>)
    ensures r.None? <==> Raises(record)
    ensures r.Some? ==> r.value == Contract(record, discrete, rateOrder)
  {
    hide ApplyAll, AllFieldOps, AllRateOps, AllDateOps, CostOps, RangeOps, BudgetOps, Get, Opening, Written, Raises;
    if Raises(record) {
      return None;
    }
    var decimals := Precision(discrete, Get(record, "unit"));
    var sheet := Opening(record);
    var fields, rates, dates := AllFieldOps(record, decimals), AllRateOps(record, rateOrder), AllDateOps(record);
    ApplyAppend(sheet, fields, rates);
    ApplyAppend(sheet, fields + rates, dates);
    ApplyAppend(sheet, fields + rates + dates, CostOps(record));
    ApplyAppend(sheet, fields + rates + dates + CostOps(record), RangeOps(record, discrete));
    ApplyAppend(sheet, fields + rates + dates + CostOps(record) + RangeOps(record, discrete), BudgetOps(record));
    sheet := AllowFields(sheet, record, decimals);
    sheet := AllowRates(sheet, record, rateOrder);
    sheet := AllowDates(sheet, record);
    sheet := ApplyAll(sheet, CostOps(record));
    sheet := ApplyAll(sheet, RangeOps(record, discrete));
    sheet := ApplyAll(sheet, BudgetOps(record));
    r := Some(Written(record, sheet));
  }

  // ---------- idempotence ----------

  /** Assignments to one key agree. */
  ghost predicate Agreeing(ops: seq<Op>) {
    forall a, b | a in ops && b in ops && a.Assign? && b.Assign? && a.key == b.key :: a.text == b.text
  }

  /** The sheet already shows what the operation would do. */
  ghost predicate Done(sheet: Sheet, op: Op) {
    match op
    case Default(key, _) => Has(sheet.display, key)
    case Assign(key, text) => Has(sheet.display, key) && Get(sheet.display, key) == Str(text)
    case Allow(text) => text in sheet.allowed
  }

  lemma AppliedDone(sheet: Sheet, op: Op)
    requires Keyed(sheet.display)
    ensures Done(Applied(sheet, op), op) && Keyed(Applied(sheet, op).display)
  {
    hide Get, Put;
    if !op.Allow? { PutGet(sheet.display, op.key, Str(op.text)); }
  }

  /** A later operation does not undo an earlier one that it agrees with. */
  lemma DoneStays(sheet: Sheet, op: Op, next: Op)
    requires Keyed(sheet.display) && Done(sheet, op)
    requires op.Assign? && next.Assign? && op.key == next.key ==> op.text == next.text
    ensures Done(Applied(sheet, next), op)
  {
    hide Get, Put;
    if !next.Allow? { PutGet(sheet.display, next.key, Str(next.text)); }
  }

  lemma {:induction false} AllDone(sheet: Sheet, before: seq<Op>, ops: seq<Op>)
    requires Keyed(sheet.display) && Agreeing(before + ops) && forall op | op in before :: Done(sheet, op)
    ensures Keyed(ApplyAll(sheet, ops).display)
    ensures forall op | op in before + ops :: Done(ApplyAll(sheet, ops), op)
    decreases |ops|
  {
    hide Done, Applied;
    if ops == [] {
      assert before + ops == before;
    } else {
      var next := ops[0];
      var seen := before + [next];
      assert before + ops == seen + ops[1..];
      AppliedDone(sheet, next);
      forall op | op in seen
        ensures Done(Applied(sheet, next), op)
      {
        if op in before {
          assert op in before + ops && next in before + ops;
          DoneStays(sheet, op, next);
        }
      }
      AllDone(Applied(sheet, next), seen, ops[1..]);
    }
  }

  // ---------- the same record has the same effects ----------

  lemma {:induction false} InFieldOps(fields: Record, decimals: nat, op: Op)
    ensures op in AllFieldOps(fields, decimals) <==> exists f :: f in fields && op in FieldOps(f, decimals)
  {
    hide FieldOps;
    if fields != [] {
      InFieldOps(fields[1..], decimals, op);
      assert fields == [fields[0]] + fields[1..];
    }
  }

  lemma {:induction false} InDateOps(fields: Record, op: Op)
    ensures op in AllDateOps(fields) <==> exists f :: f in fields && op in DateOps(f)
  {
    hide DateOps;
    if fields != [] {
      InDateOps(fields[1..], op);
      assert fields == [fields[0]] + fields[1..];
    }
  }

  lemma {:induction false} InRateOps(record: Record, keys: seq<string>, op: Op)
    ensures op in AllRateOps(record, keys) <==> exists k :: k in keys && op in RateOps(record, k)
  {
    hide RateOps;
    if keys != [] {
      InRateOps(record, keys[1..], op);
      assert keys == [keys[0]] + keys[1..];
    }
  }

  /** The keys the contract writes. */
  predicate ContractKey(k: string) {
    k == "display_values" || k == "allowed_numeric_mentions"
  }

  ghost predicate IsRateOrder(keys: seq<string>) {
    forall k :: k in keys <==> k in RATE_KEYS
  }

  /** `w` is `r` with other values that are neither numbers nor texts under the contract's own keys. */
  ghost predicate Rewritten(r: Record, w: Record) {
    && (forall k | !ContractKey(k) :: Get(w, k) == Get(r, k))
    && forall f | f in w :: f in r || f.1.Dict? || f.1.List?
  }

  lemma RewrittenOps(r: Record, w: Record, discrete: Value -> bool, o1: seq<string>, o2: seq<string>, op: Op)
    requires Rewritten(r, w) && IsRateOrder(o1) && IsRateOrder(o2) && op in Ops(w, discrete, o2)
    ensures op in Ops(r, discrete, o1)
  {
    hide Get, AllFieldOps, AllDateOps, AllRateOps, CostOps, RangeOps, BudgetOps, Rewritten, IsRateOrder;
    RewrittenFields(r, w, discrete, op);
    RewrittenRates(r, w, o1, o2, op);
    RewrittenSingles(r, w, discrete);
  }

  lemma RewrittenFields(r: Record, w: Record, discrete: Value -> bool, op: Op)
    requires Rewritten(r, w)
    ensures Precision(discrete, Get(w, "unit")) == Precision(discrete, Get(r, "unit"))
    ensures op in AllFieldOps(w, Precision(discrete, Get(w, "unit"))) ==> op in AllFieldOps(r, Precision(discrete, Get(r, "unit")))
    ensures op in AllDateOps(w) ==> op in AllDateOps(r)
  {
    hide Get, AllFieldOps, AllDateOps, NumberOps;
    var decimals := Precision(discrete, Get(r, "unit"));
    assert Get(w, "unit") == Get(r, "unit");
    InFieldOps(w, decimals, op);
    InFieldOps(r, decimals, op);
    InDateOps(w, op);
    InDateOps(r, op);
  }

  lemma RewrittenRates(r: Record, w: Record, o1: seq<string>, o2: seq<string>, op: Op)
    requires Rewritten(r, w) && IsRateOrder(o1) && IsRateOrder(o2)
    ensures op in AllRateOps(w, o2) ==> op in AllRateOps(r, o1)
  {
    hide Get, AllRateOps, RateOps;
    InRateOps(w, o2, op);
    InRateOps(r, o1, op);
    SameRates(r, w);
  }

  lemma RewrittenSingles(r: Record, w: Record, discrete: Value -> bool)
    requires Rewritten(r, w)
    ensures CostOps(w) == CostOps(r) && BudgetOps(w) == BudgetOps(r) && RangeOps(w, discrete) == RangeOps(r, discrete)
  {
    hide Get, ViNumber, PurchaseCostDisplay, Rewritten, Show, Truthy, Shown;
    RewrittenGets(r, w);
  }

  lemma RewrittenGets(r: Record, w: Record)
    requires Rewritten(r, w)
    ensures Get(w, "total_purchase_cost") == Get(r, "total_purchase_cost") && Get(w, "type") == Get(r, "type")
    ensures Get(w, "budget_utilization_pct") == Get(r, "budget_utilization_pct") && Get(w, "unit") == Get(r, "unit")
    ensures Get(w, "daily_p50_min") == Get(r, "daily_p50_min") && Get(w, "daily_p50_max") == Get(r, "daily_p50_max")
  {
    hide Get;
    assert !ContractKey("total_purchase_cost") && !ContractKey("budget_utilization_pct") && !ContractKey("type");
    assert !ContractKey("unit") && !ContractKey("daily_p50_min") && !ContractKey("daily_p50_max");
  }

  lemma SameRates(r: Record, w: Record)
    requires Rewritten(r, w)
    ensures forall k | k in RATE_KEYS :: RateOps(w, k) == RateOps(r, k)
  {
    hide Get, ViNumber;
    assert forall k | k in RATE_KEYS :: !ContractKey(k);
  }

  /** The operations that assign a key. */
  function Assigned(r: Record, discrete: Value -> bool, key: string): seq<Op> {
    if key in RATE_KEYS then RateOps(r, key)
    else if key == "total_purchase_cost" then CostOps(r)
    else if key == "daily_demand_range" then RangeOps(r, discrete)
    else BudgetOps(r)
  }

  lemma FieldsDoNotAssign(r: Record, decimals: nat, op: Op)
    requires op.Assign?
    ensures op !in AllFieldOps(r, decimals) && op !in AllDateOps(r)
  {
    hide AllFieldOps, AllDateOps, ViNumber, English, IsDate;
    InFieldOps(r, decimals, op);
    InDateOps(r, op);
  }

  lemma RatesAssignTheirKey(r: Record, o: seq<string>, op: Op)
    requires IsRateOrder(o) && op.Assign? && op in AllRateOps(r, o)
    ensures op.key in RATE_KEYS && op in RateOps(r, op.key)
  {
    hide Get, AllRateOps, ViNumber;
    InRateOps(r, o, op);
  }

  lemma SingleKeys(r: Record, discrete: Value -> bool, op: Op)
    requires op.Assign?
    ensures op in CostOps(r) ==> op.key == "total_purchase_cost"
    ensures op in RangeOps(r, discrete) ==> op.key == "daily_demand_range"
    ensures op in BudgetOps(r) ==> op.key == "budget_utilization_pct"
  {
    hide Get, ViNumber, PurchaseCostDisplay;
  }

  lemma AssignedOnce(r: Record, discrete: Value -> bool, key: string, a: Op, b: Op)
    requires a.Assign? && b.Assign? && a in Assigned(r, discrete, key) && b in Assigned(r, discrete, key)
    ensures a.text == b.text
  {
    hide Get, ViNumber, PurchaseCostDisplay;
  }

  lemma AssignedBy(r: Record, discrete: Value -> bool, o: seq<string>, op: Op)
    requires IsRateOrder(o) && op.Assign? && op in Ops(r, discrete, o)
    ensures op in Assigned(r, discrete, op.key)
  {
    hide Get, AllFieldOps, AllDateOps, AllRateOps, CostOps, RangeOps, BudgetOps, RateOps, IsRateOrder;
    FieldsDoNotAssign(r, Precision(discrete, Get(r, "unit")), op);
    SingleKeys(r, discrete, op);
    if op in AllRateOps(r, o) { RatesAssignTheirKey(r, o, op); }
  }

  /** Every key is assigned by one part of the contract only. */
  lemma OpsAgree(r: Record, discrete: Value -> bool, o: seq<string>)
    requires IsRateOrder(o)
    ensures Agreeing(Ops(r, discrete, o))
  {
    hide Ops, Assigned, IsRateOrder;
    forall a, b | a in Ops(r, discrete, o) && b in Ops(r, discrete, o) && a.Assign? && b.Assign? && a.key == b.key
      ensures a.text == b.text
    {
      AssignedBy(r, discrete, o, a);
      AssignedBy(r, discrete, o, b);
      AssignedOnce(r, discrete, a.key, a, b);
    }
  }

  lemma {:induction false} StringsOfTexts(ss: seq<string>)
    ensures Strings(Texts(ss)) == ss
  {
    if ss != [] {
      StringsOfTexts(ss[1..]);
      assert Texts(ss)[1..] == Texts(ss[1..]) && ss == [ss[0]] + ss[1..];
    }
  }

  /** What the contract writes can be read back. */
  lemma WrittenReads(r: Record, sheet: Sheet)
    requires Keyed(r)
    ensures var w := Written(r, sheet);
      && Keyed(w) && Rewritten(r, w)
      && Opening(w) == Sheet(sheet.display, Dedup(Filter(sheet.allowed, NotEmpty)))
      && Has(w, "display_values") && Get(w, "display_values") == Dict(sheet.display)
      && Has(w, "allowed_numeric_mentions")
      && Get(w, "allowed_numeric_mentions") == List(Texts(Dedup(Filter(sheet.allowed, NotEmpty))))
  {
    hide Get, Put, Dedup, Filter, Strings;
    var mentions := Dedup(Filter(sheet.allowed, NotEmpty));
    PutGet(r, "display_values", Dict(sheet.display));
    var half := Put(r, "display_values", Dict(sheet.display));
    PutGet(half, "allowed_numeric_mentions", List(Texts(mentions)));
    StringsOfTexts(mentions);
  }

  lemma AbsorbMentions(a: seq<string>, kept: seq<string>, more: seq<string>)
    requires kept == Dedup(Filter(a, NotEmpty)) && forall t | t in more :: t in kept || t == ""
    ensures Dedup(Filter(kept + more, NotEmpty)) == kept
  {
    hide Dedup, Filter;
    FilterMember(a, NotEmpty);
    DedupMembers(Filter(a, NotEmpty));
    FilterAppend(kept, more, NotEmpty);
    FilterFixed(kept, NotEmpty);
    FilterMember(more, NotEmpty);
    Absorb(kept, Filter(more, NotEmpty));
    DedupFixed(kept);
  }

  lemma {:induction false} Absorb(a: seq<string>, b: seq<string>)
    requires Distinct(a) && forall x | x in b :: x in a
    ensures Dedup(a + b) == a
  {
    if b == [] {
      DedupFixed(a);
      assert a + b == a;
    } else {
      var p, x := b[..|b| - 1], b[|b| - 1];
      Absorb(a, p);
      DedupSnoc(a + p, x);
      assert a + b == (a + p) + [x] && x in b;
    }
  }

  /** The display values are a dictionary, if there are any. */
  ghost predicate KeyedDisplay(r: Record) {
    Keyed(r) && Keyed(Opening(r).display)
  }

  /**
   Attaching the contract twice is attaching it once, whatever order the set of rate keys is visited in each time.
   */
  lemma ContractIdempotent(r: Record, discrete: Value -> bool, o1: seq<string>, o2: seq<string>)
    requires KeyedDisplay(r) && IsRateOrder(o1) && IsRateOrder(o2)
    ensures Contract(Contract(r, discrete, o1), discrete, o2) == Contract(r, discrete, o1)
  {
    hide Get, Put, Ops, Done, Applied, ApplyAll, Agreeing, Dedup, Filter, Written, Opening, Rewritten;
    var ops := Ops(r, discrete, o1);
    var sheet := ApplyAll(Opening(r), ops);
    OpsAgree(r, discrete, o1);
    assert [] + ops == ops;
    AllDone(Opening(r), [], ops);
    WrittenReads(r, sheet);
    var w := Written(r, sheet);
    var again := Opening(w);
    var ops2 := Ops(w, discrete, o2);
    forall op | op in ops2
      ensures op in ops && Done(sheet, op)
    {
      RewrittenOps(r, w, discrete, o1, o2, op);
    }
    SecondPass(sheet, again, ops2);
    SameWritten(w, sheet, ApplyAll(again, ops2));
  }

  lemma SameWritten(w: Record, sheet: Sheet, s: Sheet)
    requires Keyed(w) && Has(w, "display_values") && Has(w, "allowed_numeric_mentions")
    requires Get(w, "display_values") == Dict(sheet.display)
    requires Get(w, "allowed_numeric_mentions") == List(Texts(Dedup(Filter(sheet.allowed, NotEmpty))))
    requires s.display == sheet.display
    requires Dedup(Filter(s.allowed, NotEmpty)) == Dedup(Filter(sheet.allowed, NotEmpty))
    ensures Written(w, s) == w
  {
    hide Get, Put, Dedup, Filter;
    PutSame(w, "display_values", Dict(s.display));
    PutSame(w, "allowed_numeric_mentions", List(Texts(Dedup(Filter(s.allowed, NotEmpty)))));
  }

  /** The second pass starts from what the first one wrote, with repeated and empty mentions left out. */
  lemma SecondPass(sheet: Sheet, again: Sheet, ops: seq<Op>)
    requires Keyed(sheet.display) && forall op | op in ops :: Done(sheet, op)
    requires again == Sheet(sheet.display, Dedup(Filter(sheet.allowed, NotEmpty)))
    ensures var s := ApplyAll(again, ops);
      && s.display == sheet.display
      && Dedup(Filter(s.allowed, NotEmpty)) == Dedup(Filter(sheet.allowed, NotEmpty))
  {
    hide Get, Put, Dedup, Filter, Applied, ApplyAll;
    var kept := Dedup(Filter(sheet.allowed, NotEmpty));
    var wide := Sheet(sheet.display, kept + [""]);
    FilterMember(sheet.allowed, NotEmpty);
    DedupMembers(Filter(sheet.allowed, NotEmpty));
    forall op | op in ops
      ensures Done(wide, op)
    {
      assert Done(sheet, op);
    }
    RepeatOn(again, wide, ops);
    var more :| ApplyAll(again, ops).allowed == again.allowed + more && forall t | t in more :: t in wide.allowed;
    AbsorbMentions(sheet.allowed, kept, more);
  }

  /** Operations that are done on `wide` change no display value, and only mention what it allows. */
  lemma {:induction false} RepeatOn(sheet: Sheet, wide: Sheet, ops: seq<Op>)
    requires Keyed(sheet.display) && wide.display == sheet.display && forall op | op in ops :: Done(wide, op)
    ensures ApplyAll(sheet, ops).display == sheet.display
    ensures exists more :: ApplyAll(sheet, ops).allowed == sheet.allowed + more && forall t | t in more :: t in wide.allowed
    decreases |ops|
  {
    hide Get, Put;
    if ops == [] {
      assert sheet.allowed == sheet.allowed + [];
    } else {
      var op := ops[0];
      assert op in ops && forall o | o in ops[1..] :: o in ops;
      if op.Assign? { PutSame(sheet.display, op.key, Str(op.text)); }
      var next := Applied(sheet, op);
      assert next.display == sheet.display;
      RepeatOn(next, wide, ops[1..]);
      var more :| ApplyAll(next, ops[1..]).allowed == next.allowed + more && forall t | t in more :: t in wide.allowed;
      var added := if op.Allow? then [op.text] + more else more;
      assert next.allowed + more == sheet.allowed + added;
    }
  }

  // ---------- what is shown may be repeated ----------

  /** Whatever the contract shows it also allows. */
  lemma OpsAllowWhatTheyShow(r: Record, discrete: Value -> bool, o: seq<string>, op: Op)
    requires op in Ops(r, discrete, o) && !op.Allow?
    ensures Allow(op.text) in Ops(r, discrete, o)
  {
    hide Get, AllFieldOps, AllDateOps, AllRateOps, ViNumber, English, PurchaseCostDisplay;
    var decimals := Precision(discrete, Get(r, "unit"));
    InFieldOps(r, decimals, op);
    InFieldOps(r, decimals, Allow(op.text));
    InDateOps(r, op);
    InDateOps(r, Allow(op.text));
    InRateOps(r, o, op);
    InRateOps(r, o, Allow(op.text));
  }

  /** A display value was there before, or some operation gave it. */
  lemma {:induction false} ShownFrom(sheet: Sheet, ops: seq<Op>, key: string)
    requires Keyed(sheet.display) && Has(ApplyAll(sheet, ops).display, key)
    ensures var v := Get(ApplyAll(sheet, ops).display, key);
      || (Has(sheet.display, key) && Get(sheet.display, key) == v)
      || exists op :: op in ops && !op.Allow? && op.key == key && v == Str(op.text)
    decreases |ops|
  {
    hide Get, Put;
    if ops != [] {
      var op := ops[0];
      assert ops == [op] + ops[1..];
      if !op.Allow? { PutGet(sheet.display, op.key, Str(op.text)); }
      ShownFrom(Applied(sheet, op), ops[1..], key);
    }
  }

  /** The operation is one of the contract's and its text is what the record ends up showing. */
  predicate Shows(r: Record, discrete: Value -> bool, o: seq<string>, op: Op) {
    && op in Ops(r, discrete, o) && !op.Allow?
    && Get(Opening(Contract(r, discrete, o)).display, op.key) == Str(op.text)
  }

  lemma ContractDone(r: Record, discrete: Value -> bool, o: seq<string>)
    requires KeyedDisplay(r) && IsRateOrder(o)
    ensures var sheet := ApplyAll(Opening(r), Ops(r, discrete, o));
      && (forall op | op in Ops(r, discrete, o) :: Done(sheet, op))
      && Opening(Contract(r, discrete, o)).display == sheet.display
  {
    hide Get, Put, Ops, Done, Applied, ApplyAll, Agreeing, Dedup, Filter, Written, Opening, Rewritten;
    var ops := Ops(r, discrete, o);
    OpsAgree(r, discrete, o);
    assert [] + ops == ops;
    AllDone(Opening(r), [], ops);
    WrittenReads(r, ApplyAll(Opening(r), ops));
  }

  /**
   Every display value of the result is shown by one of the contract's operations or was there before; a value that was
   there is overwritten by every operation that assigns its key.
   */
  lemma ShownOrKept(r: Record, discrete: Value -> bool, o: seq<string>, key: string)
    requires KeyedDisplay(r) && IsRateOrder(o)
    requires Has(Opening(Contract(r, discrete, o)).display, key)
    ensures
      || (exists op :: Shows(r, discrete, o, op) && op.key == key)
      || (&& Has(Opening(r).display, key)
          && Get(Opening(Contract(r, discrete, o)).display, key) == Get(Opening(r).display, key)
          && forall op | op in Ops(r, discrete, o) && op.Assign? :: op.key != key)
  {
    hide Get, Put, Ops, Applied, ApplyAll, Agreeing, Dedup, Filter, Written, Opening, Rewritten, Contract;
    var ops := Ops(r, discrete, o);
    ContractDone(r, discrete, o);
    ShownFrom(Opening(r), ops, key);
    if op :| op in ops && op.Assign? && op.key == key {
      assert Shows(r, discrete, o, op);
    } else if op :| op in ops && !op.Allow? && op.key == key
                    && Get(ApplyAll(Opening(r), ops).display, key) == Str(op.text) {
      assert Shows(r, discrete, o, op);
    }
  }

  /** What an operation of the contract prints is an allowed mention of the record, and read whole it is a fact of it. */
  lemma ShownIsAllowed(u: Unicode, r: Record, discrete: Value -> bool, o: seq<string>, op: Op)
    requires KeyedDisplay(r) && IsRateOrder(o) && op in Ops(r, discrete, o) && !op.Allow? && op.text != ""
    ensures var w := Contract(r, discrete, o);
      && op.text in NumericAuthority.AllowedMentions(w)
      && (NumericAuthority.ParseMention(u, op.text).Some? ==>
            NumericAuthority.Authorized(NumericAuthority.ParseMention(u, op.text).value, NumericAuthority.ItemFacts(u, w), false))
  {
    hide Get, Put, Ops, ApplyAll, Agreeing, Dedup, Filter, Opening, Rewritten, Written;
    hide NumericAuthority.ParseMention, NumericAuthority.FieldFacts, NumericAuthority.LegacyFacts;
    var w := Contract(r, discrete, o);
    ContractDone(r, discrete, o);
    OpsAllowWhatTheyShow(r, discrete, o, op);
    var sheet := ApplyAll(Opening(r), Ops(r, discrete, o));
    assert Done(sheet, Allow(op.text));
    AllowedIs(r, sheet, op.text);
    if NumericAuthority.ParseMention(u, op.text).Some? {
      NumberCheck.DisplaySelfAuthorised(u, w, NumericAuthority.AllowedMentions(w), op.text);
    }
  }

  lemma AllowedIs(r: Record, sheet: Sheet, text: string)
    requires Keyed(r) && text in sheet.allowed && text != ""
    ensures text in NumericAuthority.AllowedMentions(Written(r, sheet))
  {
    hide Get, Put, Dedup, Filter, Strings;
    WrittenReads(r, sheet);
    FilterMember(sheet.allowed, NotEmpty);
    DedupMembers(Filter(sheet.allowed, NotEmpty));
    StringsOfTexts(Dedup(Filter(sheet.allowed, NotEmpty)));
  }
}
