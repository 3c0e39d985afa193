/** Evidence records that allow a display and refuse the sentence that repeats it. */
module RefusedDisplays {
  import opened Text
  import opened Records
  import opened Decimals
  import opened Display
  import opened NumericAuthority
  import opened FieldAuthority
  import opened NumericRoundTrip
  import opened DisplayProofs
  import MoneyDisplay
  import opened NumberCheck
  import opened Endings
  import opened PrintedMentions
  import opened NegativeMentions
  import opened PrintedVerdicts
  import opened DisplayContract
  import opened ContractFacts
  import opened ShownNumbers
  import opened MeasureSentences

  // ---------- the values of a record's facts ----------

  /** Flat, and its numbers are shown as plain numbers or as rates. */
  ghost predicate OnlyQuantities(r: Record) {
    Flat(r) && forall f | f in r && f.1.Num? :: f.0 !in COST_KEYS && f.0 != "budget_utilization_pct"
  }

  /** The number of a field, that as a percentage, or what its display reads as. */
  predicate ValueOf(f: (string, Value), decimals: nat, value: real)
    requires f.1.Num?
  {
    || value == f.1.n || value == f.1.n * 100.0 || value == Seen(Units(f.1.n, decimals))
    || (f.0 in RATE_KEYS && value == Seen(Units(f.1.n * 100.0, 2)))
  }

  lemma {:induction false} EnglishFrom(s: string, t: string, i: nat)
    requires i <= |s| == |t| && forall k | 0 <= k < |s| :: t[k] == if s[k] == ',' then '.' else s[k]
    ensures ReplaceFrom(s, ",", ".", i) == t[i..]
    decreases |s| - i
  {
    hide At;
    if i < |s| {
      CommaAt(s, i);
      EnglishFrom(s, t, i + 1);
      assert t[i..] == [t[i]] + t[i + 1..];
    }
  }

  /** A number without commas is the same in English. */
  lemma EnglishSame(s: string)
    requires ',' !in s
    ensures English(s) == s
  {
    EnglishFrom(s, s, 0);
    assert s[0..] == s;
  }

  lemma EnglishComma(a: string, f: string)
    requires ',' !in a && ',' !in f
    ensures English(a + ([','] + f)) == a + (['.'] + f)
  {
    EnglishFrom(a + ([','] + f), a + (['.'] + f), 0);
    assert (a + (['.'] + f))[0..] == a + (['.'] + f);
  }

  lemma NoComma(u: Unicode, negative: bool, n: nat)
    requires u.Numerals()
    ensures ',' !in Sign(negative) + Grouped(n, '.')
  {
    GroupedDigits(u, n);
  }

  lemma EnglishFraction(u: Unicode, negative: bool, n: nat, f: nat)
    requires u.Valid() && 0 < f < 100
    ensures English(Sign(negative) + (Grouped(n, '.') + ([','] + FractionText(f))))
         == Sign(negative) + (Grouped(n, '.') + (['.'] + FractionText(f)))
    ensures ParseMention(u, Sign(negative) + (Grouped(n, '.') + (['.'] + FractionText(f))))
         == Some(Parsed(if n < 1000 then n as real + f as real / 100.0 else n as real, None, None))
  {
    hide ParseMention, FractionText, Grouped, TokenEnd, ParseDecimal, English;
    var g, t := Grouped(n, '.'), FractionText(f);
    var body := g + (['.'] + t);
    FractionRead(u, f);
    NoComma(u, negative, n);
    EnglishComma(Sign(negative) + g, t);
    assert Sign(negative) + (g + ([','] + t)) == (Sign(negative) + g) + ([','] + t);
    assert Sign(negative) + body == (Sign(negative) + g) + (['.'] + t);
    assert ['.'] + t + "" == ['.'] + t;
    ShortFractionToken(u, body, n, '.', t, "");
    GroupedNumeric(n);
    MoneyDisplay.ReadSigned(u, negative, body, if n < 1000 then n as real + f as real / 100.0 else n as real);
  }

  /** The English spelling of a shown number reads like the Vietnamese one. */
  lemma EnglishRead(u: Unicode, x: real, d: nat)
    requires u.Valid() && (d == 0 || d == 2)
    ensures ParseMention(u, ViNumber(x, d)) == Some(Parsed(Seen(Units(x, d)), None, None))
    ensures ParseMention(u, English(ViNumber(x, d))) == Some(Parsed(Seen(Units(x, d)), None, None))
  {
    hide ParseMention, ViNumber, Units, Hundredths, FractionText, Grouped, English, Seen;
    var m := Units(x, d);
    var n, f := m / 100, m % 100;
    ViSpelled(x, d);
    ReadHundredths(u, x < 0.0, m);
    HundredthsText(m);
    if f == 0 {
      NoComma(u, x < 0.0, n);
      EnglishSame(ViNumber(x, d));
    } else {
      EnglishFraction(u, x < 0.0, n, f);
    }
  }

  lemma SameUnits(x: real, d: nat)
    ensures Units(-x, d) == Units(x, d)
  {}

  lemma TextValue(u: Unicode, key: string, x: real, d: nat, t: string)
    requires u.Valid() && (d == 0 || d == 2) && Allow(t) in NumberOps(key, x, d)
    ensures ParseMention(u, t) == Some(Parsed(Seen(Units(x, d)), None, None))
  {
    hide ParseMention, ViNumber, Units, English, Seen;
    EnglishRead(u, x, d);
    EnglishRead(u, -x, d);
    SameUnits(x, d);
  }

  predicate IsRate(f: (string, Value), t: string)
    requires f.1.Num?
  {
    f.0 in RATE_KEYS && t == ViNumber(f.1.n * 100.0, 2) + "%"
  }

  predicate Prints(f: (string, Value), decimals: nat, t: string) {
    f.1.Num? && (Allow(t) in NumberOps(f.0, f.1.n, decimals) || IsRate(f, t))
  }

  lemma AllowedField(r: Record, discrete: Value -> bool, o: seq<string>, t: string)
    requires OnlyQuantities(r) && IsRateOrder(o) && Allow(t) in Ops(r, discrete, o)
    ensures exists f :: f in r && Prints(f, Precision(discrete, Get(r, "unit")), t)
  {
    hide AllFieldOps, AllDateOps, AllRateOps, NumberOps, IsDate, Get, IsRateOrder, Flat, ViNumber;
    var d, op := Precision(discrete, Get(r, "unit")), Allow(t);
    InFieldOps(r, d, op);
    InDateOps(r, op);
    InRateOps(r, o, op);
    NoTotals(r);
    FlatNoDates(r);
    if k :| k in o && op in RateOps(r, k) {
      FlatBasics(r);
      RateKey(o, k);
      GetNumber(r, k);
      var f :| f in r && f.0 == k && f.1.Num? && f.1 == Get(r, k);
      assert IsRate(f, t) && Prints(f, d, t);
    } else if f :| f in r && op in FieldOps(f, d) {
      assert Prints(f, d, t);
    }
  }

  lemma RateKey(o: seq<string>, k: string)
    requires IsRateOrder(o) && k in o
    ensures k in RATE_KEYS
  {}

  lemma FlatNoDates(r: Record)
    requires Flat(r)
    ensures (forall f | f in r :: !IsDate(f)) && Get(r, "type") != Str("DEMAND_HORIZON_SUMMARY")
  {}

  lemma GetNumber(r: Record, key: string)
    requires Keyed(r) && Get(r, key).Num?
    ensures exists f :: f in r && f.0 == key && f.1.Num? && f.1 == Get(r, key)
  {
    hide Get;
    if !Has(r, key) { GetAbsent(r, key); }
    var f :| f in r && f.0 == key;
    var i :| 0 <= i < |r| && r[i] == f;
    GetAt(r, i);
  }

  lemma NoTotals(r: Record)
    requires OnlyQuantities(r)
    ensures CostOps(r) == [] && BudgetOps(r) == []
  {
    hide Get, IsDate;
    forall k | k == "total_purchase_cost" || k == "budget_utilization_pct"
      ensures !Get(r, k).Num?
    {
      if Get(r, k).Num? { GetNumber(r, k); }
    }
  }

  lemma FieldValue(u: Unicode, w: Record, f: (string, Value), fact: Fact)
    requires fact in FieldFact(u, w, f)
    ensures f.1.Num? && (fact.value == f.1.n || fact.value == f.1.n * 100.0)
  {
    hide ItemUnit, EvidenceId, FieldDisplay, ContainsAny, Contains;
  }

  lemma RateValue(u: Unicode, x: real)
    requires u.Valid()
    ensures var p := ParseMention(u, ViNumber(x * 100.0, 2) + "%"); p.Some? && p.value.value == Seen(Units(x * 100.0, 2))
  {
    hide ParseMention, ViNumber, Units, Seen;
    PercentRead(u, x * 100.0);
  }

  lemma PrintedValue(u: Unicode, w: Record, f: (string, Value), d: nat, t: string, fact: Fact)
    requires u.Valid() && (d == 0 || d == 2) && Prints(f, d, t) && fact in DisplayFact(u, w, t)
    ensures f.1.Num? && ValueOf(f, d, fact.value)
  {
    hide ParseMention, Units, Seen, NumberOps, ViNumber, ItemUnit, EvidenceId;
    if IsRate(f, t) { RateValue(u, f.1.n); } else { TextValue(u, f.0, f.1.n, d, t); }
  }

  /** Every fact of such a record has the value of one of its numbers, that as a percentage, or that of its display. */
  lemma FactValue(u: Unicode, r: Record, discrete: Value -> bool, o: seq<string>, fact: Fact)
    requires u.Valid() && OnlyQuantities(r) && IsRateOrder(o) && fact in ItemFacts(u, Contract(r, discrete, o))
    ensures exists f :: f in r && f.1.Num? && ValueOf(f, Precision(discrete, Get(r, "unit")), fact.value)
  {
    hide Get, Contract, FieldFacts, LegacyFacts, FieldFact, DisplayFact, AllowedMentions, Flat, IsRateOrder, Prints, Ops;
    hide EffectiveValues, Units, Seen, Opening;
    var w, d := Contract(r, discrete, o), Precision(discrete, Get(r, "unit"));
    FlatBasics(r);
    ContractFields(r, discrete, o);
    if fact in FieldFacts(u, w, w) {
      FieldFactFrom(u, w, w, fact);
      var f :| f in w && fact in FieldFact(u, w, f);
      FieldValue(u, w, f, fact);
      assert f in r && ValueOf(f, d, fact.value);
    } else {
      LegacyFactFrom(u, w, AllowedMentions(w), fact);
      var t :| t in AllowedMentions(w) && fact in DisplayFact(u, w, t);
      ContractAllows(r, discrete, o, t);
      FlatIsKeyed(r);
      AllowedField(r, discrete, o, t);
      var f :| f in r && Prints(f, d, t);
      PrintedValue(u, w, f, d, t, fact);
    }
  }

  /** A value that no tolerance brings near. */
  predicate Far(v: real, value: real) {
    v <= 0.9 * value - 2.0 || v >= 1.1 * value + 2.0
  }

  lemma FarNeverBacks(p: Parsed, fact: Fact, approximate: bool)
    requires p.value >= 0.0 && Far(fact.value, p.value)
    ensures !EquivalentOrRounded(p, fact, approximate)
  {
    var v := fact.value;
    if v > 0.0 {
      Ratio(Magnitude(p.value - v), v);
    } else if v < 0.0 {
      Ratio(Magnitude(p.value - v), -v);
    }
  }

  lemma Ratio(error: real, v: real)
    requires v > 0.0 && error > 0.03 * v
    ensures error / v > 0.03
  {
    assert error / v > (0.03 * v) / v == 0.03;
  }

  /** A number that is far from all numbers of the record and their displays is not backed by it. */
  lemma FarRefused(u: Unicode, r: Record, discrete: Value -> bool, o: seq<string>, p: Parsed, approximate: bool)
    requires u.Valid() && OnlyQuantities(r) && IsRateOrder(o) && p.value >= 0.0
    requires var d := Precision(discrete, Get(r, "unit"));
      forall f | f in r && f.1.Num? ::
        && f.0 !in RATE_KEYS && Far(f.1.n, p.value) && Far(f.1.n * 100.0, p.value) && Far(Seen(Units(f.1.n, d)), p.value)
    ensures !Authorized(p, Authority(u, [Contract(r, discrete, o)]), approximate)
  {
    hide Contract, ItemFacts, OnlyQuantities, IsRateOrder, EquivalentOrRounded, Get, Units, Seen, Far;
    OnlyItem(u, Contract(r, discrete, o));
    forall fact | fact in ItemFacts(u, Contract(r, discrete, o))
      ensures !EquivalentOrRounded(p, fact, approximate)
    {
      FactValue(u, r, discrete, o, fact);
      FarNeverBacks(p, fact, approximate);
    }
  }

  // ---------- a shortage in a stress test ----------

  function Shortage(x: real): Record {
    [("evidence_id", Str("e")), ("evidence_ids", List([Str("e")])), ("type", Str("STRESS_SHORTAGE_OBSERVED")),
     ("classification", Str("RISK_SIGNAL")), ("ingredient_id", Str("i")), ("scenario_id", Str("s")), ("unit", Str("kg")),
     ("shortage_quantity", Num(x))]
  }

  lemma ShortageKeys(x: real)
    ensures Keyed(Shortage(x))
  {}

  lemma ShortageFields(x: real)
    ensures forall f | f in Shortage(x) :: !ContractKey(f.0) && f.0 != "values" && (f.1.Num? ==> f == ("shortage_quantity", Num(x)))
    ensures forall f | f in Shortage(x) :: !IsDate(f)
  {
    assert |"STRESS_SHORTAGE_OBSERVED"| == 24 && |"RISK_SIGNAL"| == 11;
  }

  lemma ShortageAt(x: real)
    ensures |Shortage(x)| == 8 && Shortage(x)[2] == ("type", Str("STRESS_SHORTAGE_OBSERVED"))
    ensures Shortage(x)[6] == ("unit", Str("kg")) && Shortage(x)[7] == ("shortage_quantity", Num(x))
  {}

  lemma ShortageIs(x: real)
    ensures OnlyQuantities(Shortage(x)) && KeyedDisplay(Shortage(x))
    ensures Get(Shortage(x), "type") == Str("STRESS_SHORTAGE_OBSERVED") && Get(Shortage(x), "unit") == Str("kg")
    ensures ("shortage_quantity", Num(x)) in Shortage(x)
  {
    hide Get, Keyed, Shortage, IsDate;
    var r := Shortage(x);
    ShortageKeys(x);
    ShortageFields(x);
    ShortageAt(x);
    GetAt(r, 2);
    GetAt(r, 6);
    if Has(r, "values") { assert false; } else { GetAbsent(r, "values"); }
    assert r[7] in r;
    KeyNames();
    FlatIsKeyed(r);
  }

  lemma KeyNames()
    ensures "shortage_quantity" !in RATE_KEYS && "shortage_quantity" !in COST_KEYS && "shortage_quantity" != "budget_utilization_pct"
  {}

  lemma ThirteenHundredths()
    ensures Units(0.126, 2) == 13 && ViNumber(0.126, 2) == "0,13"
  {
    Thousand();
    assert HalfUp(0.126, 2) == 13;
    ViSpelled(0.126, 2);
    HundredthsText(13);
    assert Grouped(0, '.') == "0" && FractionText(13) == "13";
    assert Sign(false) + ("0" + ([','] + "13")) == "0,13";
  }

  /**
   A stress test is 0.126 kg short. "0,13" may be repeated, "0,13 kg" may not: with the unit it is a quantity, and the
   record's only quantity is 0.126.
   */
  lemma KilogramsRefused(u: Unicode, lead: string, mark: string, discrete: Value -> bool, o: seq<string>)
    requires u.Valid() && u.Matching() && Introduces(u, lead) && Mark(mark) && IsRateOrder(o) && !discrete(Str("kg"))
    ensures var w := Contract(Shortage(0.126), discrete, o);
      && "0,13" in AllowedMentions(w)
      && NumbersVerdict(u, lead + ("0,13" + mark), [w]) == Pass
      && NumbersVerdict(u, lead + ("0,13" + (" kg" + mark)), [w]) != Pass
  {
    hide Contract, Authority, IsRateOrder, NumbersVerdict, Announced, Introduces, ViNumber, Units, LeftOver, Trails;
    hide Ops, AllowedMentions, ParseMention, Get, Shortage, Measured, Flat, QuantityKey, Keyed;
    var r := Shortage(0.126);
    ShortageIs(0.126);
    ThirteenHundredths();
    var d := Precision(discrete, Get(r, "unit"));
    assert d == 2;
    MarkTrails(u, Bare, mark);
    MarkTrails(u, Kilograms, mark);
    KeyNames();
    ShownQuantityPassesIff(u, lead, mark, r, discrete, o, "shortage_quantity", 0.126);
    ShownMeasurePassesIff(u, lead, mark, r, discrete, o, "shortage_quantity", 0.126, Kilograms);
    NotLegacy();
    CountMeasuredIff(u, r, discrete, o, Kilograms, 0.13);
    ShortageFields(0.126);
    FieldShown(u, r, discrete, o, "shortage_quantity", 0.126);
    ShownIsAllowed(u, r, discrete, o, Default("shortage_quantity", "0,13"));
  }

  lemma NotLegacy()
    ensures "STRESS_SHORTAGE_OBSERVED" !in LEGACY_QUANTITY_TYPES && WithUnit(13) == 0.13
  {}

  // ---------- a quantity from 1000 on with decimals ----------

  lemma TwelveThirtyFour()
    ensures Units(1234.5, 2) == 123450 && ViNumber(1234.5, 2) == "1.234,5" && Seen(123450) == 1234.0
  {
    hide Grouped, ViNumber;
    Thousand();
    assert HalfUp(1234.5, 2) == 123450;
    ViSpelled(1234.5, 2);
    HundredthsText(123450);
    GroupedExample();
    assert FractionText(50) == "5";
    assert Sign(false) + ("1.234" + ([','] + "5")) == "1.234,5";
  }

  /**
   A stress test is 1234.5 kg short. The record shows "1.234,5" and allows it, but a sentence that repeats it never
   passes: the scanner finds 1234 and 5, and nothing in the record is 5.
   */
  lemma QuantityRefused(u: Unicode, lead: string, mark: string, discrete: Value -> bool, o: seq<string>)
    requires u.Valid() && u.Matching() && Introduces(u, lead) && Mark(mark) && IsRateOrder(o) && !discrete(Str("kg"))
    ensures var w := Contract(Shortage(1234.5), discrete, o);
      && "1.234,5" in AllowedMentions(w)
      && NumbersVerdict(u, lead + ("1.234,5" + mark), [w]) != Pass
  {
    hide Contract, Authority, IsRateOrder, NumbersVerdict, Announced, Introduces, ViNumber, Units, LeftOver, Trails, Seen;
    hide Ops, AllowedMentions, ParseMention, Get, Shortage, Authorized, OnlyQuantities, Grouped;
    var r := Shortage(1234.5);
    ShortageIs(1234.5);
    TwelveThirtyFour();
    var d := Precision(discrete, Get(r, "unit"));
    assert d == 2;
    MarkTrails(u, Bare, mark);
    KeyNames();
    ShownQuantityPassesIff(u, lead, mark, r, discrete, o, "shortage_quantity", 1234.5);
    FieldShown(u, r, discrete, o, "shortage_quantity", 1234.5);
    ShownIsAllowed(u, r, discrete, o, Default("shortage_quantity", "1.234,5"));
    FiveNotBacked(u, discrete, o, Announced(u, lead + (Grouped(123450 / 100, '.') + ",")));
  }

  lemma FiveNotBacked(u: Unicode, discrete: Value -> bool, o: seq<string>, approximate: bool)
    requires u.Valid() && IsRateOrder(o) && !discrete(Str("kg"))
    ensures !Authorized(LeftOver(50, Bare), Authority(u, [Contract(Shortage(1234.5), discrete, o)]), approximate)
  {
    hide Contract, Authority, IsRateOrder, Units, LeftOver, Seen, Get, Shortage, Authorized, OnlyQuantities, Far;
    var r := Shortage(1234.5);
    ShortageIs(1234.5);
    assert Precision(discrete, Get(r, "unit")) == 2;
    TwelveThirtyFour();
    ShortageFields(1234.5);
    KeyNames();
    FiveLeft();
    FarRefused(u, r, discrete, o, LeftOver(50, Bare), approximate);
  }

  lemma FiveLeft()
    ensures LeftOver(50, Bare).value == 5.0
    ensures Far(1234.5, 5.0) && Far(1234.5 * 100.0, 5.0) && Far(1234.0, 5.0)
  {
    assert DecimalsAlone(50) == 5;
  }

  // ---------- a negative gap ----------

  /** 1234 kg ordered against a demand of 2468 kg. */
  const GAP: Record := GAP_HEAD + GAP_TAIL

  const GAP_HEAD: Record := [
    ("evidence_id", Str("e")), ("evidence_ids", List([Str("e")])), ("type", Str("DEMAND_ORDER_ALIGNMENT")),
    ("classification", Str("DERIVED")), ("ingredient_id", Str("i")), ("unit", Str("kg")), ("ingredient_name", Null)]

  const GAP_TAIL: Record := [
    ("p50_total", Num(2468.0)), ("order_quantity_total", Num(1234.0)), ("absolute_gap", Num(-1234.0)),
    ("absolute_gap_magnitude", Num(1234.0)), ("relative_gap", Num(-0.5)), ("order_line_count", Num(1.0))]

  predicate GapNumber(x: real) {
    x == 2468.0 || x == 1234.0 || x == -1234.0 || x == -0.5 || x == 1.0
  }

  predicate GapKey(k: string) {
    || k == "p50_total" || k == "order_quantity_total" || k == "absolute_gap" || k == "absolute_gap_magnitude"
    || k == "relative_gap" || k == "order_line_count"
  }

  lemma GapFields()
    ensures forall f | f in GAP :: !ContractKey(f.0) && f.0 != "values" && (f.1.Num? ==> GapKey(f.0) && GapNumber(f.1.n))
  {
    hide GAP_HEAD, GAP_TAIL, ContractKey, GapKey, GapNumber;
    GapHead();
    GapTail();
  }

  lemma GapHead()
    ensures forall f | f in GAP_HEAD :: !ContractKey(f.0) && f.0 != "values" && !f.1.Num?
  {}

  lemma GapTail()
    ensures forall f | f in GAP_TAIL :: !ContractKey(f.0) && f.0 != "values" && GapKey(f.0) && f.1.Num? && GapNumber(f.1.n)
  {}

  lemma GapDates()
    ensures forall f | f in GAP :: !IsDate(f)
  {
    assert |"DEMAND_ORDER_ALIGNMENT"| == 22 && |"DERIVED"| == 7;
  }

  lemma GapKeyed()
    ensures Keyed(GAP)
  {
    hide GAP_HEAD, GAP_TAIL, GapKey;
    GapHeadKeyed();
    GapTailKeyed();
    forall i, j | 0 <= i < j < |GAP|
      ensures GAP[i].0 != GAP[j].0
    {
      GapIndex(i);
      GapIndex(j);
    }
  }

  lemma GapIndex(i: nat)
    requires i < |GAP|
    ensures i < |GAP_HEAD| ==> GAP[i] == GAP_HEAD[i] && GAP_HEAD[i] in GAP_HEAD
    ensures i >= |GAP_HEAD| ==> GAP[i] == GAP_TAIL[i - |GAP_HEAD|] && GAP_TAIL[i - |GAP_HEAD|] in GAP_TAIL
  {
    hide GAP_HEAD, GAP_TAIL;
  }

  lemma GapHeadKeyed()
    ensures Keyed(GAP_HEAD) && forall f | f in GAP_HEAD :: !GapKey(f.0)
  {}

  lemma GapTailKeyed()
    ensures Keyed(GAP_TAIL) && forall f | f in GAP_TAIL :: GapKey(f.0)
  {}

  lemma GapKeys(k: string)
    requires GapKey(k)
    ensures k !in RATE_KEYS && k !in COST_KEYS && k != "budget_utilization_pct"
  {}

  lemma GapAt()
    ensures |GAP| == 13 && GAP[2] == ("type", Str("DEMAND_ORDER_ALIGNMENT")) && GAP[5] == ("unit", Str("kg"))
    ensures GAP[9] == ("absolute_gap", Num(-1234.0))
  {}

  lemma GapIs()
    ensures OnlyQuantities(GAP) && KeyedDisplay(GAP) && Get(GAP, "unit") == Str("kg")
    ensures ("absolute_gap", Num(-1234.0)) in GAP
  {
    hide Get, Keyed, GAP, IsDate, GapNumber, GapKey;
    GapKeyed();
    GapFields();
    GapDates();
    GapAt();
    GetAt(GAP, 2);
    GetAt(GAP, 5);
    if Has(GAP, "values") { assert false; } else { GetAbsent(GAP, "values"); }
    assert GAP[9] in GAP;
    forall f | f in GAP && f.1.Num?
      ensures f.0 !in RATE_KEYS && f.0 !in COST_KEYS && f.0 != "budget_utilization_pct"
    {
      GapKeys(f.0);
    }
    FlatIsKeyed(GAP);
  }

  lemma WholeUnits(n: nat, x: real)
    requires x == n as real || x == -(n as real)
    ensures Units(x, 2) == 100 * n && Seen(100 * n) == n as real
  {
    Thousand();
    assert Magnitude(x) * 100.0 + 0.5 == (100 * n) as real + 0.5;
    WholeIsHundredths(n);
  }

  lemma GapFar(x: real)
    requires GapNumber(x)
    ensures Far(x, 234.0) && Far(x * 100.0, 234.0) && Far(Seen(Units(x, 2)), 234.0)
  {
    hide Units, Seen;
    if x == -0.5 {
      HalfUnits();
    } else {
      WholeUnits(Magnitude(x).Floor, x);
    }
  }

  lemma HalfUnits()
    ensures Units(-0.5, 2) == 50 && Seen(50) == 0.5
  {
    Thousand();
    assert HalfUp(-0.5, 2) == 50;
  }

  lemma MinusText()
    ensures Units(-1234.0, 2) == 123400 && ViNumber(-1234.0, 2) == "-1.234"
    ensures "-" + (Hundredths(123400) + TailOf(Bare, "")) == "-1.234"
  {
    hide Grouped, ViNumber, Units;
    WholeUnits(1234, -1234.0);
    ViSpelled(-1234.0, 2);
    HundredthsText(123400);
    GroupedExample();
    assert Hundredths(123400) == "1.234";
    assert TailOf(Bare, "") == "" && Sign(true) + "1.234" == "-1.234" == "-" + ("1.234" + "");
  }

  lemma TwoThirtyFour()
    ensures BelowWhole(123400) && BelowMention(123400, Bare) == Parsed(234.0, None, None)
  {
    assert Below(1234) == 234;
  }

  /**
   The record of a gap of -1234 kg shows "-1.234" and allows it, but a sentence that repeats it never passes: the hyphen
   shields the 1, the scanner finds 234, and nothing in the record is 234.
   */
  lemma NegativeRefused(u: Unicode, lead: string, mark: string, discrete: Value -> bool, o: seq<string>)
    requires u.Valid() && u.Matching() && Introduces(u, lead) && Mark(mark) && IsRateOrder(o) && !discrete(Str("kg"))
    ensures var w := Contract(GAP, discrete, o);
      && "-1.234" in AllowedMentions(w)
      && NumbersVerdict(u, lead + ("-1.234" + mark), [w]) != Pass
  {
    hide Contract, Authority, IsRateOrder, NumbersVerdict, Announced, Introduces, ViNumber, Units, LeftOver, Trails, Seen;
    hide Ops, AllowedMentions, ParseMention, Get, GAP, Authorized, OnlyQuantities, Grouped, Hundredths, TailOf, BelowMention;
    hide BelowWhole, Below, TopBlock, Natural, Far, GapNumber;
    GapIs();
    MinusText();
    TwoThirtyFour();
    MarkTrails(u, Bare, mark);
    var d := Precision(discrete, Get(GAP, "unit"));
    assert d == 2;
    AbsoluteGap();
    FieldShown(u, GAP, discrete, o, "absolute_gap", -1234.0);
    ShownIsAllowed(u, GAP, discrete, o, Default("absolute_gap", "-1.234"));
    var w := Contract(GAP, discrete, o);
    ShownNegativePassesIff(u, lead, mark, w, "-1.234", 123400, Bare);
    GapFields();
    forall f | f in GAP && f.1.Num?
      ensures f.0 !in RATE_KEYS && Far(f.1.n, 234.0) && Far(f.1.n * 100.0, 234.0) && Far(Seen(Units(f.1.n, d)), 234.0)
    {
      GapKeys(f.0);
      GapFar(f.1.n);
    }
    FarRefused(u, GAP, discrete, o, Parsed(234.0, None, None), Announced(u, lead + ("-" + (Natural(TopBlock(123400 / 100)) + "."))));
  }

  lemma AbsoluteGap()
    ensures "absolute_gap" !in RATE_KEYS && "absolute_gap" !in COST_KEYS
  {
    GapKeys("absolute_gap");
  }
}
