/**
 A sentence whose last number is a display value of a record, checked against that record: which of the values that
 `add_numeric_display_contract` tells the writer to repeat the number check lets through, alone and with their unit.
 */
module ShownNumbers {
  import opened Text
  import opened Records
  import opened Decimals
  import opened Display
  import opened NumericAuthority
  import opened FieldAuthority
  import opened NumericRoundTrip
  import opened DisplayProofs
  import MoneyDisplay
  import opened NumberCheck
  import opened Endings
  import opened PrintedMentions
  import opened NegativeMentions
  import opened PrintedVerdicts
  import opened DisplayContract
  import opened ContractFacts

  // ---------- what the contract shows ----------

  /** A signed number of hundredths and the words after it. */
  function Spelled(negative: bool, m: nat, e: Ending): string {
    if negative then "-" + (Hundredths(m) + TailOf(e, "")) else Hundredths(m) + TailOf(e, "")
  }

  predicate IsSpelled(text: string, negative: bool, m: nat, e: Ending) {
    text == Spelled(negative, m, e)
  }

  ghost predicate ShowsNumber(text: string) {
    exists negative, m, e :: IsSpelled(text, negative, m, e)
  }

  lemma NumberSpelled(x: real, decimals: nat, tail: string, e: Ending)
    requires (decimals == 0 || decimals == 2) && tail == TailOf(e, "")
    ensures ViNumber(x, decimals) + tail == Spelled(x < 0.0, Units(x, decimals), e)
  {
    hide Hundredths, TailOf, ViNumber, HalfUp, Sign;
    ViSpelled(x, decimals);
    SignBefore(x < 0.0, Hundredths(Units(x, decimals)), tail);
  }

  lemma SignBefore(negative: bool, a: string, b: string)
    ensures Sign(negative) + a + b == if negative then "-" + (a + b) else a + b
  {}

  lemma BareSpelled(x: real, decimals: nat)
    requires decimals == 0 || decimals == 2
    ensures ViNumber(x, decimals) == Spelled(x < 0.0, Units(x, decimals), Bare)
  {
    hide Hundredths, ViNumber, Units, Spelled;
    NumberSpelled(x, decimals, "", Bare);
    assert ViNumber(x, decimals) + "" == ViNumber(x, decimals);
  }

  lemma CostShown(x: real)
    ensures ShowsNumber(PurchaseCostDisplay(x))
  {
    hide Hundredths, ViNumber, Units, Spelled;
    if x >= 1000000.0 {
      NumberSpelled(x / 1000000.0, 2, " triệu đồng", Millions);
      assert IsSpelled(PurchaseCostDisplay(x), x / 1000000.0 < 0.0, Units(x / 1000000.0, 2), Millions);
    } else if x >= 1000.0 {
      NumberSpelled(x / 1000.0, 0, " nghìn đồng", Thousands);
      assert IsSpelled(PurchaseCostDisplay(x), x / 1000.0 < 0.0, Units(x / 1000.0, 0), Thousands);
    } else {
      NumberSpelled(x, 0, " đồng", Dongs);
      assert IsSpelled(PurchaseCostDisplay(x), x < 0.0, Units(x, 0), Dongs);
    }
  }

  lemma PercentSpelled(x: real)
    ensures ShowsNumber(ViNumber(x, 2) + "%")
  {
    hide Hundredths, ViNumber, Units, Spelled;
    NumberSpelled(x, 2, "%", Percents);
    assert IsSpelled(ViNumber(x, 2) + "%", x < 0.0, Units(x, 2), Percents);
  }

  lemma BareShown(x: real, decimals: nat)
    requires decimals == 0 || decimals == 2
    ensures ShowsNumber(ViNumber(x, decimals))
  {
    hide ViNumber, Units, Spelled;
    BareSpelled(x, decimals);
    assert IsSpelled(ViNumber(x, decimals), x < 0.0, Units(x, decimals), Bare);
  }

  /** The contract shows numbers with at most two decimals, days of dates, and one range. */
  lemma ShownKinds(r: Record, discrete: Value -> bool, o: seq<string>, op: Op)
    requires op in Ops(r, discrete, o) && !op.Allow?
    ensures
      || ShowsNumber(op.text)
      || (exists f :: f in r && op in DateOps(f))
      || op in RangeOps(r, discrete)
  {
    hide Get, AllFieldOps, AllDateOps, AllRateOps, RangeOps, ShowsNumber, ViNumber, English, PurchaseCostDisplay, IsDate;
    var decimals := Precision(discrete, Get(r, "unit"));
    InFieldOps(r, decimals, op);
    InDateOps(r, op);
    InRateOps(r, o, op);
    if f :| f in r && op in FieldOps(f, decimals) {
      BareShown(f.1.n, decimals);
    } else if k :| k in o && op in RateOps(r, k) {
      PercentSpelled(Get(r, k).n * 100.0);
    } else if op in CostOps(r) {
      CostShown(Get(r, "total_purchase_cost").n);
    } else if op in BudgetOps(r) {
      PercentSpelled(Get(r, "budget_utilization_pct").n);
    }
  }

  // ---------- reading a shown number whole ----------

  lemma SpelledRead(u: Unicode, m: nat, e: Ending)
    requires u.Valid()
    ensures ParseMention(u, Hundredths(m) + TailOf(e, "")) == Some(WholeMention(m, e))
  {
    hide ParseMention, Hundredths, TailText, Seen;
    match e {
      case Millions => MoneyRead(u, m, e, Million);
      case Thousands => MoneyRead(u, m, e, ThousandDong);
      case Dongs => MoneyRead(u, m, e, Dong);
      case _ =>
        ReadWhole(u, m, e);
        NothingAfter(e);
    }
  }

  lemma NothingAfter(e: Ending)
    requires RestOf(e) == ""
    ensures TailOf(e, "") == WordOf(e)
  {
    assert WordOf(e) + ("" + "") == WordOf(e);
  }

  lemma MoneyRead(u: Unicode, m: nat, e: Ending, tail: MoneyTail)
    requires u.Valid() && (e == Millions || e == Thousands || e == Dongs)
    requires tail == if e == Millions then Million else if e == Thousands then ThousandDong else Dong
    ensures ParseMention(u, Hundredths(m) + TailOf(e, "")) == Some(WholeMention(m, e))
  {
    hide ParseMention, Hundredths, Seen;
    assert TailOf(e, "") == TailText(tail) by { MoneyTails(e); }
    assert Sign(false) + Hundredths(m) + TailText(tail) == Hundredths(m) + TailOf(e, "");
    MoneyDisplay.ReadMoney(u, Hundredths(m) + TailOf(e, ""), false, m, tail);
  }

  lemma MoneyTails(e: Ending)
    ensures TailOf(Millions, "") == " triệu đồng" && TailOf(Thousands, "") == " nghìn đồng" && TailOf(Dongs, "") == " đồng"
    ensures TailOf(Bare, "") == "" && TailOf(Percents, "") == "%"
  {}

  lemma SpelledNotEmpty(m: nat, e: Ending)
    ensures Hundredths(m) + TailOf(e, "") != ""
  {
    GroupedShape(m / 100);
  }

  lemma OnlyItem(u: Unicode, w: Record)
    ensures Authority(u, [w]) == ItemFacts(u, w)
  {
    hide ItemFacts;
    assert [w][1..] == [];
  }

  /** A shown number, read whole, is a fact of its record. */
  lemma WholeBacked(u: Unicode, r: Record, discrete: Value -> bool, o: seq<string>, op: Op, m: nat, e: Ending)
    requires u.Valid() && KeyedDisplay(r) && IsRateOrder(o) && op in Ops(r, discrete, o) && !op.Allow?
    requires op.text == Hundredths(m) + TailOf(e, "")
    ensures Authorized(WholeMention(m, e), Authority(u, [Contract(r, discrete, o)]), false)
  {
    hide Hundredths, TailOf, Ops, Contract, ParseMention, Authorized, ItemFacts, WholeMention, KeyedDisplay, IsRateOrder;
    SpelledRead(u, m, e);
    SpelledNotEmpty(m, e);
    ShownIsAllowed(u, r, discrete, o, op);
    OnlyItem(u, Contract(r, discrete, o));
  }

  lemma StrictIsTolerant(p: Parsed, facts: seq<Fact>, approximate: bool)
    requires Authorized(p, facts, false)
    ensures Authorized(p, facts, approximate)
  {
    var fact :| fact in facts && EquivalentOrRounded(p, fact, false);
    assert EquivalentOrRounded(p, fact, approximate);
  }

  /** A mention without a kind is authorised by whatever authorises its value under a kind. */
  lemma KindDropped(p: Parsed, facts: seq<Fact>)
    requires Authorized(p, facts, false)
    ensures Authorized(Parsed(p.value, None, None), facts, false)
  {
    var fact :| fact in facts && EquivalentOrRounded(p, fact, false);
    assert EquivalentOrRounded(Parsed(p.value, None, None), fact, false);
  }

  /** With no scale in the word after it, the integer part that is cut off is what the whole reads as. */
  lemma CutBacked(m: nat, e: Ending, facts: seq<Fact>)
    requires !OneToken(m) && ScaleOf(e) == 1.0 && Authorized(WholeMention(m, e), facts, false)
    ensures Authorized(Parsed((m / 100) as real, None, None), facts, false)
  {
    hide Authorized;
    KindDropped(WholeMention(m, e), facts);
  }

  // ---------- which shown numbers pass ----------

  lemma TrailApart(m: nat, e: Ending, trail: string)
    ensures (Hundredths(m) + TailOf(e, "")) + trail == Hundredths(m) + TailOf(e, trail)
  {
    hide Hundredths, WordOf, RestOf;
  }

  /**
   A sentence whose last number is a shown one that is not negative passes against the record exactly when the number
   was printed as one token, or the record happens to back its decimals too, read as a number of their own. With a
   money word that scales, the record must back the integer part without that word as well.
   */
  lemma ShownNumberPassesIff(u: Unicode, lead: string, trail: string, r: Record, discrete: Value -> bool, o: seq<string>,
      op: Op, m: nat, e: Ending)
    requires u.Valid() && u.Matching() && Introduces(u, lead) && Trails(u, e, trail)
    requires KeyedDisplay(r) && IsRateOrder(o) && op in Ops(r, discrete, o) && !op.Allow?
    requires op.text == Hundredths(m) + TailOf(e, "")
    ensures var w := Contract(r, discrete, o);
      var facts := Authority(u, [w]);
      NumbersVerdict(u, lead + (op.text + trail), [w]) == Pass <==>
        || OneToken(m)
        || (&& (ScaleOf(e) == 1.0 || Authorized(Parsed((m / 100) as real, None, None), facts, Announced(u, lead)))
            && Authorized(LeftOver(m % 100, e), facts, Announced(u, lead + (Grouped(m / 100, '.') + ","))))
  {
    hide Hundredths, TailOf, Ops, Contract, Authorized, Authority, WholeMention, LeftOver, KeyedDisplay, IsRateOrder;
    hide NumbersVerdict, Introduces, Announced, Grouped, OneToken, ScaleOf, Trails;
    var w := Contract(r, discrete, o);
    var facts := Authority(u, [w]);
    TrailApart(m, e, trail);
    WholeBacked(u, r, discrete, o, op, m, e);
    PrintedVerdict(u, lead, m, e, trail, [w]);
    StrictIsTolerant(WholeMention(m, e), facts, Announced(u, lead));
    if !OneToken(m) && ScaleOf(e) == 1.0 {
      CutBacked(m, e, facts);
      StrictIsTolerant(Parsed((m / 100) as real, None, None), facts, Announced(u, lead));
    }
  }

  lemma FieldShown(u: Unicode, r: Record, discrete: Value -> bool, o: seq<string>, key: string, x: real)
    requires (key, Num(x)) in r && key !in COST_KEYS && key !in RATE_KEYS
    ensures var d := Precision(discrete, Get(r, "unit"));
      && (d == 0 || d == 2) && Default(key, ViNumber(x, d)) in Ops(r, discrete, o)
      && ViNumber(x, d) == Spelled(x < 0.0, Units(x, d), Bare)
  {
    hide Ops, ViNumber, English, Units, Get, Hundredths, AllFieldOps, Spelled;
    var d := Precision(discrete, Get(r, "unit"));
    var op := Default(key, ViNumber(x, d));
    InFieldOps(r, d, op);
    assert op in FieldOps((key, Num(x)), d);
    FieldOpIsOp(r, discrete, o, op);
    BareSpelled(x, d);
  }

  lemma FieldOpIsOp(r: Record, discrete: Value -> bool, o: seq<string>, op: Op)
    requires op in AllFieldOps(r, Precision(discrete, Get(r, "unit")))
    ensures op in Ops(r, discrete, o)
  {
    hide Get, AllFieldOps, AllDateOps, AllRateOps, CostOps, RangeOps, BudgetOps;
  }

  /** A shown quantity that is not negative: the field, its rounding, and when it may be repeated. */
  lemma ShownQuantityPassesIff(u: Unicode, lead: string, trail: string, r: Record, discrete: Value -> bool, o: seq<string>,
      key: string, x: real)
    requires u.Valid() && u.Matching() && Introduces(u, lead) && Trails(u, Bare, trail) && KeyedDisplay(r) && IsRateOrder(o)
    requires (key, Num(x)) in r && key !in COST_KEYS && key !in RATE_KEYS && x >= 0.0
    ensures var w, d := Contract(r, discrete, o), Precision(discrete, Get(r, "unit"));
      var m := Units(x, d);
      NumbersVerdict(u, lead + (ViNumber(x, d) + trail), [w]) == Pass <==>
        || m < 100000 || m % 100 == 0
        || Authorized(LeftOver(m % 100, Bare), Authority(u, [w]), Announced(u, lead + (Grouped(m / 100, '.') + ",")))
  {
    hide Ops, Contract, Authorized, Authority, LeftOver, KeyedDisplay, IsRateOrder, ViNumber, Units, Get, Hundredths;
    hide NumbersVerdict, Introduces, Announced, Grouped, Trails;
    var d := Precision(discrete, Get(r, "unit"));
    FieldShown(u, r, discrete, o, key, x);
    ShownNumberPassesIff(u, lead, trail, r, discrete, o, Default(key, ViNumber(x, d)), Units(x, d), Bare);
  }

  /**
   A shown negative number: below 1000 it passes exactly when it has no decimals or the record backs them as a number of
   their own. From 1000 on it passes exactly when the record backs the number that follows its first separator, with
   its decimals below a million and otherwise with the decimals as a number of their own.
   */
  lemma ShownNegativePassesIff(u: Unicode, lead: string, trail: string, w: Record, text: string, m: nat, e: Ending)
    requires u.Valid() && u.Matching() && Introduces(u, lead) && Trails(u, e, trail)
    requires text == "-" + (Hundredths(m) + TailOf(e, ""))
    ensures var v, facts := NumbersVerdict(u, lead + (text + trail), [w]), Authority(u, [w]);
      v == Pass <==>
        if m < 100000 then
          m % 100 == 0 || Authorized(LeftOver(m % 100, e), facts, Announced(u, lead + ("-" + (Grouped(m / 100, '.') + ","))))
        else
          var before := lead + ("-" + (Natural(TopBlock(m / 100)) + "."));
          if BelowWhole(m) then Authorized(BelowMention(m, e), facts, Announced(u, before))
          else
            && Authorized(Parsed(Below(m / 100) as real, None, None), facts, Announced(u, before))
            && Authorized(LeftOver(m % 100, e), facts, Announced(u, before + (BelowText(m / 100) + ",")))
  {
    hide Hundredths, TailOf, Authorized, Authority, LeftOver, NumbersVerdict, Introduces, Announced, Grouped, Natural, Trails;
    hide TopBlock, Below, BelowText, BelowMention, BelowWhole;
    TrailApart(m, e, trail);
    assert text + trail == "-" + ((Hundredths(m) + TailOf(e, "")) + trail);
    NegativeVerdict(u, lead, m, e, trail, [w]);
  }

  // ---------- days and ranges ----------

  /** No digits, dates or ranges, and no letter that would run into what stands before. */
  predicate Follows(u: Unicode, trail: string) {
    && (forall k | 0 <= k < |trail| :: u.digit(trail[k]) < 0 && trail[k] != '/' && trail[k] != '–')
    && (trail == "" || !u.word(trail[0]))
  }

  lemma MarkFollows(u: Unicode, trail: string)
    requires u.Valid() && Mark(trail)
    ensures Follows(u, trail)
  {
    MarkQuiet(u, trail);
  }

  /** Without digits nothing is found, and nothing more is blanked. */
  lemma QuietText(u: Unicode, lead: string, trail: string)
    requires u.Numerals() && Introduces(u, lead) && Follows(u, trail)
    ensures var s := lead + " " + trail; Mentions(u, s) == [] && BlankDates(u, s, 0) == s && Dashless(s)
  {
    hide Mentions, BlankDates, DateEnd;
    var s := lead + " " + trail;
    assert forall k | 0 <= k < |s| ::
        s[k] == if k < |lead| then lead[k] else if k == |lead| then ' ' else trail[k - |lead| - 1];
    NothingFrom(u, s, 0);
    NothingFound(u, s);
    NoDates(u, s, 0);
    assert s[0..] == s;
  }

  lemma NothingFound(u: Unicode, s: string)
    requires Matches(u, s, 0) == []
    ensures Mentions(u, s) == []
  {
    hide Matches;
  }

  lemma DaySlices(lead: string, day: string, month: string, trail: string)
    requires |day| == 2 && |month| == 2
    ensures var s, n := lead + ((day + "/" + month) + trail), |lead|;
      && |s| == n + 5 + |trail| && s[..n] == lead && s[n..n + 2] == day && s[n + 2] == '/' && s[n + 3..n + 5] == month
      && s[n + 5..] == trail && forall k | n + 5 <= k < |s| :: s[k] == trail[k - n - 5]
  {
    var s, n := lead + ((day + "/" + month) + trail), |lead|;
    assert s == (lead + day) + "/" + month + trail;
  }

  /** A sentence whose last number is the shown day of a date passes against any evidence: the day is blanked. */
  lemma ShownDayPasses(u: Unicode, lead: string, trail: string, f: (string, Value), text: string, payloads: seq<Record>)
    requires u.Valid() && Introduces(u, lead) && Follows(u, trail)
    requires IsDate(f) && AsciiDigits(f.1.text[5..7]) && AsciiDigits(f.1.text[8..10]) && Default(f.0, text) in DateOps(f)
    ensures NumbersVerdict(u, lead + (text + trail), payloads) == Pass
  {
    hide SuppliedRanges, Mentions, Authority, ContainsAny, BlankRanges, DateEnd, BlankDates;
    var s, n := lead + (text + trail), |lead|;
    var day, month := f.1.text[8..10], f.1.text[5..7];
    assert text == day + "/" + month;
    DaySlices(lead, day, month, trail);
    DayDashless(u, lead, day, month, trail);
    SuppliedDashed(payloads);
    NoRanges(s, SuppliedRanges(payloads));
    DayBlanked(u, s, lead, n, trail);
    QuietText(u, lead, trail);
    assert Protected(u, s, payloads) == lead + " " + trail;
  }

  lemma DayBlanked(u: Unicode, s: string, lead: string, n: nat, trail: string)
    requires u.Valid() && Introduces(u, lead) && Follows(u, trail) && n == |lead| && |s| == n + 5 + |trail|
    requires s[..n] == lead && s[n + 2] == '/' && AsciiDigits(s[n..n + 2]) && AsciiDigits(s[n + 3..n + 5])
    requires s[n + 5..] == trail && forall k | n + 5 <= k < |s| :: s[k] == trail[k - n - 5]
    ensures BlankDates(u, s, 0) == lead + " " + trail
  {
    hide DateEnd, BlankDates;
    assert forall k | 0 <= k < n :: s[k] == lead[k];
    forall k | 0 <= k < n || n + 5 <= k < |s|
      ensures DateEnd(u, s, k).None?
    {
      NoDateWithoutDigit(u, s, k);
    }
    DatesAfter(u, s, 0, n);
    DayMatched(u, s, n);
    BlankOne(u, s, n, n + 5);
    DatesAfter(u, s, n + 5, |s|);
    NothingLeft(u, s);
    assert s[0..n] == lead && s[n + 5..|s|] == trail;
  }

  lemma NothingLeft(u: Unicode, s: string)
    ensures BlankDates(u, s, |s|) == ""
  {}

  lemma DayDashless(u: Unicode, lead: string, day: string, month: string, trail: string)
    requires Dashless(lead) && AsciiDigits(day) && AsciiDigits(month) && Follows(u, trail)
    ensures Dashless(lead + ((day + "/" + month) + trail))
  {}

  lemma FirstDash(lead: string, text: string, trail: string, i: nat)
    requires Dashless(lead) && '–' in text && i < |lead|
    ensures !At(lead + (text + trail), i, text)
  {
    var s, d := lead + (text + trail), IndexOf(text, '–');
    if i + |text| <= |s| {
      assert s[i..i + |text|][d] == s[i + d];
      assert i + d >= |lead| ==> s[i + d] == text[..d][i + d - |lead|];
    }
  }

  lemma {:induction false} ReplaceFirst(s: string, text: string, i: nat, n: nat)
    requires text != "" && i <= n && n + |text| <= |s| && s[n..n + |text|] == text && forall k | i <= k < n :: !At(s, k, text)
    ensures ReplaceFrom(s, text, " ", i) == s[i..n] + (" " + ReplaceFrom(s, text, " ", n + |text|))
    decreases n - i
  {
    if i == n {
      assert s[i..n] == "";
    } else {
      ReplaceFirst(s, text, i + 1, n);
      assert s[i..n] == [s[i]] + s[i + 1..n];
    }
  }

  lemma {:induction false} ReplaceNoMore(s: string, text: string, i: nat)
    requires text != "" && i <= |s| && forall k | i <= k < |s| :: !At(s, k, text)
    ensures ReplaceFrom(s, text, " ", i) == s[i..]
    decreases |s| - i
  {
    if i < |s| {
      ReplaceNoMore(s, text, i + 1);
      assert s[i..] == [s[i]] + s[i + 1..];
    }
  }

  lemma NoLaterDash(s: string, text: string, i: nat)
    requires '–' in text && i <= |s| && '–' !in s[i..]
    ensures !At(s, i, text)
  {
    if i + |text| <= |s| {
      var d := IndexOf(text, '–');
      assert s[i..i + |text|][d] == s[i..][d];
    }
  }

  lemma DashIn(text: string)
    requires Contains(text, EN_DASH)
    ensures '–' in text
  {
    var i :| 0 <= i <= |text| && At(text, i, EN_DASH);
    assert text[i..i + 1][0] == text[i];
  }

  lemma RangeReplaced(lead: string, text: string, trail: string)
    requires Dashless(lead) && '–' in text && '–' !in trail
    ensures ReplaceFrom(lead + (text + trail), text, " ", 0) == lead + " " + trail
  {
    hide ReplaceFrom;
    var s, n := lead + (text + trail), |lead|;
    forall k | 0 <= k < n
      ensures !At(s, k, text)
    {
      FirstDash(lead, text, trail, k);
    }
    assert s[n..n + |text|] == text && s[n + |text|..] == trail && s[0..n] == lead;
    ReplaceFirst(s, text, 0, n);
    forall k | n + |text| <= k < |s|
      ensures !At(s, k, text)
    {
      assert forall j | 0 <= j < |s[k..]| :: s[k..][j] == trail[k + j - n - |text|];
      NoLaterDash(s, text, k);
    }
    ReplaceNoMore(s, text, n + |text|);
  }

  lemma RangeBlanked(u: Unicode, lead: string, text: string, trail: string, ranges: seq<string>)
    requires u.Numerals() && Introduces(u, lead) && Follows(u, trail) && Contains(text, EN_DASH)
    requires text in ranges && forall x | x in ranges :: x == text
    ensures BlankRanges(lead + (text + trail), ranges) == lead + " " + trail && ContainsAny(lead + (text + trail), ranges)
  {
    hide ContainsAny, Quiet, ReplaceFrom, Mentions, BlankDates;
    var s, n := lead + (text + trail), |lead|;
    DashIn(text);
    assert ranges[0] in ranges;
    RangeReplaced(lead, text, trail);
    assert forall x | x in ranges[1..] :: x in ranges;
    QuietText(u, lead, trail);
    NoRanges(lead + " " + trail, ranges[1..]);
    assert At(s, n, text) by { assert s[n..n + |text|] == text; }
    assert ContainsAny(s, ranges) by { HoldsOne(s, text, n, ranges); }
  }

  lemma HoldsOne(s: string, text: string, n: nat, ranges: seq<string>)
    requires text in ranges && At(s, n, text)
    ensures ContainsAny(s, ranges)
  {
    assert Contains(s, text);
  }

  lemma {:induction false} GetField(r: Record, key: string)
    requires Has(r, key)
    ensures exists f :: f in r && f.1 == Get(r, key)
  {
    var n := |r| - 1;
    assert r == r[..n] + [r[n]] && r[n] in r;
    if r[n].0 != key {
      GetField(r[..n], key);
      assert forall f | f in r[..n] :: f in r;
    }
  }

  lemma {:induction false} RangeListed(fields: Record, text: string)
    requires (exists f :: f in fields && f.1 == Str(text)) && Contains(text, EN_DASH)
    ensures text in RangesIn(fields)
  {
    hide Contains;
    var f :| f in fields && f.1 == Str(text);
    assert fields == [fields[0]] + fields[1..];
    if fields[0].1 != Str(text) { RangeListed(fields[1..], text); }
  }

  lemma RangeSupplied(r: Record, discrete: Value -> bool, o: seq<string>, text: string)
    requires KeyedDisplay(r) && IsRateOrder(o) && Assign("daily_demand_range", text) in Ops(r, discrete, o)
    requires Contains(text, EN_DASH)
    ensures text in SuppliedRanges([Contract(r, discrete, o)])
  {
    hide Ops, Get, ApplyAll, RangesIn, Contains, IsRateOrder;
    var op := Assign("daily_demand_range", text);
    var w := Contract(r, discrete, o);
    ContractDone(r, discrete, o);
    var sheet := ApplyAll(Opening(r), Ops(r, discrete, o));
    assert Done(sheet, op);
    WrittenReads(r, sheet);
    GetField(sheet.display, op.key);
    RangeListed(sheet.display, text);
  }

  /**
   A sentence whose last number is the shown demand range passes against the record unless it speaks of an average, as
   long as no other display value has an en dash.
   */
  lemma ShownRangePassesIff(u: Unicode, lead: string, trail: string, r: Record, discrete: Value -> bool, o: seq<string>, op: Op)
    requires u.Valid() && Introduces(u, lead) && Follows(u, trail)
    requires KeyedDisplay(r) && IsRateOrder(o) && op in RangeOps(r, discrete) && op.Assign?
    requires forall x | x in SuppliedRanges([Contract(r, discrete, o)]) :: x == op.text
    ensures NumbersVerdict(u, lead + (op.text + trail), [Contract(r, discrete, o)]) == Pass
       <==> !ContainsAny(Lower(u, lead + (op.text + trail)), AVERAGE_WORDS)
  {
    hide SuppliedRanges, Mentions, Authority, ContainsAny, BlankRanges, BlankDates, Contract, KeyedDisplay, IsRateOrder, Lower;
    var w := Contract(r, discrete, o);
    RangeOpIsOp(r, discrete, o, op);
    RangeHasDash(r, discrete, op);
    RangeSupplied(r, discrete, o, op.text);
    RangeBlanked(u, lead, op.text, trail, SuppliedRanges([w]));
    QuietText(u, lead, trail);
    assert Protected(u, lead + (op.text + trail), [w]) == lead + " " + trail;
  }

  lemma RangeOpIsOp(r: Record, discrete: Value -> bool, o: seq<string>, op: Op)
    requires op in RangeOps(r, discrete) && op.Assign?
    ensures op in Ops(r, discrete, o) && op.key == "daily_demand_range"
  {
    hide Get, AllFieldOps, AllDateOps, AllRateOps, CostOps, BudgetOps, ViNumber;
  }

  lemma RangeHasDash(r: Record, discrete: Value -> bool, op: Op)
    requires op in RangeOps(r, discrete) && op.Assign?
    ensures Contains(op.text, EN_DASH)
  {
    hide Get, ViNumber, Show;
    var low, high := Get(r, "daily_p50_min").n, Get(r, "daily_p50_max").n;
    var d := Precision(discrete, Str(Show(Get(r, "unit"))));
    var p := ViNumber(low, d);
    assert At(op.text, |p|, EN_DASH);
  }
}
