/**
 The numeric facts of an evidence record that has its display contract: `build_numeric_authority` on the result of
 `add_numeric_display_contract`.
 */
module ContractFacts {
  import opened Text
  import opened Records
  import opened Decimals
  import opened Display
  import opened NumericAuthority
  import opened FieldAuthority
  import opened NumericRoundTrip
  import opened DisplayProofs
  import opened MoneyDisplay
  import opened Endings
  import opened PrintedMentions
  import opened DisplayContract
  import Ordering
  import Grouping

  // ---------- printed numbers ----------

  /** The hundredths that a number is printed as with no or two decimals. */
  function Units(x: real, decimals: nat): nat {
    if decimals == 0 then 100 * HalfUp(x, 0) else HalfUp(x, 2)
  }

  lemma ViSpelled(x: real, decimals: nat)
    requires decimals == 0 || decimals == 2
    ensures ViNumber(x, decimals) == Sign(x < 0.0) + Hundredths(Units(x, decimals))
  {
    hide Hundredths, HalfUp, Fixed, Sign, RStripChar, Localised;
    if decimals == 0 {
      PrintedWhole(x < 0.0, HalfUp(x, 0));
      WholeIsHundredths(HalfUp(x, 0));
    } else {
      PrintedHundredths(x < 0.0, HalfUp(x, 2));
    }
  }

  lemma ViNumeric(u: Unicode, x: real, decimals: nat)
    requires u.Numerals() && (decimals == 0 || decimals == 2)
    ensures Numeric(ViNumber(x, decimals))
  {
    hide ViNumber, Hundredths, Units, Numeric, Sign;
    ViSpelled(x, decimals);
    SignedHundredths(u, ViNumber(x, decimals), x < 0.0, Units(x, decimals));
  }

  lemma CommaAt(s: string, i: nat)
    requires i < |s|
    ensures At(s, i, ",") <==> s[i] == ','
  {
    assert s[i..i + 1] == [s[i]];
  }

  lemma {:induction false} EnglishNumeric(s: string, i: nat)
    requires Numeric(s) && i <= |s|
    ensures Numeric(ReplaceFrom(s, ",", ".", i))
    decreases |s| - i
  {
    hide At;
    if i < |s| {
      CommaAt(s, i);
      EnglishNumeric(s, i + 1);
    }
  }

  lemma NumericStripped(u: Unicode, s: string)
    requires u.Valid() && Numeric(s)
    ensures Strip(u, Fold(u, s)) == s
  {
    if s != "" {
      SignedNumeric(false, s);
      assert Sign(false) + s == s;
      FoldStrip(u, s);
    }
  }

  /** Digits, separators and hyphens read as a number without a kind, if they read as one. */
  lemma NumericKindless(u: Unicode, s: string)
    requires u.Valid() && Numeric(s)
    ensures ParseMention(u, s).Some? ==> ParseMention(u, s).value.kind == None && ParseMention(u, s).value.unit == None
  {
    hide ReadToken, Classify, Strip, Fold, Numeric;
    NumericStripped(u, s);
    if ReadToken(u, s).Some? { PlainKind(u, s, ReadToken(u, s).value); }
  }

  /** A printed number with its sign and its unit word, read whole: the sign is lost. */
  lemma ReadSignedWord(u: Unicode, negative: bool, m: nat, e: Ending)
    requires u.Valid()
    ensures ParseMention(u, Sign(negative) + Hundredths(m) + WordOf(e)) == Some(WholeMention(m, e))
  {
    hide ParseDecimal, TokenEnd, Hundredths, ParseMention, WordOf, ReadToken, Numeric, Seen, Ends;
    hide ScaleOf, KindOf, UnitOf;
    var a, body, value := Sign(negative) + Hundredths(m), Hundredths(m) + WordOf(e), Seen(m);
    WordEnds(u, e);
    HundredthsShape(u, m);
    HundredthsToken(u, body, m, WordOf(e));
    TokenAfterSign(u, Sign(negative), body, TokenEnd(u, body, 0), value);
    assert Sign(negative) + body == a + WordOf(e);
    SignedHundredths(u, a, negative, m);
    ReadEnding(u, a, e, value);
    assert WholeMention(m, e) == Parsed(value * ScaleOf(e), KindOf(e), UnitOf(e));
  }

  lemma PercentRead(u: Unicode, x: real)
    requires u.Valid()
    ensures ParseMention(u, ViNumber(x, 2) + "%") == Some(WholeMention(Units(x, 2), Percents))
  {
    hide ParseMention, ViNumber, Units, Hundredths, WholeMention;
    ViSpelled(x, 2);
    ReadSignedWord(u, x < 0.0, Units(x, 2), Percents);
    assert WordOf(Percents) == "%";
  }

  // ---------- where the facts come from ----------

  lemma {:induction false} AllowedFrom(sheet: Sheet, ops: seq<Op>, t: string)
    requires t in ApplyAll(sheet, ops).allowed
    ensures t in sheet.allowed || Allow(t) in ops
    decreases |ops|
  {
    hide Put;
    if ops != [] {
      assert ops == [ops[0]] + ops[1..];
      AllowedFrom(Applied(sheet, ops[0]), ops[1..], t);
    }
  }

  /** Everything the contract allows was allowed before or is allowed by one of its operations. */
  lemma ContractAllows(r: Record, discrete: Value -> bool, o: seq<string>, t: string)
    requires Keyed(r) && t in AllowedMentions(Contract(r, discrete, o))
    ensures t in Opening(r).allowed || Allow(t) in Ops(r, discrete, o)
  {
    hide Get, Put, Grouping.Dedup, Ordering.Filter, Strings, Ops, ApplyAll;
    var sheet := ApplyAll(Opening(r), Ops(r, discrete, o));
    WrittenReads(r, sheet);
    StringsOfTexts(Grouping.Dedup(Ordering.Filter(sheet.allowed, NotEmpty)));
    Ordering.FilterMember(sheet.allowed, NotEmpty);
    Grouping.DedupMembers(Ordering.Filter(sheet.allowed, NotEmpty));
    AllowedFrom(Opening(r), Ops(r, discrete, o), t);
  }

  // ---------- records whose displays are numbers ----------

  /** No displays yet, no nested values, no dates and no range: what most facts are. */
  ghost predicate Flat(r: Record) {
    && Keyed(r) && !Get(r, "values").Dict?
    && (forall f | f in r :: !ContractKey(f.0) && !IsDate(f))
    && Get(r, "type") != Str("DEMAND_HORIZON_SUMMARY")
  }

  lemma FlatIsKeyed(r: Record)
    requires Flat(r)
    ensures KeyedDisplay(r) && Opening(r) == Sheet([], [])
  {
    hide Get, IsDate;
    assert ContractKey("display_values") && ContractKey("allowed_numeric_mentions");
    GetAbsent(r, "display_values");
    GetAbsent(r, "allowed_numeric_mentions");
  }

  lemma FlatBasics(r: Record)
    requires Flat(r)
    ensures Keyed(r) && !Get(r, "values").Dict?
  {}

  lemma ContractFields(r: Record, discrete: Value -> bool, o: seq<string>)
    requires Keyed(r) && !Get(r, "values").Dict?
    ensures var w := Contract(r, discrete, o);
      && Rewritten(r, w) && EffectiveValues(w) == w
      && Get(w, "type") == Get(r, "type") && Get(w, "unit") == Get(r, "unit")
  {
    hide Get, Put, Ops, ApplyAll, Written, Opening;
    WrittenReads(r, ApplyAll(Opening(r), Ops(r, discrete, o)));
    assert !ContractKey("values") && !ContractKey("type") && !ContractKey("unit");
  }

  /** What a record's contract may let the writer repeat. */
  ghost predicate Repeatable(r: Record, t: string) {
    || Numeric(t)
    || (exists x :: IsPercent(t, x))
    || (Get(r, "total_purchase_cost").Num? && t == PurchaseCostDisplay(Get(r, "total_purchase_cost").n))
  }

  predicate IsPercent(t: string, x: real) {
    t == ViNumber(x, 2) + "%"
  }

  lemma NumberOpsNumeric(u: Unicode, key: string, x: real, decimals: nat, t: string)
    requires u.Numerals() && (decimals == 0 || decimals == 2) && Allow(t) in NumberOps(key, x, decimals)
    ensures Numeric(t)
  {
    hide ViNumber, Numeric, ReplaceFrom;
    ViNumeric(u, x, decimals);
    ViNumeric(u, -x, decimals);
    EnglishNumeric(ViNumber(x, decimals), 0);
    EnglishNumeric(ViNumber(-x, decimals), 0);
  }

  lemma FlatAllows(u: Unicode, r: Record, discrete: Value -> bool, o: seq<string>, t: string)
    requires u.Numerals() && Flat(r) && Allow(t) in Ops(r, discrete, o)
    ensures Repeatable(r, t)
  {
    hide Get, AllFieldOps, AllDateOps, AllRateOps, ViNumber, NumberOps, Numeric, PurchaseCostDisplay, IsDate, Opening, Keyed;
    var decimals, op := Precision(discrete, Get(r, "unit")), Allow(t);
    InFieldOps(r, decimals, op);
    InDateOps(r, op);
    InRateOps(r, o, op);
    if f :| f in r && op in FieldOps(f, decimals) {
      NumberOpsNumeric(u, f.0, f.1.n, decimals, t);
    } else if k :| k in o && op in RateOps(r, k) {
      assert IsPercent(t, Get(r, k).n * 100.0);
    } else if op in BudgetOps(r) {
      assert IsPercent(t, Get(r, "budget_utilization_pct").n);
    }
  }

  /** A fact made from a display is a percentage, the displayed total cost, or a number that the type makes a quantity or a count. */
  lemma DisplayFactKinds(u: Unicode, r: Record, w: Record, t: string, fact: Fact)
    requires u.Valid() && Repeatable(r, t) && fact in DisplayFact(u, w, t)
    ensures fact.kind == Money ==>
      Get(r, "total_purchase_cost").Num? && fact.value == Displayed(Get(r, "total_purchase_cost").n)
    ensures fact.kind == Quantity ==> Show(Get(w, "type")) in LEGACY_QUANTITY_TYPES
    ensures !fact.approximate
  {
    hide Get, ParseMention, Displayed, ViNumber, PurchaseCostDisplay, ItemUnit, EvidenceId, Units, Numeric, Seen;
    if Numeric(t) {
      NumericKindless(u, t);
    } else if x :| IsPercent(t, x) {
      PercentRead(u, x);
    } else {
      CostDisplayRead(u, Get(r, "total_purchase_cost").n);
    }
  }

  /** A money fact has the value of a number under a money key, or is the displayed total cost. */
  lemma MoneyFactFrom(u: Unicode, r: Record, discrete: Value -> bool, o: seq<string>, fact: Fact)
    requires u.Valid() && Flat(r) && fact in ItemFacts(u, Contract(r, discrete, o)) && fact.kind == Money
    ensures
      || (exists f :: f in r && f.1 == Num(fact.value) && MoneyKey(u, f.0))
      || (Get(r, "total_purchase_cost").Num? && fact.value == Displayed(Get(r, "total_purchase_cost").n))
  {
    hide Get, Ops, Contract, Displayed, FieldFacts, LegacyFacts, Repeatable, FieldFact, DisplayFact, AllowedMentions, Flat;
    hide EffectiveValues;
    var w := Contract(r, discrete, o);
    FlatBasics(r);
    ContractFields(r, discrete, o);
    if fact in FieldFacts(u, w, w) {
      FieldFactFrom(u, w, w, fact);
      var f :| f in w && fact in FieldFact(u, w, f);
      MoneyField(u, w, f, fact);
    } else {
      LegacyMention(u, r, discrete, o, fact);
      var t :| Repeatable(r, t) && fact in DisplayFact(u, w, t);
      DisplayFactKinds(u, r, w, t, fact);
    }
  }

  lemma LegacyMention(u: Unicode, r: Record, discrete: Value -> bool, o: seq<string>, fact: Fact)
    requires u.Valid() && Flat(r)
    requires var w := Contract(r, discrete, o); fact in LegacyFacts(u, w, AllowedMentions(w))
    ensures exists t :: Repeatable(r, t) && fact in DisplayFact(u, Contract(r, discrete, o), t)
  {
    hide Get, Ops, Contract, LegacyFacts, Repeatable, DisplayFact, AllowedMentions;
    var w := Contract(r, discrete, o);
    LegacyFactFrom(u, w, AllowedMentions(w), fact);
    var t :| t in AllowedMentions(w) && fact in DisplayFact(u, w, t);
    ContractAllows(r, discrete, o, t);
    FlatIsKeyed(r);
    FlatAllows(u, r, discrete, o, t);
  }

  lemma MoneyField(u: Unicode, w: Record, f: (string, Value), fact: Fact)
    requires fact in FieldFact(u, w, f) && fact.kind == Money
    ensures f.1 == Num(fact.value) && MoneyKey(u, f.0)
  {
    hide ItemUnit, EvidenceId, FieldDisplay, ContainsAny, Contains;
  }

  /** A number under a money key is a fact that may be mentioned approximately. */
  lemma MoneyFieldFact(u: Unicode, r: Record, discrete: Value -> bool, o: seq<string>, key: string, x: real)
    requires Flat(r) && (key, Num(x)) in r && MoneyKey(u, key)
    ensures exists fact :: fact in ItemFacts(u, Contract(r, discrete, o)) && fact.kind == Money && fact.value == x && fact.approximate
  {
    hide Get, Contract, FieldFacts, LegacyFacts, ItemUnit, EvidenceId, FieldDisplay, ContainsAny, Contains, EffectiveValues, Flat;
    var w := Contract(r, discrete, o);
    FlatBasics(r);
    ContractFields(r, discrete, o);
    NumberStays(r, discrete, o, key, x);
    var fact := Fact(x, Money, key, EvidenceId(w), None, FieldDisplay(w, key), true);
    assert FieldFact(u, w, (key, Num(x))) == [fact];
    FieldFactIn(u, w, w, (key, Num(x)), fact);
  }

  /** The numbers of a record stay in it. */
  lemma NumberStays(r: Record, discrete: Value -> bool, o: seq<string>, key: string, x: real)
    requires Flat(r) && (key, Num(x)) in r
    ensures (key, Num(x)) in Contract(r, discrete, o)
  {
    hide Get, Put, Ops, ApplyAll, Written, IsDate, Opening;
    var i :| 0 <= i < |r| && r[i] == (key, Num(x));
    GetAt(r, i);
    var w := Contract(r, discrete, o);
    WrittenReads(r, ApplyAll(Opening(r), Ops(r, discrete, o)));
    assert Get(w, key) == Num(x);
    if !Has(w, key) { GetAbsent(w, key); }
    var f :| f in w && f.0 == key;
    var j :| 0 <= j < |w| && w[j] == f;
    GetAt(w, j);
  }

  // ---------- which keys name money ----------

  lemma LettersFold(u: Unicode, s: string)
    requires u.Valid() && forall k | 0 <= k < |s| :: UnitLetter(s[k])
    ensures Fold(u, s) == s
  {
    hide UnitLetter;
    forall k | 0 <= k < |s|
      ensures u.fold(s[k]) == [s[k]]
    {
      assert u.Classified(s[k]) by { assert u.word(s[k]) || !u.word(s[k]); }
    }
    FoldIdentity(u, s);
  }

  predicate LowerKey(key: string) {
    forall k | 0 <= k < |key| :: UnitLetter(key[k]) || key[k] == '_'
  }

  lemma KeyFold(u: Unicode, key: string)
    requires u.Valid() && LowerKey(key)
    ensures Fold(u, key) == key
  {
    hide UnitLetter;
    forall k | 0 <= k < |key|
      ensures u.fold(key[k]) == [key[k]]
    {
      assert u.Classified(key[k]) by { assert u.word(key[k]) || !u.word(key[k]); }
    }
    FoldIdentity(u, key);
  }

  /** Lower-case letters and underscores, without those given and without "b", "m" and "p". */
  predicate Spelling(key: string, x: char, y: char) {
    forall k | 0 <= k < |key| :: ('a' <= key[k] <= 'z' || key[k] == '_') && !Excluded(key[k], x, y)
  }

  predicate Excluded(c: char, x: char, y: char) {
    c == 'b' || c == 'm' || c == 'p' || c == x || c == y
  }

  lemma SpellingLacks(key: string, x: char, y: char, p: string, c: char)
    requires Spelling(key, x, y) && Excluded(c, x, y) && c in p
    ensures !Contains(key, p)
  {
    AbsentLetter(key, p, c);
  }

  lemma SpellingLower(key: string, x: char, y: char)
    requires Spelling(key, x, y)
    ensures LowerKey(key)
  {}

  /** A key in which some letter of every money word is missing names no money. */
  lemma NotMoney(u: Unicode, key: string, x: char, y: char)
    requires u.Valid() && Spelling(key, x, y) && (x == 's' || x == 'c') && (y == 'v' || y == 'e')
    ensures !MoneyKey(u, key)
  {
    hide Contains, LowerKey, Spelling;
    SpellingLower(key, x, y);
    KeyFold(u, key);
    SpellingLacks(key, x, y, "cost", x);
    SpellingLacks(key, x, y, "budget", 'b');
    SpellingLacks(key, x, y, "spend", 'p');
    SpellingLacks(key, x, y, "over", y);
    SpellingLacks(key, x, y, "remaining", 'm');
    SpellingLacks(key, x, y, "purchase", 'p');
    assert |MONEY_KEYS| == 6;
  }

  lemma CostKey(u: Unicode, head: string)
    requires u.Valid()
    ensures MoneyKey(u, head + "cost")
  {
    FoldAppend(u, head, "cost");
    LettersFold(u, "cost");
    var f := Fold(u, head + "cost");
    assert f[|Fold(u, head)|..|Fold(u, head)| + 4] == "cost";
    assert At(f, |Fold(u, head)|, "cost") && Contains(f, "cost") && MONEY_KEYS[0] == "cost";
    assert "cost" in MONEY_KEYS;
  }
}
