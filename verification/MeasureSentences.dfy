/**
 A display value followed by the unit of its record. The scanner then reads a quantity, and only a quantity of exactly
 that value backs it; the fact made from the display itself is one in five types of evidence only.
 */
module MeasureSentences {
  import opened Text
  import opened Records
  import opened Decimals
  import opened Display
  import opened NumericAuthority
  import opened FieldAuthority
  import opened DisplayProofs
  import opened NumberCheck
  import opened Endings
  import opened PrintedMentions
  import opened PrintedVerdicts
  import opened DisplayContract
  import opened ContractFacts
  import opened ShownNumbers

  // ---------- quantities are matched exactly ----------

  predicate IsMeasure(fact: Fact, unit: string, value: real) {
    fact.kind == Quantity && (fact.unit == None || fact.unit == Some(unit)) && fact.value == value
  }

  ghost predicate Measured(facts: seq<Fact>, unit: string, value: real) {
    exists fact :: fact in facts && IsMeasure(fact, unit, value)
  }

  /** No approximating word helps a quantity. */
  lemma QuantityAuthorised(p: Parsed, facts: seq<Fact>, approximate: bool)
    requires p.kind == Some(Quantity) && p.unit.Some?
    ensures Authorized(p, facts, approximate) <==> Measured(facts, p.unit.value, p.value)
  {
    if Measured(facts, p.unit.value, p.value) {
      var fact :| fact in facts && IsMeasure(fact, p.unit.value, p.value);
      assert EquivalentOrRounded(p, fact, approximate);
    }
    if Authorized(p, facts, approximate) {
      var fact :| fact in facts && EquivalentOrRounded(p, fact, approximate);
      assert IsMeasure(fact, p.unit.value, p.value);
    }
  }

  predicate MeasureEnding(e: Ending) {
    e == Kilograms || e == Grams || e == Pieces
  }

  /** The number that the scanner reads with the unit: the whole one, or the decimals that are cut off. */
  function WithUnit(m: nat): real {
    if OneToken(m) then m as real / 100.0 else DecimalsAlone(m % 100) as real
  }

  lemma MeasureMentions(m: nat, e: Ending)
    requires MeasureEnding(e)
    ensures UnitOf(e).Some?
    ensures OneToken(m) ==> WholeMention(m, e) == Parsed(WithUnit(m), Some(Quantity), UnitOf(e))
    ensures !OneToken(m) ==> LeftOver(m % 100, e) == Parsed(WithUnit(m), Some(Quantity), UnitOf(e))
  {}

  lemma MeasureText(x: real, d: nat, m: nat, e: Ending, trail: string)
    requires MeasureEnding(e) && ViNumber(x, d) == Spelled(false, m, Bare)
    ensures ViNumber(x, d) + (WordOf(e) + trail) == Hundredths(m) + TailOf(e, trail)
    ensures ViNumber(x, d) == Hundredths(m) + TailOf(Bare, "")
  {
    hide ViNumber, Hundredths;
    assert RestOf(e) + trail == trail && TailOf(Bare, "") == "" && Hundredths(m) + "" == Hundredths(m);
  }

  /**
   A sentence whose last number is a shown quantity with its unit passes against the record exactly when some quantity of
   the record, in that unit or without one, has exactly the value that the scanner reads with the unit.
   */
  lemma ShownMeasurePassesIff(u: Unicode, lead: string, trail: string, r: Record, discrete: Value -> bool, o: seq<string>,
      key: string, x: real, e: Ending)
    requires u.Valid() && u.Matching() && Introduces(u, lead) && Trails(u, e, trail) && MeasureEnding(e)
    requires KeyedDisplay(r) && IsRateOrder(o) && (key, Num(x)) in r && key !in COST_KEYS && key !in RATE_KEYS && x >= 0.0
    ensures var w, d := Contract(r, discrete, o), Precision(discrete, Get(r, "unit"));
      UnitOf(e).Some? && (NumbersVerdict(u, lead + (ViNumber(x, d) + (WordOf(e) + trail)), [w]) == Pass
                          <==> Measured(Authority(u, [w]), UnitOf(e).value, WithUnit(Units(x, d))))
  {
    hide Ops, Contract, Authorized, Authority, LeftOver, WholeMention, KeyedDisplay, IsRateOrder, ViNumber, Units, Get;
    hide NumbersVerdict, Introduces, Announced, Grouped, Trails, Hundredths, TailOf, WordOf, OneToken, Measured, Spelled;
    hide WithUnit, UnitOf;
    var w, d := Contract(r, discrete, o), Precision(discrete, Get(r, "unit"));
    var m, facts := Units(x, d), Authority(u, [w]);
    FieldShown(u, r, discrete, o, key, x);
    MeasureText(x, d, m, e, trail);
    MeasureMentions(m, e);
    PrintedVerdict(u, lead, m, e, trail, [w]);
    if OneToken(m) {
      QuantityAuthorised(WholeMention(m, e), facts, Announced(u, lead));
    } else {
      QuantityAuthorised(LeftOver(m % 100, e), facts, Announced(u, lead + (Grouped(m / 100, '.') + ",")));
      WholeBacked(u, r, discrete, o, Default(key, ViNumber(x, d)), m, Bare);
      CutBacked(m, Bare, facts);
      StrictIsTolerant(Parsed((m / 100) as real, None, None), facts, Announced(u, lead));
    }
  }

  // ---------- what backs a quantity ----------

  lemma AloneIsWord(u: Unicode, unit: string)
    requires u.Valid() && unit != "" && forall k | 0 <= k < |unit| :: UnitLetter(unit[k])
    ensures ContainsWord(u, unit, unit)
  {
    LetterIsWord(u, unit[0]);
    LetterIsWord(u, unit[|unit| - 1]);
    assert At(unit, 0, unit) && Boundary(u, unit, 0) && Boundary(u, unit, |unit|);
  }

  lemma Lacks(u: Unicode, w: string, p: string, c: char)
    requires c in p && c !in w && !('0' <= c <= '9') && c != '.' && c != ',' && c != '-'
    ensures !ContainsWord(u, w, p)
  {
    AbsentWord(u, w, p, c);
  }

  /** The unit of a record, normalised, is the one the scanner reads. */
  lemma UnitAlone(u: Unicode, e: Ending)
    requires u.Valid() && MeasureEnding(e)
    ensures UnitOf(e).Some? && NormalizeUnit(u, UnitOf(e).value) == UnitOf(e)
  {
    hide ContainsWord, UnitLetter;
    LettersOf();
    var w := UnitOf(e).value;
    LettersFold(u, w);
    AloneIsWord(u, w);
    match e {
      case Kilograms => AliasAt(u, w, UNIT_ALIASES, 0);
      case Grams =>
        Lacks(u, w, "kg", 'k'); Lacks(u, w, "liters", 'l'); Lacks(u, w, "litres", 'l'); Lacks(u, w, "lít", 'l');
        Lacks(u, w, "cái", 'c'); Lacks(u, w, "ngày", 'n'); Lacks(u, w, "days", 'd'); Lacks(u, w, "sku", 's');
        Lacks(u, w, "nguyên liệu", 'n'); Lacks(u, w, "ingredients", 'n');
        AliasAt(u, w, UNIT_ALIASES, 10);
      case Pieces =>
        Lacks(u, w, "kg", 'k'); Lacks(u, w, "liters", 'l'); Lacks(u, w, "litres", 'l'); Lacks(u, w, "lít", 'l');
        AliasAt(u, w, UNIT_ALIASES, 4);
    }
  }

  lemma RecordUnit(u: Unicode, r: Record, discrete: Value -> bool, o: seq<string>, e: Ending)
    requires u.Valid() && MeasureEnding(e) && Keyed(r) && !Get(r, "values").Dict? && Get(r, "unit") == Str(UnitOf(e).value)
    ensures ItemUnit(u, Contract(r, discrete, o)) == UnitOf(e)
  {
    hide Get, Contract, NormalizeUnit, EffectiveValues;
    ContractFields(r, discrete, o);
    UnitAlone(u, e);
    assert UnitOf(e).value != "";
  }

  /** In the five types whose displays are quantities, a shown quantity may be repeated with its unit. */
  lemma LegacyMeasured(u: Unicode, r: Record, discrete: Value -> bool, o: seq<string>, key: string, x: real, e: Ending)
    requires u.Valid() && MeasureEnding(e) && KeyedDisplay(r) && IsRateOrder(o) && !Get(r, "values").Dict?
    requires (key, Num(x)) in r && key !in COST_KEYS && key !in RATE_KEYS && x >= 0.0
    requires Get(r, "unit") == Str(UnitOf(e).value) && Show(Get(r, "type")) in LEGACY_QUANTITY_TYPES
    ensures var w, m := Contract(r, discrete, o), Units(x, Precision(discrete, Get(r, "unit")));
      OneToken(m) ==> Measured(Authority(u, [w]), UnitOf(e).value, WithUnit(m))
  {
    hide Get, Contract, ParseMention, FieldFacts, LegacyFacts, ViNumber, Units, Ops, AllowedMentions, ItemUnit, Hundredths;
    hide EvidenceId, Seen, Spelled, IsRateOrder;
    var w, d := Contract(r, discrete, o), Precision(discrete, Get(r, "unit"));
    var text, m := ViNumber(x, d), Units(x, d);
    if OneToken(m) {
      FieldShown(u, r, discrete, o, key, x);
      MeasureText(x, d, m, e, "");
      SpelledRead(u, m, Bare);
      SpelledNotEmpty(m, Bare);
      ShownIsAllowed(u, r, discrete, o, Default(key, text));
      ContractFields(r, discrete, o);
      RecordUnit(u, r, discrete, o, e);
      SeenWhole(m);
      var fact := LegacyFact(u, w, text, WholeMention(m, Bare));
      assert DisplayFact(u, w, text) == [fact];
      LegacyFactIn(u, w, AllowedMentions(w), text, fact);
      OnlyItem(u, w);
      assert fact in Authority(u, [w]) && IsMeasure(fact, UnitOf(e).value, WithUnit(m));
    }
  }

  lemma SeenWhole(m: nat)
    requires OneToken(m)
    ensures WholeMention(m, Bare) == Parsed(WithUnit(m), None, None)
  {}

  lemma QuantityField(u: Unicode, w: Record, f: (string, Value), unit: string, value: real)
    requires ItemUnit(u, w) == Some(unit)
    ensures (exists fact :: fact in FieldFact(u, w, f) && IsMeasure(fact, unit, value))
       <==> f.1 == Num(value) && QuantityKey(u, f.0)
  {
    hide ItemUnit, EvidenceId, FieldDisplay, ContainsAny, FieldFact;
    if f.1 == Num(value) && QuantityKey(u, f.0) {
      var fact := Fact(value, Quantity, f.0, EvidenceId(w), Some(unit), FieldDisplay(w, f.0), false);
      FieldFactIs(u, w, f, fact);
      assert fact in FieldFact(u, w, f) && IsMeasure(fact, unit, value);
    }
    if fact :| fact in FieldFact(u, w, f) && IsMeasure(fact, unit, value) {
      FieldFactIs(u, w, f, fact);
    }
  }

  /** In other types only a quantity field of exactly that value backs a number with its unit. */
  lemma CountMeasuredIff(u: Unicode, r: Record, discrete: Value -> bool, o: seq<string>, e: Ending, value: real)
    requires u.Valid() && MeasureEnding(e) && Flat(r) && Get(r, "unit") == Str(UnitOf(e).value)
    requires Show(Get(r, "type")) !in LEGACY_QUANTITY_TYPES
    ensures Measured(Authority(u, [Contract(r, discrete, o)]), UnitOf(e).value, value)
       <==> exists f :: f in r && f.1 == Num(value) && QuantityKey(u, f.0)
  {
    hide Get, Contract, FieldFacts, LegacyFacts, Repeatable, FieldFact, DisplayFact, AllowedMentions, Flat, ItemUnit;
    hide EffectiveValues, QuantityKey, Ops;
    var w, unit := Contract(r, discrete, o), UnitOf(e).value;
    FlatBasics(r);
    ContractFields(r, discrete, o);
    RecordUnit(u, r, discrete, o, e);
    OnlyItem(u, w);
    if Measured(Authority(u, [w]), unit, value) {
      var fact :| fact in ItemFacts(u, w) && IsMeasure(fact, unit, value);
      if fact in FieldFacts(u, w, w) {
        FieldFactFrom(u, w, w, fact);
        var f :| f in w && fact in FieldFact(u, w, f);
        QuantityField(u, w, f, unit, value);
        assert f in r;
      } else {
        LegacyMention(u, r, discrete, o, fact);
        var t :| Repeatable(r, t) && fact in DisplayFact(u, w, t);
        DisplayFactKinds(u, r, w, t, fact);
      }
    }
    if f :| f in r && f.1 == Num(value) && QuantityKey(u, f.0) {
      assert f == (f.0, Num(value));
      NumberStays(r, discrete, o, f.0, value);
      QuantityField(u, w, f, unit, value);
      var fact :| fact in FieldFact(u, w, f) && IsMeasure(fact, unit, value);
      FieldFactIn(u, w, w, f, fact);
      assert fact in Authority(u, [w]);
    }
  }

  /** "lít" and "ml" are no words of the mention pattern: with them a shown quantity passes exactly as without a unit. */
  lemma UnknownUnitPassesIff(u: Unicode, lead: string, mark: string, r: Record, discrete: Value -> bool, o: seq<string>,
      key: string, x: real, word: string)
    requires u.Valid() && u.Matching() && Introduces(u, lead) && Mark(mark) && (word == " lít" || word == " ml")
    requires KeyedDisplay(r) && IsRateOrder(o) && (key, Num(x)) in r && key !in COST_KEYS && key !in RATE_KEYS && x >= 0.0
    ensures var w, d := Contract(r, discrete, o), Precision(discrete, Get(r, "unit"));
      NumbersVerdict(u, lead + (ViNumber(x, d) + (word + mark)), [w]) == Pass
      <==> NumbersVerdict(u, lead + (ViNumber(x, d) + mark), [w]) == Pass
  {
    hide Ops, Contract, Authorized, Authority, LeftOver, KeyedDisplay, IsRateOrder, ViNumber, Units, Get;
    hide NumbersVerdict, Introduces, Announced, Grouped, Trails;
    UnknownUnits(u, mark);
    MarkTrails(u, Bare, mark);
    ShownQuantityPassesIff(u, lead, word + mark, r, discrete, o, key, x);
    ShownQuantityPassesIff(u, lead, mark, r, discrete, o, key, x);
  }
}
