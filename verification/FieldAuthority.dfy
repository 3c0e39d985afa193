/**
 What a numeric field or an allowed mention of an evidence record backs, said of the key's own text: `_fact_kind`,
 `build_numeric_authority` and `equivalent_or_rounded` of app/decision_intelligence/numeric_authority.py taken together.
 */
module FieldAuthority {
  import opened Text
  import opened Records
  import opened Decimals
  import opened NumericAuthority

  // ---------- where the facts come from ----------

  /** A fact of a numeric field is made from one of the record's numbers. */
  lemma {:induction false} FieldFactFrom(u: Unicode, item: Record, fields: Record, fact: Fact)
    requires fact in FieldFacts(u, item, fields)
    ensures exists f :: f in fields && fact in FieldFact(u, item, f)
  {
    hide FieldFact;
    assert fields == [fields[0]] + fields[1..];
    if fact !in FieldFact(u, item, fields[0]) { FieldFactFrom(u, item, fields[1..], fact); }
  }

  lemma {:induction false} FieldFactIn(u: Unicode, item: Record, fields: Record, f: (string, Value), fact: Fact)
    requires f in fields && fact in FieldFact(u, item, f)
    ensures fact in FieldFacts(u, item, fields)
  {
    hide FieldFact;
    assert fields == [fields[0]] + fields[1..];
    if f != fields[0] { FieldFactIn(u, item, fields[1..], f, fact); }
  }

  lemma {:induction false} LegacyFactFrom(u: Unicode, item: Record, mentions: seq<string>, fact: Fact)
    requires fact in LegacyFacts(u, item, mentions)
    ensures exists t :: t in mentions && fact in DisplayFact(u, item, t)
  {
    hide DisplayFact;
    assert mentions == [mentions[0]] + mentions[1..];
    if fact !in DisplayFact(u, item, mentions[0]) { LegacyFactFrom(u, item, mentions[1..], fact); }
  }

  lemma {:induction false} LegacyFactIn(u: Unicode, item: Record, mentions: seq<string>, t: string, fact: Fact)
    requires t in mentions && fact in DisplayFact(u, item, t)
    ensures fact in LegacyFacts(u, item, mentions)
  {
    hide DisplayFact;
    assert mentions == [mentions[0]] + mentions[1..];
    if t != mentions[0] { LegacyFactIn(u, item, mentions[1..], t, fact); }
  }

  lemma {:induction false} AuthorityMember(u: Unicode, evidence: seq<Record>, fact: Fact)
    ensures fact in Authority(u, evidence) <==> exists item :: item in evidence && fact in ItemFacts(u, item)
  {
    hide ItemFacts;
    if evidence != [] {
      assert evidence == [evidence[0]] + evidence[1..];
      AuthorityMember(u, evidence[1..], fact);
    }
  }

  /** The registry has the facts of the fields and of the allowed mentions of its items, and no others. */
  lemma FactSources(u: Unicode, evidence: seq<Record>, fact: Fact)
    ensures fact in Authority(u, evidence) <==>
      exists item :: item in evidence && (FromField(u, item, fact) || FromMention(u, item, fact))
  {
    hide FieldFacts, LegacyFacts, EffectiveValues, AllowedMentions, FieldFact, DisplayFact;
    AuthorityMember(u, evidence, fact);
    if item :| item in evidence && fact in ItemFacts(u, item) {
      if fact in FieldFacts(u, item, EffectiveValues(item)) {
        FieldFactFrom(u, item, EffectiveValues(item), fact);
      } else {
        LegacyFactFrom(u, item, AllowedMentions(item), fact);
      }
      assert FromField(u, item, fact) || FromMention(u, item, fact);
    }
    if item :| item in evidence && (FromField(u, item, fact) || FromMention(u, item, fact)) {
      if FromField(u, item, fact) {
        var f :| f in EffectiveValues(item) && fact in FieldFact(u, item, f);
        FieldFactIn(u, item, EffectiveValues(item), f, fact);
      } else {
        var t :| t in AllowedMentions(item) && fact in DisplayFact(u, item, t);
        LegacyFactIn(u, item, AllowedMentions(item), t, fact);
      }
      assert fact in ItemFacts(u, item);
    }
  }

  ghost predicate FromField(u: Unicode, item: Record, fact: Fact) {
    exists f :: f in EffectiveValues(item) && fact in FieldFact(u, item, f)
  }

  ghost predicate FromMention(u: Unicode, item: Record, fact: Fact) {
    exists t :: t in AllowedMentions(item) && fact in DisplayFact(u, item, t)
  }

  // ---------- the values of an item ----------

  lemma {:induction false} GetCons(r: Record, f: (string, Value), k: string)
    ensures Get([f] + r, k) == if Has(r, k) then Get(r, k) else if f.0 == k then f.1 else Null
    ensures Has([f] + r, k) <==> f.0 == k || Has(r, k)
  {
    var all := [f] + r;
    assert forall x :: x in all <==> x == f || x in r;
    if r != [] {
      var n := |r| - 1;
      assert all[|all| - 1] == r[n] && all[..|all| - 1] == [f] + r[..n];
      assert forall x :: x in r <==> x in r[..n] || x == r[n];
      GetCons(r[..n], f, k);
    } else {
      assert all[..0] == [];
    }
  }

  /** update: the other's value where it has the key, what was there elsewhere. */
  lemma {:induction false} UpdateGet(r: Record, other: Record, k: string)
    requires Keyed(r)
    ensures var w := Update(r, other);
      && Keyed(w) && (Has(w, k) <==> Has(r, k) || Has(other, k))
      && Get(w, k) == if Has(other, k) then Get(other, k) else Get(r, k)
    decreases |other|
  {
    hide Put, Get;
    if other != [] {
      var f := other[0];
      PutGet(r, f.0, f.1);
      UpdateGet(Put(r, f.0, f.1), other[1..], k);
      GetCons(other[1..], f, k);
      assert other == [f] + other[1..];
    } else {
      assert !Has(other, k);
    }
  }

  /** The nested dictionary of an item. */
  predicate Nests(item: Record, nested: Record) {
    Get(item, "values") == Dict(nested)
  }

  /** An item's values are those of its nested dictionary, and its own where that has none. */
  lemma EffectiveIs(item: Record, k: string)
    requires Keyed(item)
    ensures Keyed(EffectiveValues(item))
    ensures forall nested | Nests(item, nested) ::
      && (Has(EffectiveValues(item), k) <==> Has(item, k) || Has(nested, k))
      && Get(EffectiveValues(item), k) == if Has(nested, k) then Get(nested, k) else Get(item, k)
    ensures !Get(item, "values").Dict? ==> EffectiveValues(item) == item
  {
    hide Get, Update;
    if Get(item, "values").Dict? { UpdateGet(item, Get(item, "values").fields, k); }
  }

  /** The unit is that of the nested dictionary, if it has a true one, else the item's own. */
  lemma ItemUnitIs(u: Unicode, item: Record, nested: Record)
    requires Keyed(item) && Nests(item, nested)
    ensures ItemUnit(u, item) == NormalizeUnit(u, Show(
      if Has(nested, "unit") && Truthy(Get(nested, "unit")) then Get(nested, "unit") else Get(item, "unit")))
  {
    hide Get, Update, NormalizeUnit;
    EffectiveIs(item, "unit");
  }

  lemma PlainUnitIs(u: Unicode, item: Record)
    requires !Get(item, "values").Dict?
    ensures ItemUnit(u, item) == NormalizeUnit(u, Show(Get(item, "unit")))
  {
    hide Get, NormalizeUnit;
  }

  lemma {:induction false} StringsMember(vs: seq<Value>, t: string)
    ensures t in Strings(vs) <==> Str(t) in vs
  {
    if vs != [] {
      StringsMember(vs[1..], t);
      assert vs == [vs[0]] + vs[1..];
    }
  }

  /** The allowed mentions are the texts of the list under their key. */
  lemma AllowedIff(item: Record, t: string)
    ensures t in AllowedMentions(item) <==>
      Get(item, "allowed_numeric_mentions").List? && Str(t) in Get(item, "allowed_numeric_mentions").items
  {
    hide Get;
    if Get(item, "allowed_numeric_mentions").List? { StringsMember(Get(item, "allowed_numeric_mentions").items, t); }
  }

  // ---------- what a key is about ----------

  /** A key that names money. */
  predicate MoneyKey(u: Unicode, key: string) {
    ContainsAny(Fold(u, key), ["cost", "budget", "spend", "over", "remaining", "purchase"])
  }

  /** A key that names a share and no money. */
  predicate ShareKey(u: Unicode, key: string) {
    !MoneyKey(u, key) && ContainsAny(Fold(u, key), ["rate", "probability", "utilization", "pct", "percent"])
  }

  /** Such a key whose number is a percentage already. */
  predicate InPercent(u: Unicode, key: string) {
    Contains(Fold(u, key), "pct") || Contains(Fold(u, key), "percentage_point")
  }

  /** A key that names a duration, no money and no share. */
  predicate DayKey(u: Unicode, key: string) {
    !MoneyKey(u, key) && !ShareKey(u, key) && ContainsAny(Fold(u, key), ["day", "delay", "lead_time"])
  }

  predicate OtherKey(u: Unicode, key: string) {
    !MoneyKey(u, key) && !ShareKey(u, key) && !DayKey(u, key)
  }

  /** The three keys that are counts whatever the unit of their record. */
  predicate CountName(u: Unicode, key: string) {
    Fold(u, key) == "scenario_count" || Fold(u, key) == "warning_count" || Fold(u, key) == "hard_violation_count"
  }

  /** In a record with a unit every other key is a quantity. */
  predicate QuantityKey(u: Unicode, key: string) {
    OtherKey(u, key) && !CountName(u, key)
  }

  predicate CountKey(u: Unicode, key: string, unit: Option<string>) {
    && OtherKey(u, key) && (unit.None? || CountName(u, key))
    && exists i :: 0 <= i <= |Fold(u, key)| && Fold(u, key)[i..] == "count"
  }

  /** The number that a field states: its own, or a hundred times that for a share as a fraction. */
  function Stated(u: Unicode, f: (string, Value)): Option<real> {
    match f.1
    case Num(x) => Some(if ShareKey(u, f.0) && !InPercent(u, f.0) then 100.0 * x else x)
    case _ => None
  }

  /** Which fields state a number of a kind. */
  ghost predicate Speaks(u: Unicode, item: Record, f: (string, Value), kind: Kind) {
    match kind
    case Money => MoneyKey(u, f.0)
    case Percent => ShareKey(u, f.0)
    case Days => DayKey(u, f.0)
    case Quantity => QuantityKey(u, f.0) && ItemUnit(u, item).Some?
    case Tally => CountKey(u, f.0, ItemUnit(u, item))
  }

  /** A field makes a fact exactly when it states a number of that kind; only money and shares may be approximated. */
  lemma FieldFactIs(u: Unicode, item: Record, f: (string, Value), fact: Fact)
    ensures fact in FieldFact(u, item, f) <==>
      && Stated(u, f) == Some(fact.value) && Speaks(u, item, f, fact.kind)
      && fact.key == f.0 && fact.evidenceId == EvidenceId(item) && fact.display == FieldDisplay(item, f.0)
      && fact.unit == (if fact.kind == Quantity then ItemUnit(u, item) else None)
      && (fact.approximate <==> fact.kind == Money || fact.kind == Percent)
  {
    hide ItemUnit, EvidenceId, FieldDisplay, Contains, Fold;
    EndsIff(Fold(u, f.0), "count");
    CountNamesPlain();
  }

  /** None of the words occurs when each has a letter that the text lacks. */
  lemma NoneContained(s: string, ps: seq<string>, letters: string)
    requires |ps| == |letters| && forall i | 0 <= i < |ps| :: letters[i] in ps[i] && letters[i] !in s
    ensures !ContainsAny(s, ps)
  {
    hide Contains;
    forall p | p in ps
      ensures !Contains(s, p)
    {
      var i :| 0 <= i < |ps| && ps[i] == p;
      AbsentLetter(s, p, letters[i]);
    }
  }

  /** The three counts have no quantity word in their names, so the list of those words decides nothing. */
  lemma CountNamesPlain()
    ensures !ContainsAny("scenario_count", QUANTITY_KEYS) && !ContainsAny("warning_count", QUANTITY_KEYS)
    ensures !ContainsAny("hard_violation_count", QUANTITY_KEYS)
  {
    ScenarioPlain();
    WarningPlain();
    ViolationPlain();
  }

  lemma ScenarioPlain()
    ensures !ContainsAny("scenario_count", QUANTITY_KEYS)
  {
    hide ContainsAny;
    NoneContained("scenario_count", QUANTITY_KEYS, "qdvfhwdpppgv");
  }

  lemma WarningPlain()
    ensures !ContainsAny("warning_count", QUANTITY_KEYS)
  {
    hide ContainsAny;
    NoneContained("warning_count", QUANTITY_KEYS, "qdvfssepppp" + "v");
  }

  lemma ViolationPlain()
    ensures !ContainsAny("hard_violation_count", QUANTITY_KEYS)
  {
    hide ContainsAny;
    NoneContained("hard_violation_count", QUANTITY_KEYS, "qeefswepppge");
  }

  lemma EndsIff(s: string, p: string)
    ensures EndsWith(s, p) <==> exists i :: 0 <= i <= |s| && s[i..] == p
  {
    if |p| <= |s| && s[|s| - |p|..] == p { assert 0 <= |s| - |p| <= |s|; }
    if i :| 0 <= i <= |s| && s[i..] == p { assert i == |s| - |p|; }
  }

  // ---------- what an allowed mention is about ----------

  /** The types in which a mention without a kind of its own is a quantity. */
  predicate MeasuredType(item: Record) {
    Show(Get(item, "type")) in {
      "DEMAND_HORIZON_SUMMARY", "DEMAND_ORDER_ALIGNMENT", "PROCUREMENT_QUANTITY", "NO_PLANNED_PURCHASE_BASELINE",
      "INGREDIENT_OPERATIONAL_RISK"}
  }

  /** What a mention without a kind counts as. */
  function KindIn(item: Record, p: Parsed): Kind {
    match p.kind case Some(kind) => kind case None => if MeasuredType(item) then Quantity else Tally
  }

  /** A mention makes one fact when it parses: of the kind it reads as, and never to be approximated. */
  lemma MentionFactIs(u: Unicode, item: Record, t: string, fact: Fact)
    ensures fact in DisplayFact(u, item, t) <==>
      && ParseMention(u, t).Some?
      && var p := ParseMention(u, t).value;
      && fact.value == p.value && fact.kind == KindIn(item, p)
      && fact.unit == (if KindIn(item, p) != Quantity then None else if p.unit.Some? then p.unit else ItemUnit(u, item))
      && fact.key == "legacy_display" && fact.evidenceId == EvidenceId(item) && fact.display == Some(t) && !fact.approximate
  {
    hide ParseMention, ItemUnit, EvidenceId, Get;
  }

  // ---------- what is backed ----------

  /** Within the tolerance of an approximating word: three hundredths of a sum, or one percentage point. */
  predicate Near(a: real, v: real, kind: Kind) {
    match kind
    case Money => v != 0.0 && Magnitude(a - v) <= 0.03 * Magnitude(v)
    case Percent => Magnitude(a - v) <= 1.0
    case _ => false
  }

  /** A mention fits a stated number of that kind and unit. */
  predicate Fits(m: Parsed, kind: Kind, v: real, unit: Option<string>, tolerant: bool) {
    && (m.kind.None? || m.kind == Some(kind))
    && (kind == Quantity && m.kind.Some? && m.unit.Some? && unit.Some? ==> m.unit == unit)
    && (m.value == v || (tolerant && Near(m.value, v, kind)))
  }

  lemma FitsIff(m: Parsed, fact: Fact, approximate: bool)
    ensures EquivalentOrRounded(m, fact, approximate)
       <==> Fits(m, fact.kind, fact.value, fact.unit, approximate && fact.approximate)
  {
    if fact.kind == Money && fact.value != 0.0 { RatioIff(Magnitude(m.value - fact.value), Magnitude(fact.value)); }
  }

  lemma RatioIff(error: real, size: real)
    requires size > 0.0
    ensures error / size <= 0.03 <==> error <= 0.03 * size
  {
    assert error == (error / size) * size;
    if error / size <= 0.03 {
      assert (0.03 - error / size) * size >= 0.0;
    } else {
      assert (error / size - 0.03) * size > 0.0;
    }
  }

  /** The unit of a field's number. */
  function UnitFor(u: Unicode, item: Record, kind: Kind): Option<string> {
    if kind == Quantity then ItemUnit(u, item) else None
  }

  predicate FieldFits(u: Unicode, item: Record, f: (string, Value), kind: Kind, m: Parsed, approximate: bool) {
    match Stated(u, f)
    case Some(v) => Fits(m, kind, v, UnitFor(u, item, kind), approximate)
    case None => false
  }

  ghost predicate FieldBacks(u: Unicode, item: Record, m: Parsed, approximate: bool) {
    exists f, kind :: f in EffectiveValues(item) && Speaks(u, item, f, kind) && FieldFits(u, item, f, kind, m, approximate)
  }

  predicate MentionFits(u: Unicode, item: Record, t: string, m: Parsed) {
    match ParseMention(u, t)
    case Some(p) => Fits(m, KindIn(item, p), p.value, if p.unit.Some? then p.unit else ItemUnit(u, item), false)
    case None => false
  }

  ghost predicate MentionBacks(u: Unicode, item: Record, m: Parsed) {
    exists t :: t in AllowedMentions(item) && MentionFits(u, item, t, m)
  }

  ghost predicate Backs(u: Unicode, item: Record, m: Parsed, approximate: bool) {
    FieldBacks(u, item, m, approximate) || MentionBacks(u, item, m)
  }

  lemma FactBacks(u: Unicode, item: Record, m: Parsed, approximate: bool, fact: Fact)
    requires EquivalentOrRounded(m, fact, approximate) && (FromField(u, item, fact) || FromMention(u, item, fact))
    ensures Backs(u, item, m, approximate)
  {
    hide EquivalentOrRounded, FieldFact, DisplayFact, EffectiveValues, AllowedMentions, Stated, Speaks, ParseMention, Fits;
    hide ItemUnit, EvidenceId, FieldDisplay, Near;
    FitsIff(m, fact, approximate);
    if FromField(u, item, fact) {
      var f :| f in EffectiveValues(item) && fact in FieldFact(u, item, f);
      FieldFactIs(u, item, f, fact);
      FitsMore(m, fact.kind, fact.value, fact.unit, fact.approximate, approximate);
      assert FieldFits(u, item, f, fact.kind, m, approximate);
    } else {
      var t :| t in AllowedMentions(item) && fact in DisplayFact(u, item, t);
      MentionFactIs(u, item, t, fact);
      FitsUnit(m, fact.kind, fact.value, fact.unit, if ParseMention(u, t).value.unit.Some? then ParseMention(u, t).value.unit else ItemUnit(u, item));
      assert MentionFits(u, item, t, m);
    }
  }

  lemma FitsMore(m: Parsed, kind: Kind, v: real, unit: Option<string>, able: bool, approximate: bool)
    requires able <==> kind == Money || kind == Percent
    ensures Fits(m, kind, v, unit, approximate && able) <==> Fits(m, kind, v, unit, approximate)
  {}

  /** The unit only matters for quantities. */
  lemma FitsUnit(m: Parsed, kind: Kind, v: real, a: Option<string>, b: Option<string>)
    requires kind == Quantity ==> a == b
    ensures Fits(m, kind, v, a, false) <==> Fits(m, kind, v, b, false)
  {}

  lemma BacksFact(u: Unicode, item: Record, m: Parsed, approximate: bool)
    requires Backs(u, item, m, approximate)
    ensures exists fact :: (FromField(u, item, fact) || FromMention(u, item, fact)) && EquivalentOrRounded(m, fact, approximate)
  {
    hide EquivalentOrRounded, FieldFact, DisplayFact, EffectiveValues, AllowedMentions, Stated, Speaks, ParseMention, Fits;
    hide ItemUnit, EvidenceId, FieldDisplay, Near;
    if FieldBacks(u, item, m, approximate) {
      var f, kind :| f in EffectiveValues(item) && Speaks(u, item, f, kind) && FieldFits(u, item, f, kind, m, approximate);
      var fact := Fact(Stated(u, f).value, kind, f.0, EvidenceId(item), UnitFor(u, item, kind), FieldDisplay(item, f.0),
                       kind == Money || kind == Percent);
      FieldFactIs(u, item, f, fact);
      FitsIff(m, fact, approximate);
      FitsMore(m, kind, fact.value, fact.unit, fact.approximate, approximate);
      assert FromField(u, item, fact);
    } else {
      var t :| t in AllowedMentions(item) && MentionFits(u, item, t, m);
      var p := ParseMention(u, t).value;
      var unit := if p.unit.Some? then p.unit else ItemUnit(u, item);
      var fact := Fact(p.value, KindIn(item, p), "legacy_display", EvidenceId(item),
                       if KindIn(item, p) == Quantity then unit else None, Some(t), false);
      MentionFactIs(u, item, t, fact);
      FitsIff(m, fact, approximate);
      FitsUnit(m, fact.kind, fact.value, fact.unit, unit);
      assert FromMention(u, item, fact);
    }
  }

  /** A mention is authorised exactly when a field or an allowed mention of some item fits it. */
  lemma AuthorisedIff(u: Unicode, payloads: seq<Record>, m: Parsed, approximate: bool)
    ensures Authorized(m, Authority(u, payloads), approximate) <==>
      exists item :: item in payloads && Backs(u, item, m, approximate)
  {
    hide EquivalentOrRounded, Authority, Backs, FromField, FromMention;
    if Authorized(m, Authority(u, payloads), approximate) {
      var fact :| fact in Authority(u, payloads) && EquivalentOrRounded(m, fact, approximate);
      FactSources(u, payloads, fact);
      var item :| item in payloads && (FromField(u, item, fact) || FromMention(u, item, fact));
      FactBacks(u, item, m, approximate, fact);
    }
    if item :| item in payloads && Backs(u, item, m, approximate) {
      BacksFact(u, item, m, approximate);
      var fact :| (FromField(u, item, fact) || FromMention(u, item, fact)) && EquivalentOrRounded(m, fact, approximate);
      FactSources(u, payloads, fact);
      assert fact in Authority(u, payloads);
    }
  }

  // ---------- kind by kind ----------

  /** Some field of the item states exactly `n` of that kind. */
  ghost predicate States(u: Unicode, item: Record, kind: Kind, n: real) {
    exists f :: f in EffectiveValues(item) && Speaks(u, item, f, kind) && Stated(u, f) == Some(n)
  }

  /** An allowed mention of the item reads as exactly `n` of that kind. */
  ghost predicate Lists(u: Unicode, item: Record, kind: Kind, n: real) {
    exists t :: t in AllowedMentions(item) && Reads(u, item, t, kind, n)
  }

  predicate Reads(u: Unicode, item: Record, t: string, kind: Kind, n: real) {
    match ParseMention(u, t) case Some(p) => p.value == n && KindIn(item, p) == kind case None => false
  }

  lemma ExactBacks(u: Unicode, item: Record, kind: Kind, n: real, unit: Option<string>, approximate: bool)
    requires kind == Days || kind == Tally
    ensures Backs(u, item, Parsed(n, Some(kind), unit), approximate)
       <==> States(u, item, kind, n) || Lists(u, item, kind, n)
  {
    hide EffectiveValues, AllowedMentions, Stated, Speaks, ParseMention, KindIn, ItemUnit;
    var m := Parsed(n, Some(kind), unit);
    if f :| f in EffectiveValues(item) && Speaks(u, item, f, kind) && Stated(u, f) == Some(n) {
      assert FieldFits(u, item, f, kind, m, approximate);
    }
    if t :| t in AllowedMentions(item) && Reads(u, item, t, kind, n) {
      assert MentionFits(u, item, t, m);
    }
    if t :| t in AllowedMentions(item) && MentionFits(u, item, t, m) {
      assert Reads(u, item, t, kind, n);
    }
  }

  /** Days and counts: exactly the numbers that a field states or an allowed mention reads as, whatever words come before. */
  lemma ExactKindIff(u: Unicode, payloads: seq<Record>, kind: Kind, n: real, unit: Option<string>, approximate: bool)
    requires kind == Days || kind == Tally
    ensures Authorized(Parsed(n, Some(kind), unit), Authority(u, payloads), approximate) <==>
      exists item :: item in payloads && (States(u, item, kind, n) || Lists(u, item, kind, n))
  {
    hide Backs, States, Lists, Authority, Authorized;
    AuthorisedIff(u, payloads, Parsed(n, Some(kind), unit), approximate);
    forall item
      ensures Backs(u, item, Parsed(n, Some(kind), unit), approximate)
         <==> States(u, item, kind, n) || Lists(u, item, kind, n)
    {
      ExactBacks(u, item, kind, n, unit, approximate);
    }
  }

  /** Some field of the item states about `n` of that kind. */
  ghost predicate StatesNear(u: Unicode, item: Record, kind: Kind, n: real) {
    exists f :: f in EffectiveValues(item) && Speaks(u, item, f, kind) && StatedNear(u, f, kind, n)
  }

  predicate StatedNear(u: Unicode, f: (string, Value), kind: Kind, n: real) {
    match Stated(u, f) case Some(v) => Near(n, v, kind) case None => false
  }

  lemma TolerantBacks(u: Unicode, item: Record, kind: Kind, n: real, unit: Option<string>, approximate: bool)
    requires kind == Money || kind == Percent
    ensures Backs(u, item, Parsed(n, Some(kind), unit), approximate)
       <==> States(u, item, kind, n) || Lists(u, item, kind, n) || (approximate && StatesNear(u, item, kind, n))
  {
    hide EffectiveValues, AllowedMentions, Stated, Speaks, ParseMention, KindIn, ItemUnit, Near;
    var m := Parsed(n, Some(kind), unit);
    if f :| f in EffectiveValues(item) && Speaks(u, item, f, kind) && Stated(u, f) == Some(n) {
      assert FieldFits(u, item, f, kind, m, approximate);
    }
    if approximate {
      if f :| f in EffectiveValues(item) && Speaks(u, item, f, kind) && StatedNear(u, f, kind, n) {
        assert FieldFits(u, item, f, kind, m, approximate);
      }
    }
    if t :| t in AllowedMentions(item) && Reads(u, item, t, kind, n) {
      assert MentionFits(u, item, t, m);
    }
    if t :| t in AllowedMentions(item) && MentionFits(u, item, t, m) {
      assert Reads(u, item, t, kind, n);
    }
    if f, k :| f in EffectiveValues(item) && Speaks(u, item, f, k) && FieldFits(u, item, f, k, m, approximate) {
      assert k == kind && (Stated(u, f) == Some(n) || StatedNear(u, f, kind, n));
    }
  }

  /** Sums of money and percentages: those too, and after an approximating word what is near to a field's number. */
  lemma TolerantKindIff(u: Unicode, payloads: seq<Record>, kind: Kind, n: real, unit: Option<string>, approximate: bool)
    requires kind == Money || kind == Percent
    ensures Authorized(Parsed(n, Some(kind), unit), Authority(u, payloads), approximate) <==>
      exists item :: item in payloads &&
        (States(u, item, kind, n) || Lists(u, item, kind, n) || (approximate && StatesNear(u, item, kind, n)))
  {
    hide Backs, States, Lists, Authority, Authorized, StatesNear;
    AuthorisedIff(u, payloads, Parsed(n, Some(kind), unit), approximate);
    forall item
      ensures Backs(u, item, Parsed(n, Some(kind), unit), approximate)
         <==> States(u, item, kind, n) || Lists(u, item, kind, n) || (approximate && StatesNear(u, item, kind, n))
    {
      TolerantBacks(u, item, kind, n, unit, approximate);
    }
  }

  /** An allowed mention of the item reads as exactly `n` of the unit, which may be the item's. */
  ghost predicate Measures(u: Unicode, item: Record, n: real, unit: string) {
    exists t :: t in AllowedMentions(item) && Reads(u, item, t, Quantity, n) && ReadUnit(u, item, t, unit)
  }

  predicate ReadUnit(u: Unicode, item: Record, t: string, unit: string) {
    match ParseMention(u, t)
    case Some(p) => if p.unit.Some? then p.unit == Some(unit) else ItemUnit(u, item).None? || ItemUnit(u, item) == Some(unit)
    case None => false
  }

  lemma QuantityBacks(u: Unicode, item: Record, n: real, unit: string, approximate: bool)
    ensures Backs(u, item, Parsed(n, Some(Quantity), Some(unit)), approximate)
       <==> (ItemUnit(u, item) == Some(unit) && States(u, item, Quantity, n)) || Measures(u, item, n, unit)
  {
    hide EffectiveValues, AllowedMentions, Stated, ParseMention, KindIn, ItemUnit, QuantityKey;
    var m := Parsed(n, Some(Quantity), Some(unit));
    if f :| f in EffectiveValues(item) && Speaks(u, item, f, Quantity) && Stated(u, f) == Some(n) {
      assert ItemUnit(u, item) == Some(unit) ==> FieldFits(u, item, f, Quantity, m, approximate);
    }
    if t :| t in AllowedMentions(item) && Reads(u, item, t, Quantity, n) && ReadUnit(u, item, t, unit) {
      assert MentionFits(u, item, t, m);
    }
    if t :| t in AllowedMentions(item) && MentionFits(u, item, t, m) {
      assert Reads(u, item, t, Quantity, n) && ReadUnit(u, item, t, unit);
    }
  }

  /** Quantities: exactly the numbers of quantity fields in that unit, or of allowed mentions in it or in none. */
  lemma QuantityIff(u: Unicode, payloads: seq<Record>, n: real, unit: string, approximate: bool)
    ensures Authorized(Parsed(n, Some(Quantity), Some(unit)), Authority(u, payloads), approximate) <==>
      exists item :: item in payloads &&
        ((ItemUnit(u, item) == Some(unit) && States(u, item, Quantity, n)) || Measures(u, item, n, unit))
  {
    hide Backs, States, Measures, Authority, Authorized, ItemUnit;
    AuthorisedIff(u, payloads, Parsed(n, Some(Quantity), Some(unit)), approximate);
    forall item
      ensures Backs(u, item, Parsed(n, Some(Quantity), Some(unit)), approximate)
         <==> (ItemUnit(u, item) == Some(unit) && States(u, item, Quantity, n)) || Measures(u, item, n, unit)
    {
      QuantityBacks(u, item, n, unit, approximate);
    }
  }

  lemma PlainFits(n: real, unit: Option<string>, fact: Fact, approximate: bool)
    ensures EquivalentOrRounded(Parsed(n, None, unit), fact, approximate)
       <==> EquivalentOrRounded(Parsed(n, Some(fact.kind), None), fact, approximate)
    ensures forall kind | kind != fact.kind :: !EquivalentOrRounded(Parsed(n, Some(kind), None), fact, approximate)
  {}

  /** A number without a kind is backed by any number of any kind. */
  lemma PlainIff(u: Unicode, payloads: seq<Record>, n: real, unit: Option<string>, approximate: bool)
    ensures Authorized(Parsed(n, None, unit), Authority(u, payloads), approximate) <==>
      exists kind :: Authorized(Parsed(n, Some(kind), None), Authority(u, payloads), approximate)
  {
    hide Authority, EquivalentOrRounded;
    var facts := Authority(u, payloads);
    if Authorized(Parsed(n, None, unit), facts, approximate) {
      var fact :| fact in facts && EquivalentOrRounded(Parsed(n, None, unit), fact, approximate);
      PlainFits(n, unit, fact, approximate);
      assert Authorized(Parsed(n, Some(fact.kind), None), facts, approximate);
    }
    if kind :| Authorized(Parsed(n, Some(kind), None), facts, approximate) {
      var fact :| fact in facts && EquivalentOrRounded(Parsed(n, Some(kind), None), fact, approximate);
      PlainFits(n, unit, fact, approximate);
      assert Authorized(Parsed(n, None, unit), facts, approximate);
    }
  }
}
