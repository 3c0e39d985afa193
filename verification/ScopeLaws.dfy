/**
 Which evidence a sentence is checked against, said of the items' own fields: `_scope_fragment` of
 app/decision_intelligence/narrative.py without its stages.
 */
module ScopeLaws {
  import opened Text
  import opened Records
  import opened Ordering
  import opened NumericAuthority
  import opened NumberCheck
  import opened Narrative

  // ---------- what an item is ----------

  predicate Is(item: Record, key: string, text: string) {
    Get(item, key) == Str(text)
  }

  predicate IsCausal(item: Record) {
    Is(item, "classification", "CAUSAL") || Is(item, "type", "PROCUREMENT_REASON")
  }

  predicate IsStress(item: Record) {
    Is(item, "type", "STRESS_SHORTAGE_OBSERVED") || Is(item, "type", "STRESS_CAPACITY_VIOLATION")
  }

  predicate IsPlanRisk(item: Record) {
    Is(item, "type", "SELECTED_PLAN_RISK_METRICS") || Is(item, "type", "RISK")
  }

  predicate IsRisk(item: Record) {
    IsStress(item) || IsPlanRisk(item) || Is(item, "type", "INGREDIENT_OPERATIONAL_RISK")
  }

  /** A comparison of two of the strategies, or no comparison. */
  predicate ComparesOnly(policy: Policy, item: Record, mentioned: set<string>) {
    Is(item, "type", "STRATEGY_COMPARISON") ==>
      && policy.normalise(Show(Get(item, "left_strategy"))) in mentioned
      && policy.normalise(Show(Get(item, "right_strategy"))) in mentioned
  }

  /** The item is about one of the ingredients. */
  predicate IsAbout(item: Record, ids: set<string>) {
    exists id :: id in ids && Is(item, "ingredient_id", id)
  }

  // ---------- what a sentence asks for ----------

  predicate SaysBest(lowered: string) {
    ContainsAny(lowered, ["lowest", "thấp nhất", "cheapest"])
  }

  predicate SaysChosen(lowered: string) {
    Contains(lowered, "được chọn") || Contains(lowered, "selected") || SaysBest(lowered)
  }

  predicate SaysThan(lowered: string) {
    ContainsAny(lowered, ["than", "hơn", "so với", "compared"])
  }

  predicate SaysStrategy(policy: Policy, text: string, lowered: string) {
    || policy.strategies(text) != {}
    || ContainsAny(lowered, ["cân bằng", "tiết kiệm", "an toàn", "strategy", "chiến lược"])
    || ContainsAny(lowered, ["fill rate", "mức đáp ứng", "purchase cost", "chi phí mua", "stockout"])
  }

  /** The types a sentence asks for, each with its words. */
  predicate AsksFor(policy: Policy, text: string, lowered: string, t: string) {
    || (t == "BUDGET_STATUS" && ContainsAny(lowered, ["ngân sách", "budget", "vượt", "overage", "remaining"]))
    || (t == "PROCUREMENT_QUANTITY" && ContainsAny(lowered, ["nhập", "đặt", "order", "ordering", "procurement"]))
    || (&& SaysStrategy(policy, text, lowered)
        && (|| (t == "STRATEGY_COMPARISON" && !SaysBest(lowered) && (SaysChosen(lowered) ==> SaysThan(lowered)))
            || (t == "PLAN_OVERVIEW" && SaysChosen(lowered) && (SaysBest(lowered) || !SaysThan(lowered)))
            || (t == "STRATEGY_SELECTION_PROOF" && SaysBest(lowered))))
  }

  predicate Answers(policy: Policy, text: string, lowered: string, item: Record) {
    Get(item, "type").Str? && AsksFor(policy, text, lowered, Get(item, "type").text)
  }

  /** The risk evidence that the wording singles out; `said` is the normalised sentence with "d" for "đ". */
  predicate RiskSaid(said: string, item: Record) {
    if ContainsAny(said, ["stress", "kiem tra suc chiu dung"]) then IsStress(item)
    else if ContainsAny(said, ["kich ban nhu cau bao thu", "conservative scenario"]) then
      Is(item, "type", "INGREDIENT_OPERATIONAL_RISK") && Is(item, "basis_kind", "conservative_design_scenario")
    else
      && ContainsAny(said, ["ke hoach duoc chon", "ke hoach hien tai", "selected plan", "current plan"])
      && IsPlanRisk(item)
  }

  /** The ingredients whose names the sentence contains, and the target. */
  ghost predicate Named(u: Unicode, lowered: string, rows: seq<Narrative.Named>, target: string, id: string) {
    || (target != "" && id == target)
    || exists r :: r in rows && r.ingredientId == id && r.name != "" && Contains(lowered, Fold(u, r.name))
  }

  // ---------- what is left, wording by wording ----------

  /** Everything a sentence is scoped by. */
  datatype Question = Question(
    u: Unicode, policy: Policy, text: string, structured: seq<Record>, rows: seq<Narrative.Named>, target: string)

  /** Items that are not causal go when the sentence asserts a cause and some item is. */
  ghost predicate AfterCause(q: Question, item: Record) {
    && item in q.structured
    && (q.policy.assertsCause(q.text) && (exists x :: x in q.structured && IsCausal(x)) ==> IsCausal(item))
  }

  /** Items of other types go when one has a type the sentence asks for. */
  ghost predicate AfterType(q: Question, item: Record) {
    var lowered := Fold(q.u, q.text);
    && AfterCause(q, item)
    && ((exists x :: AfterCause(q, x) && Answers(q.policy, q.text, lowered, x)) ==> Answers(q.policy, q.text, lowered, item))
  }

  /** With risk evidence left, everything goes but what the wording singles out, if there is any. */
  ghost predicate AfterRisk(q: Question, item: Record) {
    var said := PlainD(q.policy.normalise(q.text));
    && AfterType(q, item)
    && ((exists x :: AfterType(q, x) && IsRisk(x)) && (exists x :: AfterType(q, x) && RiskSaid(said, x)) ==> RiskSaid(said, item))
  }

  /** With two strategies named, comparisons with others go, if anything else is left. */
  ghost predicate AfterPair(q: Question, item: Record) {
    var mentioned := q.policy.strategies(q.text);
    && AfterRisk(q, item)
    && (|mentioned| >= 2 && (exists x :: AfterRisk(q, x) && ComparesOnly(q.policy, x, mentioned))
        ==> ComparesOnly(q.policy, item, mentioned))
  }

  ghost predicate AboutNamed(q: Question, item: Record) {
    exists id :: Is(item, "ingredient_id", id) && Named(q.u, Fold(q.u, q.text), q.rows, q.target, id)
  }

  /** Items about other ingredients go when one is about an ingredient that is named. */
  ghost predicate AfterEntity(q: Question, item: Record) {
    AfterPair(q, item) && ((exists x :: AfterPair(q, x) && AboutNamed(q, x)) ==> AboutNamed(q, item))
  }

  /** The facts of the item alone back some number of the sentence. */
  ghost predicate BacksNumber(q: Question, item: Record) {
    exists m :: m in Mentions(q.u, q.text) && Authorized(m.parsed, Authority(q.u, [item]), false)
  }

  /** Items that back no number of the sentence go when one backs one. */
  ghost predicate InScope(q: Question, item: Record) {
    AfterEntity(q, item) && ((exists x :: AfterEntity(q, x) && BacksNumber(q, x)) ==> BacksNumber(q, item))
  }

  // ---------- filters ----------

  lemma {:induction false} FilterTwice(items: seq<Record>, p: Record -> bool, k: Record -> bool)
    ensures Filter(Filter(items, p), k) == Filter(items, (x: Record) => p(x) && k(x))
  {
    if items != [] {
      FilterTwice(items[1..], p, k);
      var kept := Filter(items, p);
      assert p(items[0]) ==> kept[0] == items[0] && kept[1..] == Filter(items[1..], p);
    }
  }

  lemma {:induction false} FilterAgree(items: seq<Record>, p: Record -> bool, r: Record -> bool)
    requires forall x | x in items :: p(x) == r(x)
    ensures Filter(items, p) == Filter(items, r)
  {
    if items != [] {
      assert items[0] in items && forall x | x in items[1..] :: x in items;
      FilterAgree(items[1..], p, r);
    }
  }

  /** One narrowing: what does not have the property goes, unless all would go. */
  lemma NarrowFilter(items: seq<Record>, p: Record -> bool, keep: Record -> bool, r: Record -> bool)
    requires forall x | x in items :: r(x) == (p(x) && ((exists y :: y in items && p(y) && keep(y)) ==> keep(x)))
    ensures Narrow(Filter(items, p), keep) == Filter(items, r)
  {
    hide Filter;
    FilterTwice(items, p, keep);
    var both := (x: Record) => p(x) && keep(x);
    FilterMember(items, both);
    FilterMember(items, p);
    HeadIn(Filter(items, both));
    if exists y :: y in items && p(y) && keep(y) {
      var y :| y in items && p(y) && keep(y);
      assert y in Filter(items, both);
      FilterAgree(items, both, r);
    } else {
      FilterAgree(items, p, r);
    }
  }

  // ---------- the stages one by one ----------

  lemma CauseStage(q: Question)
    ensures CausalStage(q.policy, q.text, q.structured) == Filter(q.structured, (x: Record) => AfterCause(q, x))
  {
    hide Filter;
    var items, all := q.structured, (x: Record) => true;
    FilterFixed(items, all);
    if q.policy.assertsCause(q.text) {
      NarrowFilter(items, all, (item: Record) => Causal(item), (x: Record) => AfterCause(q, x));
    } else {
      FilterAgree(items, all, (x: Record) => AfterCause(q, x));
    }
  }

  lemma WantedIff(policy: Policy, text: string, lowered: string, t: string)
    ensures t in WantedTypes(policy, text, lowered) <==> AsksFor(policy, text, lowered, t)
  {
    hide Contains;
  }

  lemma TypeStage(q: Question)
    ensures var lowered := Fold(q.u, q.text);
      TypedStage(WantedTypes(q.policy, q.text, lowered), Filter(q.structured, (x: Record) => AfterCause(q, x)))
      == Filter(q.structured, (x: Record) => AfterType(q, x))
  {
    hide Filter, WantedTypes, AsksFor, AfterCause, Fold;
    var lowered := Fold(q.u, q.text);
    var types, items := WantedTypes(q.policy, q.text, lowered), q.structured;
    forall item: Record
      ensures HasType(item, types) <==> Answers(q.policy, q.text, lowered, item)
    {
      if Get(item, "type").Str? { WantedIff(q.policy, q.text, lowered, Get(item, "type").text); }
    }
    assert forall x :: AfterCause(q, x) ==> x in items by { InBase(q); }
    if types != {} {
      NarrowFilter(items, (x: Record) => AfterCause(q, x), (item: Record) => HasType(item, types), (x: Record) => AfterType(q, x));
    } else {
      FilterAgree(items, (x: Record) => AfterCause(q, x), (x: Record) => AfterType(q, x));
    }
  }

  lemma InBase(q: Question)
    ensures forall x :: AfterCause(q, x) ==> x in q.structured
    ensures forall x :: AfterType(q, x) ==> x in q.structured
    ensures forall x :: AfterRisk(q, x) ==> x in q.structured
    ensures forall x :: AfterPair(q, x) ==> x in q.structured
    ensures forall x :: AfterEntity(q, x) ==> x in q.structured
  {}

  lemma RiskIff(item: Record)
    ensures HasType(item, RISK_TYPES) <==> IsRisk(item)
  {
    hide Get;
  }

  lemma RiskScopeIff(said: string, item: Record)
    ensures RiskScope(said)(item) <==> RiskSaid(said, item)
  {
    hide Get, Contains;
  }

  lemma RiskWording(q: Question)
    ensures RiskStage(q.policy, q.text, Filter(q.structured, (x: Record) => AfterType(q, x)))
      == Filter(q.structured, (x: Record) => AfterRisk(q, x))
  {
    hide Filter, AfterType, RiskSaid, RiskScope, PlainD, IsRisk, HasType;
    var said, items := PlainD(q.policy.normalise(q.text)), q.structured;
    var typed := (x: Record) => AfterType(q, x);
    FilterMember(items, typed);
    InBase(q);
    forall item: Record
      ensures HasType(item, RISK_TYPES) <==> IsRisk(item)
      ensures RiskScope(said)(item) <==> RiskSaid(said, item)
    {
      RiskIff(item);
      RiskScopeIff(said, item);
    }
    if exists item | item in Filter(items, typed) :: HasType(item, RISK_TYPES) {
      var item :| item in Filter(items, typed) && HasType(item, RISK_TYPES);
      assert AfterType(q, item) && IsRisk(item);
      NarrowFilter(items, typed, RiskScope(said), (x: Record) => AfterRisk(q, x));
    } else {
      assert forall x :: AfterType(q, x) ==> x in Filter(items, typed);
      FilterAgree(items, typed, (x: Record) => AfterRisk(q, x));
    }
  }

  lemma PairIff(policy: Policy, item: Record, mentioned: set<string>)
    ensures AboutPair(policy, item, mentioned) <==> ComparesOnly(policy, item, mentioned)
  {
    hide Get;
  }

  lemma PairWording(q: Question)
    ensures PairStage(q.policy, q.text, Filter(q.structured, (x: Record) => AfterRisk(q, x)))
      == Filter(q.structured, (x: Record) => AfterPair(q, x))
  {
    hide Filter, AfterRisk, AboutPair, ComparesOnly;
    var mentioned, items := q.policy.strategies(q.text), q.structured;
    InBase(q);
    forall item: Record
      ensures AboutPair(q.policy, item, mentioned) <==> ComparesOnly(q.policy, item, mentioned)
    {
      PairIff(q.policy, item, mentioned);
    }
    if |mentioned| >= 2 {
      NarrowFilter(items, (x: Record) => AfterRisk(q, x), (item: Record) => AboutPair(q.policy, item, mentioned),
                   (x: Record) => AfterPair(q, x));
    } else {
      FilterAgree(items, (x: Record) => AfterRisk(q, x), (x: Record) => AfterPair(q, x));
    }
  }

  lemma NamedIff(q: Question, id: string)
    ensures id in MentionedIds(q.u, Fold(q.u, q.text), q.rows, q.target)
       <==> Named(q.u, Fold(q.u, q.text), q.rows, q.target, id)
  {
    hide Fold, Contains;
  }

  lemma EntityWording(q: Question)
    ensures EntityStage(MentionedIds(q.u, Fold(q.u, q.text), q.rows, q.target), Filter(q.structured, (x: Record) => AfterPair(q, x)))
      == Filter(q.structured, (x: Record) => AfterEntity(q, x))
  {
    hide Filter, AfterPair, MentionedIds, Named, Fold, Get;
    var lowered, items := Fold(q.u, q.text), q.structured;
    var ids := MentionedIds(q.u, lowered, q.rows, q.target);
    InBase(q);
    forall item: Record
      ensures AboutIds(item, ids) <==> AboutNamed(q, item)
    {
      if Get(item, "ingredient_id").Str? { NamedIff(q, Get(item, "ingredient_id").text); }
    }
    if ids != {} {
      NarrowFilter(items, (x: Record) => AfterPair(q, x), (item: Record) => AboutIds(item, ids), (x: Record) => AfterEntity(q, x));
    } else {
      FilterAgree(items, (x: Record) => AfterPair(q, x), (x: Record) => AfterEntity(q, x));
    }
  }

  lemma SupportsIff(q: Question, item: Record)
    ensures Supports(q.u, item, Mentions(q.u, q.text)) <==> BacksNumber(q, item)
  {
    hide Mentions, Authorized, ItemFacts, Authority;
    OneItem(q.u, item, Mentions(q.u, q.text), Authority(q.u, [item]));
  }

  lemma NumberWording(q: Question)
    ensures NumericStage(q.u, q.text, Filter(q.structured, (x: Record) => AfterEntity(q, x)))
      == Filter(q.structured, (x: Record) => InScope(q, x))
  {
    hide Filter, AfterEntity, Supports, Mentions, Authorized, Authority;
    var mentions, items := Mentions(q.u, q.text), q.structured;
    InBase(q);
    forall item: Record
      ensures Supports(q.u, item, mentions) <==> BacksNumber(q, item)
    {
      SupportsIff(q, item);
    }
    if mentions != [] {
      NarrowFilter(items, (x: Record) => AfterEntity(q, x), (item: Record) => Supports(q.u, item, mentions),
                   (x: Record) => InScope(q, x));
    } else {
      FilterAgree(items, (x: Record) => AfterEntity(q, x), (x: Record) => InScope(q, x));
    }
  }

  // ---------- the scope ----------

  function Scoped(q: Question): seq<Record> {
    Scope(q.u, q.policy, q.text, q.structured, q.rows, q.target)
  }

  /** The scope of a sentence is the selected evidence without what the wording, then the numbers, leave out, in order. */
  lemma ScopeIs(q: Question)
    ensures Scoped(q) == Filter(q.structured, (x: Record) => InScope(q, x))
    ensures forall item :: item in Scoped(q) <==> InScope(q, item)
  {
    hide Filter, CausalStage, TypedStage, RiskStage, PairStage, EntityStage, NumericStage, WantedTypes, MentionedIds, Fold;
    hide AfterEntity, BacksNumber;
    CauseStage(q);
    TypeStage(q);
    RiskWording(q);
    PairWording(q);
    EntityWording(q);
    NumberWording(q);
    FilterMember(q.structured, (x: Record) => InScope(q, x));
    InBase(q);
  }

  /**
   Every narrowing is all or none: the items a sentence is checked against all have what its wording asks for, or no item
   that was left before has it.
   */
  lemma ScopeAllOrNone(q: Question)
    ensures var scoped, lowered := Scoped(q), Fold(q.u, q.text);
      var said, mentioned := PlainD(q.policy.normalise(q.text)), q.policy.strategies(q.text);
      && (q.policy.assertsCause(q.text) ==>
            (forall x | x in scoped :: IsCausal(x)) || (forall x | x in q.structured :: !IsCausal(x)))
      && ((forall x | x in scoped :: Answers(q.policy, q.text, lowered, x))
          || (forall x :: AfterCause(q, x) ==> !Answers(q.policy, q.text, lowered, x)))
      && ((forall x | x in scoped :: RiskSaid(said, x))
          || (forall x :: AfterType(q, x) ==> !IsRisk(x)) || (forall x :: AfterType(q, x) ==> !RiskSaid(said, x)))
      && (|mentioned| >= 2 ==>
            (forall x | x in scoped :: ComparesOnly(q.policy, x, mentioned))
            || (forall x :: AfterRisk(q, x) ==> !ComparesOnly(q.policy, x, mentioned)))
      && ((forall x | x in scoped :: AboutNamed(q, x)) || (forall x :: AfterPair(q, x) ==> !AboutNamed(q, x)))
      && ((forall x | x in scoped :: BacksNumber(q, x)) || (forall x :: AfterEntity(q, x) ==> !BacksNumber(q, x)))
  {
    hide Scoped, IsCausal, Answers, RiskSaid, IsRisk, ComparesOnly, AboutNamed, BacksNumber, PlainD, Fold;
    ScopeIs(q);
  }
}
