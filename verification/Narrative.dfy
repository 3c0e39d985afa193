/**
 The grounding guard: `_guard`, `_answer_fragments`, `_scope_fragment` and `_validate_or_repair_fragment`
 of app/decision_intelligence/narrative.py.

 The language checks that read keywords rather than numbers are functions of a `Policy`: they may
 reject a sentence for a reason of their own, and every theorem holds for all of them.
 */
module Narrative {
  import opened Text
  import opened Records
  import opened Ordering
  import opened NumericAuthority
  import opened NumberCheck

  datatype Policy = Policy(
    publicText: string -> Option<string>,                     // _validate_public_text
    grounding: (string, seq<Record>) -> Option<string>,       // the checks after the numbers, in order
    shortage: (string, seq<Record>) -> Option<string>,        // _validate_risk_shortage_concept
    assertsCause: string -> bool,                             // asserts_cause
    strategies: string -> set<string>,                        // mentioned_strategies
    normalise: string -> string)                              // _semantic_normalize

  /** An ingredient row of the brief that has a name. */
  datatype Named = Named(ingredientId: string, name: string)

  // ---------- splitting the answer ----------

  predicate EndsSentence(c: char) {
    c == '.' || c == '!' || c == '?'
  }

  function NewlineEnd(s: string, i: nat): (e: nat)
    requires i <= |s|
    ensures i <= e <= |s|
    ensures forall k | i <= k < e :: s[k] == '\n'
    decreases |s| - i
  {
    if i < |s| && s[i] == '\n' then NewlineEnd(s, i + 1) else i
  }

  /** (?<=[.!?])\s+|\n+ at position `i`: where the match ends, `i` itself when there is none. */
  function SeparatorEnd(u: Unicode, s: string, i: nat): (e: nat)
    requires i <= |s|
    ensures i <= e <= |s|
  {
    if i > 0 && EndsSentence(s[i - 1]) && SpaceEnd(u, s, i) > i then SpaceEnd(u, s, i) else NewlineEnd(s, i)
  }

  /** The parts between separators, from the part that began at `start`. */
  function Cut(u: Unicode, s: string, start: nat, i: nat): seq<string>
    requires start <= i <= |s|
    decreases |s| - i
  {
    if i == |s| then [s[start..]]
    else
      var e := SeparatorEnd(u, s, i);
      if e > i then [s[start..i]] + Cut(u, s, e, e) else Cut(u, s, start, i + 1)
  }

  function Stripped(u: Unicode, parts: seq<string>): seq<string> {
    if parts == [] then []
    else (if Strip(u, parts[0]) != "" then [Strip(u, parts[0])] else []) + Stripped(u, parts[1..])
  }

  /** _answer_fragments */
  function Fragments(u: Unicode, answer: string): seq<string> {
    Stripped(u, Cut(u, Strip(u, answer), 0, 0))
  }

  // ---------- narrowing the evidence ----------

  /** A filter that leaves the list alone when nothing would remain. */
  function Narrow(items: seq<Record>, keep: Record -> bool): seq<Record> {
    var kept := Filter(items, keep);
    if kept != [] then kept else items
  }

  function Type(item: Record): string {
    Show(Get(item, "type"))
  }

  predicate HasType(item: Record, types: set<string>) {
    Get(item, "type").Str? && Get(item, "type").text in types
  }

  predicate IsText(item: Record, key: string, text: string) {
    Get(item, key) == Str(text)
  }

  /** The item types the wording asks for. */
  function WantedTypes(policy: Policy, text: string, lowered: string): set<string> {
    (if ContainsAny(lowered, ["ngân sách", "budget", "vượt", "overage", "remaining"]) then {"BUDGET_STATUS"} else {})
    + (if ContainsAny(lowered, ["nhập", "đặt", "order", "ordering", "procurement"]) then {"PROCUREMENT_QUANTITY"} else {})
    + StrategyTypes(policy, text, lowered)
  }

  const STRATEGY_WORDS := [
    "cân bằng", "tiết kiệm", "an toàn", "strategy", "chiến lược", "fill rate", "mức đáp ứng", "purchase cost",
    "chi phí mua", "stockout"]

  function StrategyTypes(policy: Policy, text: string, lowered: string): set<string> {
    if policy.strategies(text) == {} && !ContainsAny(lowered, STRATEGY_WORDS) then {}
    else if !ContainsAny(lowered, ["được chọn", "selected", "lowest", "thấp nhất", "cheapest"]) then
      {"STRATEGY_COMPARISON"}
    else if ContainsAny(lowered, ["lowest", "thấp nhất", "cheapest"]) then
      {"STRATEGY_SELECTION_PROOF", "PLAN_OVERVIEW"}
    else if !ContainsAny(lowered, ["than", "hơn", "so với", "compared"]) then {"PLAN_OVERVIEW"}
    else {"STRATEGY_COMPARISON"}
  }

  predicate Causal(item: Record) {
    IsText(item, "classification", "CAUSAL") || IsText(item, "type", "PROCUREMENT_REASON")
  }

  const RISK_TYPES := {
    "SELECTED_PLAN_RISK_METRICS", "RISK", "INGREDIENT_OPERATIONAL_RISK", "STRESS_SHORTAGE_OBSERVED",
    "STRESS_CAPACITY_VIOLATION"}

  /** The risk evidence a sentence about stress, the conservative scenario or the selected plan is scoped to. */
  function RiskScope(normalised: string): Record -> bool {
    if ContainsAny(normalised, ["stress", "kiem tra suc chiu dung"]) then
      (item: Record) => HasType(item, {"STRESS_SHORTAGE_OBSERVED", "STRESS_CAPACITY_VIOLATION"})
    else if ContainsAny(normalised, ["kich ban nhu cau bao thu", "conservative scenario"]) then
      (item: Record) => IsText(item, "type", "INGREDIENT_OPERATIONAL_RISK")
                        && IsText(item, "basis_kind", "conservative_design_scenario")
    else if ContainsAny(normalised, ["ke hoach duoc chon", "ke hoach hien tai", "selected plan", "current plan"]) then
      (item: Record) => HasType(item, {"SELECTED_PLAN_RISK_METRICS", "RISK"})
    else (item: Record) => false
  }

  /** .replace("đ", "d") */
  function PlainD(s: string): string {
    ReplaceFrom(s, "đ", "d", 0)
  }

  predicate AboutPair(policy: Policy, item: Record, mentioned: set<string>) {
    !IsText(item, "type", "STRATEGY_COMPARISON")
    || {policy.normalise(Show(Get(item, "left_strategy"))), policy.normalise(Show(Get(item, "right_strategy")))}
       <= mentioned
  }

  function MentionedIds(u: Unicode, lowered: string, rows: seq<Named>, target: string): set<string> {
    (set r | r in rows && r.name != "" && Contains(lowered, Fold(u, r.name)) :: r.ingredientId)
    + (if target != "" then {target} else {})
  }

  predicate AboutIds(item: Record, ids: set<string>) {
    Get(item, "ingredient_id").Str? && Get(item, "ingredient_id").text in ids
  }

  /** The item alone strictly authorises one of the mentions. */
  predicate Supports(u: Unicode, item: Record, mentions: seq<Mention>) {
    exists m | m in mentions :: Authorized(m.parsed, ItemFacts(u, item), false)
  }

  function CausalStage(policy: Policy, text: string, items: seq<Record>): seq<Record> {
    if policy.assertsCause(text) then Narrow(items, (item: Record) => Causal(item)) else items
  }

  function TypedStage(types: set<string>, items: seq<Record>): seq<Record> {
    if types != {} then Narrow(items, (item: Record) => HasType(item, types)) else items
  }

  function RiskStage(policy: Policy, text: string, items: seq<Record>): seq<Record> {
    if exists item | item in items :: HasType(item, RISK_TYPES) then
      Narrow(items, RiskScope(PlainD(policy.normalise(text))))
    else items
  }

  function PairStage(policy: Policy, text: string, items: seq<Record>): seq<Record> {
    var mentioned := policy.strategies(text);
    if |mentioned| >= 2 then Narrow(items, (item: Record) => AboutPair(policy, item, mentioned)) else items
  }

  function EntityStage(ids: set<string>, items: seq<Record>): seq<Record> {
    if ids != {} then Narrow(items, (item: Record) => AboutIds(item, ids)) else items
  }

  function NumericStage(u: Unicode, text: string, items: seq<Record>): seq<Record> {
    var mentions := Mentions(u, text);
    if mentions != [] then Narrow(items, (item: Record) => Supports(u, item, mentions)) else items
  }

  /** What _scope_fragment returns. */
  function Scope(u: Unicode, policy: Policy, text: string, structured: seq<Record>, rows: seq<Named>, target: string)
    : seq<Record>
  {
    var lowered := Fold(u, text);
    var a := CausalStage(policy, text, structured);
    var b := TypedStage(WantedTypes(policy, text, lowered), a);
    var c := RiskStage(policy, text, b);
    var d := PairStage(policy, text, c);
    var e := EntityStage(MentionedIds(u, lowered, rows, target), d);
    NumericStage(u, text, e)
  }

  lemma NarrowSublist(items: seq<Record>, keep: Record -> bool)
    ensures Sublist(Narrow(items, keep), items)
    ensures items != [] ==> Narrow(items, keep) != []
  {
    FilterSublist(items, keep);
    SublistSelf(items);
  }

  /**
   The scope of a sentence is an ordered sublist of the selected evidence, non-empty when that is; and
   either every item of it strictly authorises a number of the sentence, or none of the items that
   reached the last stage does.
   */
  lemma ScopeIsSublist(u: Unicode, policy: Policy, text: string, structured: seq<Record>, rows: seq<Named>,
      target: string)
    ensures var scoped := Scope(u, policy, text, structured, rows, target);
      && Sublist(scoped, structured)
      && (structured != [] ==> scoped != [])
      && (Mentions(u, text) != [] ==>
            (forall item | item in scoped :: Supports(u, item, Mentions(u, text)))
            || (forall item | item in scoped :: !Supports(u, item, Mentions(u, text))))
  {
    hide Filter, Sublist, Mentions, Supports, ContainsAny, Fold, WantedTypes, RiskScope, AboutPair, MentionedIds;
    hide Causal;
    var lowered := Fold(u, text);
    var types, ids, mentioned := WantedTypes(policy, text, lowered), MentionedIds(u, lowered, rows, target), policy.strategies(text);
    var mentions := Mentions(u, text);
    var a := CausalStage(policy, text, structured);
    var b := TypedStage(types, a);
    var c := RiskStage(policy, text, b);
    var d := PairStage(policy, text, c);
    var e := EntityStage(ids, d);
    var f := NumericStage(u, text, e);
    SublistSelf(structured); SublistSelf(a); SublistSelf(b); SublistSelf(c); SublistSelf(d); SublistSelf(e);
    NarrowSublist(structured, (item: Record) => Causal(item));
    NarrowSublist(a, (item: Record) => HasType(item, types));
    NarrowSublist(b, RiskScope(PlainD(policy.normalise(text))));
    NarrowSublist(c, (item: Record) => AboutPair(policy, item, mentioned));
    NarrowSublist(d, (item: Record) => AboutIds(item, ids));
    NarrowSublist(e, (item: Record) => Supports(u, item, mentions));
    SublistTransitive(b, a, structured);
    SublistTransitive(c, b, structured);
    SublistTransitive(d, c, structured);
    SublistTransitive(e, d, structured);
    SublistTransitive(f, e, structured);
    FilterMember(e, (item: Record) => Supports(u, item, mentions));
  }

  method NumericItems(u: Unicode, candidates: seq<Record>, mentions: seq<Mention>) returns (numeric: seq<Record>)
    ensures numeric == Filter(candidates, (item: Record) => Supports(u, item, mentions))
  {
    hide Filter, Authorized, Supports, ItemFacts, Authority;
    ghost var supports := (item: Record) => Supports(u, item, mentions);
    numeric := [];
    for i := 0 to |candidates|
      invariant numeric + Filter(candidates[i..], supports) == Filter(candidates, supports)
    {
      NarrowStep(candidates, i, supports);
      var registry := BuildNumericAuthority(u, [candidates[i]]);
      OneItem(u, candidates[i], mentions, registry);
      if exists m | m in mentions :: Authorized(m.parsed, registry, false) {
        numeric := numeric + [candidates[i]];
      }
    }
    assert candidates[|candidates|..] == [];
    FilterNone(supports);
  }

  /** _scope_fragment: `candidates` and `types` are reassigned stage by stage */
  method ScopeFragment(u: Unicode, policy: Policy, text: string, structured: seq<Record>, rows: seq<Named>,
      target: string)
    returns (candidates: seq<Record>)
    ensures candidates == Scope(u, policy, text, structured, rows, target)
  {
    hide Filter, Mentions, Supports, ContainsAny, Fold, StrategyTypes, RiskStage, PairStage, EntityStage;
    hide MentionedIds, CausalStage;
    var lowered := Fold(u, text);
    candidates := structured;
    var types: set<string> := {};
    if ContainsAny(lowered, ["ngân sách", "budget", "vượt", "overage", "remaining"]) {
      types := types + {"BUDGET_STATUS"};
    }
    if ContainsAny(lowered, ["nhập", "đặt", "order", "ordering", "procurement"]) {
      types := types + {"PROCUREMENT_QUANTITY"};
    }
    types := types + StrategyTypes(policy, text, lowered);
    assert types == WantedTypes(policy, text, lowered);
    candidates := CausalStage(policy, text, candidates);
    candidates := TypedStage(types, candidates);
    candidates := RiskStage(policy, text, candidates);
    candidates := PairStage(policy, text, candidates);
    candidates := EntityStage(MentionedIds(u, lowered, rows, target), candidates);
    var mentions := Mentions(u, text);
    if mentions != [] {
      var numeric := NumericItems(u, candidates, mentions);
      if numeric != [] { candidates := numeric; }
    }
  }

  lemma FilterNone(keep: Record -> bool)
    ensures Filter([], keep) == []
  {}

  lemma NarrowStep(items: seq<Record>, i: nat, keep: Record -> bool)
    requires i < |items|
    ensures Filter(items[i..], keep) == (if keep(items[i]) then [items[i]] else []) + Filter(items[i + 1..], keep)
  {
    Suffix(items, i);
  }

  lemma OneItem(u: Unicode, item: Record, mentions: seq<Mention>, registry: seq<Fact>)
    requires registry == Authority(u, [item])
    ensures (exists m | m in mentions :: Authorized(m.parsed, registry, false)) == Supports(u, item, mentions)
  {
    hide ItemFacts, Authorized;
    assert Authority(u, [item][1..]) == [];
    assert registry == ItemFacts(u, item);
  }

  // ---------- one sentence ----------

  datatype Judgement = Accept(text: string) | Drop | Abort(reason: string)

  function Checked(policy: Policy, text: string, items: seq<Record>): Judgement {
    match policy.grounding(text, items)
    case None => Accept(text)
    case Some(reason) => Abort(reason)
  }

  /** _validate_or_repair_fragment: Drop stands for an error that starts with "unsupported_numeric_claim" */
  function Judge(u: Unicode, policy: Policy, text: string, items: seq<Record>): Judgement {
    match policy.publicText(text)
    case Some(reason) => Abort(reason)
    case None =>
      match NumbersVerdict(u, text, items)
      case Fatal(reason) => Abort(reason)
      case Pass => Checked(policy, text, items)
      case Unsupported =>
        match Repaired(u, text, items)
        case None => Drop
        case Some(fixed) =>
          match NumbersVerdict(u, fixed, items)
          case Fatal(reason) => Abort(reason)
          case Unsupported => Drop
          case Pass => Checked(policy, fixed, items)
  }

  /** _validate_or_repair_fragment */
  method ValidateOrRepairFragment(u: Unicode, policy: Policy, text: string, items: seq<Record>) returns (j: Judgement)
    ensures j == Judge(u, policy, text, items)
  {
    hide NumbersVerdict, Repaired;
    var machine := policy.publicText(text);
    if machine.Some? {
      return Abort(machine.value);
    }
    var current := text;
    var verdict := ValidateNumbers(u, current, items);
    if verdict == Unsupported {
      var repaired := RepairNumericText(u, current, items);
      if repaired.None? {
        return Drop;
      }
      current := repaired.value;
      verdict := ValidateNumbers(u, current, items);
    }
    if verdict.Fatal? {
      return Abort(verdict.reason);
    }
    if verdict.Unsupported? {
      return Drop;
    }
    return Checked(policy, current, items);
  }

  /**
   Whatever is accepted has passed the number check against the very items it is accepted with: it is
   the sentence itself, or its one-span repair when the sentence itself did not pass.
   */
  lemma JudgeSound(u: Unicode, policy: Policy, text: string, items: seq<Record>)
    requires Judge(u, policy, text, items).Accept?
    ensures var kept := Judge(u, policy, text, items).text;
      && NumbersVerdict(u, kept, items) == Pass
      && policy.grounding(kept, items).None?
      && (kept == text || (NumbersVerdict(u, text, items) == Unsupported && Repaired(u, text, items) == Some(kept)))
  {
    hide NumbersVerdict, Repaired;
  }

  // ---------- the split loses no character ----------

  /** The characters of a text that are not white space. */
  function Ink(u: Unicode, s: string): string {
    if s == "" then "" else (if u.space(s[0]) then "" else [s[0]]) + Ink(u, s[1..])
  }

  function InkOf(u: Unicode, parts: seq<string>): string {
    if parts == [] then "" else Ink(u, parts[0]) + InkOf(u, parts[1..])
  }

  lemma {:induction false} InkAppend(u: Unicode, a: string, b: string)
    ensures Ink(u, a + b) == Ink(u, a) + Ink(u, b)
  {
    if a == "" {
      assert a + b == b;
    } else {
      InkAppend(u, a[1..], b);
      var s := a + b;
      assert s[0] == a[0] && s[1..] == a[1..] + b;
    }
  }

  lemma {:induction false} InkBlank(u: Unicode, s: string)
    requires forall k | 0 <= k < |s| :: u.space(s[k])
    ensures Ink(u, s) == ""
  {
    if s != "" { InkBlank(u, s[1..]); }
  }

  lemma {:induction false} InkLStrip(u: Unicode, s: string)
    ensures Ink(u, LStrip(u, s)) == Ink(u, s)
  {
    if s != "" && u.space(s[0]) { InkLStrip(u, s[1..]); }
  }

  lemma {:induction false} InkRStrip(u: Unicode, s: string)
    ensures Ink(u, RStrip(u, s)) == Ink(u, s)
  {
    if s != "" && u.space(s[|s| - 1]) {
      InkRStrip(u, s[..|s| - 1]);
      InkAppend(u, s[..|s| - 1], [s[|s| - 1]]);
      assert s == s[..|s| - 1] + [s[|s| - 1]];
    }
  }

  lemma InkStrip(u: Unicode, s: string)
    ensures Ink(u, Strip(u, s)) == Ink(u, s)
  {
    InkLStrip(u, s);
    InkRStrip(u, LStrip(u, s));
  }

  lemma {:induction false} SpaceEndBlank(u: Unicode, s: string, i: nat)
    requires i <= |s|
    ensures forall k | i <= k < SpaceEnd(u, s, i) :: u.space(s[k])
    decreases |s| - i
  {
    if i < |s| && u.space(s[i]) { SpaceEndBlank(u, s, i + 1); }
  }

  lemma SeparatorBlank(u: Unicode, s: string, i: nat)
    requires u.Valid() && i <= |s|
    ensures Ink(u, s[i..SeparatorEnd(u, s, i)]) == ""
  {
    SpaceEndBlank(u, s, i);
    InkBlank(u, s[i..SeparatorEnd(u, s, i)]);
  }

  lemma {:induction false} InkCut(u: Unicode, s: string, start: nat, i: nat)
    requires u.Valid() && start <= i <= |s|
    ensures InkOf(u, Cut(u, s, start, i)) == Ink(u, s[start..])
    decreases |s| - i
  {
    hide SeparatorEnd, Ink;
    if i == |s| {
      assert InkOf(u, [s[start..]]) == Ink(u, s[start..]) + InkOf(u, []);
    } else {
      var e := SeparatorEnd(u, s, i);
      if e > i {
        InkCut(u, s, e, e);
        SeparatorBlank(u, s, i);
        InkAppend(u, s[i..e], s[e..]);
        InkAppend(u, s[start..i], s[i..]);
        assert s[i..] == s[i..e] + s[e..] && s[start..] == s[start..i] + s[i..];
      } else {
        InkCut(u, s, start, i + 1);
      }
    }
  }

  lemma {:induction false} InkStripped(u: Unicode, parts: seq<string>)
    ensures InkOf(u, Stripped(u, parts)) == InkOf(u, parts)
  {
    hide Ink, Strip;
    if parts != [] {
      InkStrip(u, parts[0]);
      InkStripped(u, parts[1..]);
      var head := Strip(u, parts[0]);
      if head != "" {
        assert ([head] + Stripped(u, parts[1..]))[1..] == Stripped(u, parts[1..]);
      } else {
        InkBlank(u, head);
        assert Stripped(u, parts) == [] + Stripped(u, parts[1..]) == Stripped(u, parts[1..]);
        assert "" + InkOf(u, parts[1..]) == InkOf(u, parts[1..]);
      }
    }
  }

  /** The sentences of an answer carry its characters other than white space, all of them and in order. */
  lemma FragmentsKeepInk(u: Unicode, answer: string)
    requires u.Valid()
    ensures InkOf(u, Fragments(u, answer)) == Ink(u, answer)
  {
    var s := Strip(u, answer);
    InkStrip(u, answer);
    InkCut(u, s, 0, 0);
    InkStripped(u, Cut(u, s, 0, 0));
    assert s[0..] == s;
  }
}
