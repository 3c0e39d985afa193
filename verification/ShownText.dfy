/**
 What an accepted ingredient text shows. The guard may leave out or repair a sentence, and its answer then differs
 from the draft; the entry keeps the draft (app/decision_intelligence/ingredient_synthesis.py, lines 418 and 419).
 */
module ShownText {
  import opened Text
  import opened Records
  import opened Ordering
  import opened Grouping
  import opened NumericAuthority
  import opened NumberCheck
  import opened Narrative
  import NumericRoundTrip
  import Decimals
  import Guard
  import Risk = RiskProjection
  import Sheets = DisplayContract
  import opened Synthesis

  /** The sentence, as it stands, passes the number check against the evidence the guard takes for it. */
  ghost predicate Stands(st: Guard.Setting, scopes: Guard.Scopes, sentence: string) {
    NumbersVerdict(st.u, sentence, Guard.ItemsFor(st, scopes, sentence)) == Pass
  }

  lemma StandingIsKept(st: Guard.Setting, scopes: Guard.Scopes, sentence: string)
    requires Stands(st, scopes, sentence)
    ensures var j := Guard.JudgeSentence(st, scopes, sentence);
      j.Abort? || j == Accept(sentence)
  {
    hide NumbersVerdict, Repaired, Guard.ItemsFor;
  }

  lemma {:induction false} WalkKeepsAll(st: Guard.Setting, scopes: Guard.Scopes, fragments: seq<string>, i: nat)
    requires i <= |fragments| && Guard.Walk(st, scopes, fragments, i).Ok?
    requires forall f | f in fragments :: Stands(st, scopes, f)
    ensures Guard.Texts(Guard.Walk(st, scopes, fragments, i).value) == fragments[i..]
    decreases |fragments| - i
  {
    hide Stands, Guard.JudgeSentence, Guard.ItemsFor;
    if i < |fragments| {
      assert fragments[i] in fragments;
      StandingIsKept(st, scopes, fragments[i]);
      WalkKeepsAll(st, scopes, fragments, i + 1);
      var rest := Guard.Walk(st, scopes, fragments, i + 1).value;
      var k := Guard.Kept(i, fragments[i], Guard.ItemsFor(st, scopes, fragments[i]));
      assert ([k] + rest)[1..] == rest;
      assert fragments[i..] == [fragments[i]] + fragments[i + 1..];
    }
  }

  lemma {:induction false} TextsAt(kept: seq<Guard.Kept>, i: nat)
    requires i < |kept|
    ensures |Guard.Texts(kept)| == |kept| && Guard.Texts(kept)[i] == kept[i].text
  {
    TextsLength(kept);
    if i > 0 { TextsAt(kept[1..], i - 1); }
  }

  lemma {:induction false} TextsLength(kept: seq<Guard.Kept>)
    ensures |Guard.Texts(kept)| == |kept|
  {
    if kept != [] { TextsLength(kept[1..]); }
  }

  /** Increasing positions below their own number are all the positions. */
  lemma {:induction false} PositionAtLeast(kept: seq<Guard.Kept>, i: nat)
    requires i < |kept| && Guard.InOrder(kept)
    ensures kept[i].index >= i
  {
    if i > 0 { PositionAtLeast(kept, i - 1); }
  }

  lemma {:induction false} PositionAtMost(kept: seq<Guard.Kept>, n: nat, i: nat)
    requires i < |kept| && Guard.InOrder(kept) && forall k | k in kept :: k.index < n
    ensures kept[i].index + (|kept| - i) <= n
    decreases |kept| - i
  {
    assert kept[i] in kept;
    if i + 1 < |kept| { PositionAtMost(kept, n, i + 1); }
  }

  /**
   When the guard answers, every sentence of the draft stands as written exactly when the guard kept them all
   and changed none.
   */
  lemma DraftStandsIff(st: Guard.Setting, draft: Guard.Draft, evidence: seq<string>)
    requires Guard.Guarded(st, draft, evidence).Ok?
    ensures var fragments := Fragments(st.u, draft.answer.value);
      && Guard.LegacyScopes(st, draft.claims, map[]).Ok?
      && var scopes := Guard.LegacyScopes(st, draft.claims, map[]).value;
      && ((forall f | f in fragments :: Stands(st, scopes, f))
          <==> Guard.Texts(Guard.Guarded(st, draft, evidence).value.accepted) == fragments)
  {
    hide Stands, Guard.JudgeSentence, Guard.ItemsFor, Guard.LegacyScopes, Guard.OffTarget, Fragments, Guard.Walk;
    hide Guard.Texts, NumbersVerdict;
    var fragments := Fragments(st.u, draft.answer.value);
    var scopes := Guard.LegacyScopes(st, draft.claims, map[]).value;
    var kept := Guard.Walk(st, scopes, fragments, 0).value;
    assert kept == Guard.Guarded(st, draft, evidence).value.accepted;
    Guard.WalkSound(st, scopes, fragments, 0);
    if forall f | f in fragments :: Stands(st, scopes, f) {
      WalkKeepsAll(st, scopes, fragments, 0);
      assert fragments[0..] == fragments;
    }
    if Guard.Texts(kept) == fragments {
      forall f | f in fragments
        ensures Stands(st, scopes, f)
      {
        var i :| 0 <= i < |fragments| && fragments[i] == f;
        TextsLength(kept);
        KeptAllStands(st, scopes, fragments, kept, i);
      }
    }
  }

  lemma KeptAllStands(st: Guard.Setting, scopes: Guard.Scopes, fragments: seq<string>, kept: seq<Guard.Kept>, i: nat)
    requires i < |fragments| == |kept| && Guard.Texts(kept) == fragments && Guard.InOrder(kept)
    requires forall k | k in kept :: Guard.Grounded(st, scopes, fragments, k)
    ensures Stands(st, scopes, fragments[i])
  {
    hide NumbersVerdict, Guard.ItemsFor, Repaired, Guard.Texts;
    TextsAt(kept, i);
    assert kept[i] in kept;
    PositionAtLeast(kept, i);
    PositionAtMost(kept, |fragments|, i);
  }

  /** The text an entry shows, as the guard reads it. */
  function ShownSentences(u: Unicode, e: Entry): seq<string> {
    Fragments(u, e.headline + ". " + e.summary)
  }

  /**
   An entry with the provider's wording shows only sentences that pass the number check exactly when the guard's
   answer consists of all the sentences shown. The code does not test this, see `DroppedSentenceIsShown`.
   */
  lemma ShownTextStandsIff(env: Environment, req: Request, id: string)
    requires EntryFor(env, req, id).origin == Llm && env.ask(id).Item?
    ensures var e, p := EntryFor(env, req, id), PreparedFor(env, req, id);
      var st, draft := SettingFor(env, req, p), DraftOf(env.ask(id).response);
      && Guard.Guarded(st, draft, req.evidence).Ok?
      && Guard.LegacyScopes(st, draft.claims, map[]).Ok?
      && var scopes := Guard.LegacyScopes(st, draft.claims, map[]).value;
      && ((forall f | f in ShownSentences(env.unicode, e) :: Stands(st, scopes, f))
          <==> Guard.Texts(Guard.Guarded(st, draft, req.evidence).value.accepted) == ShownSentences(env.unicode, e))
  {
    hide Attempted, Overlong, Misframed, CitesWithin, EntryFor, Guard.Guarded, Narrated, PlanFor, Fragments, Stands;
    hide Guard.Texts, Guard.LegacyScopes, PlanEvidence;
    EntryKeeps(env, req, id);
    LlmOnlyIfVetted(env, req, id);
    DraftStandsIff(SettingFor(env, req, PreparedFor(env, req, id)), DraftOf(env.ask(id).response), req.evidence);
  }

  // ---------- a dropped sentence is still shown ----------

  const CODE := "CAPACITY_CONSEQUENCE"

  /** The record of one fact, before and after the display contract is attached to it. */
  const BARE: Record := [
    ("evidence_id", Str("e")), ("evidence_ids", List([Str("e")])), ("type", Str(CODE)), ("classification", Str("RISK_SIGNAL")),
    ("ingredient_id", Str("i")), ("code", Str(CODE)), ("raw_severity", Null)]

  const RECORD: Record := BARE + [("display_values", Dict([])), ("allowed_numeric_mentions", List([]))]

  lemma {:induction false} NothingShown(fields: Record)
    requires forall f | f in fields :: !f.1.Num? && !Sheets.IsDate(f)
    ensures Sheets.AllFieldOps(fields, 2) == [] && Sheets.AllDateOps(fields) == []
  {
    hide Sheets.IsDate;
    if fields != [] {
      assert fields[0] in fields && forall f | f in fields[1..] :: f in fields;
      NothingShown(fields[1..]);
    }
  }

  lemma {:induction false} NoRates(record: Record, keys: seq<string>)
    requires forall k | k in keys :: !Get(record, k).Num?
    ensures Sheets.AllRateOps(record, keys) == []
  {
    hide Get;
    if keys != [] {
      assert keys[0] in keys && forall k | k in keys[1..] :: k in keys;
      NoRates(record, keys[1..]);
    }
  }

  ghost predicate Lacks(r: Record, key: string) {
    !Has(r, key) && Get(r, key) == Null
  }

  const BARE_KEYS := {
    "evidence_id", "evidence_ids", "type", "classification", "ingredient_id", "code", "raw_severity"}

  lemma BareKeys()
    ensures forall f | f in BARE :: f.0 in BARE_KEYS
    ensures forall f | f in RECORD :: f.0 in BARE_KEYS || f.0 == "display_values" || f.0 == "allowed_numeric_mentions"
  {
    assert RECORD[..7] == BARE;
  }

  lemma BareLacks(key: string)
    requires key !in BARE_KEYS
    ensures Lacks(BARE, key)
    ensures key != "display_values" && key != "allowed_numeric_mentions" ==> Lacks(RECORD, key)
  {
    hide Get;
    BareKeys();
    GetAbsent(BARE, key);
    if key != "display_values" && key != "allowed_numeric_mentions" { GetAbsent(RECORD, key); }
  }

  lemma BareNoDates()
    ensures forall f | f in BARE :: !f.1.Num? && !Sheets.IsDate(f)
  {
    assert |CODE| == 20 && |"RISK_SIGNAL"| == 11 && |"e"| == 1;
  }

  lemma BareIsKeyed()
    ensures Keyed(BARE)
  {}

  /** The record is one the program writes: the contract attaches nothing to the bare one. */
  lemma RecordIsProduced(discrete: Value -> bool, o: seq<string>)
    requires Sheets.IsRateOrder(o)
    ensures Sheets.Contract(BARE, discrete, o) == RECORD
  {
    hide Get, Put, Sheets.AllFieldOps, Sheets.AllDateOps, Sheets.AllRateOps, Sheets.IsDate, Keyed, Lacks;
    BareNoDates();
    BareIsKeyed();
    NothingShown(BARE);
    BareLacks("display_values");
    BareLacks("allowed_numeric_mentions");
    RatesLacked(o);
    OtherOps(discrete);
    assert Sheets.Ops(BARE, discrete, o) == [];
    assert Sheets.Opening(BARE) == Sheets.Sheet([], []) by { LacksNull("display_values"); LacksNull("allowed_numeric_mentions"); }
    assert Filter<string>([], Sheets.NotEmpty) == [] && Dedup<string>([]) == [];
    assert Sheets.Texts([]) == [];
    PutBoth();
  }

  lemma LacksNull(key: string)
    requires Lacks(BARE, key)
    ensures Get(BARE, key) == Null && !Has(BARE, key)
  {}

  lemma RatesLacked(o: seq<string>)
    requires Sheets.IsRateOrder(o)
    ensures Sheets.AllRateOps(BARE, o) == []
  {
    hide Get;
    BareLacks("expected_fill_rate");
    BareLacks("fill_rate");
    BareLacks("stockout_probability");
    NoRates(BARE, o);
  }

  lemma OtherOps(discrete: Value -> bool)
    ensures Sheets.CostOps(BARE) == [] && Sheets.RangeOps(BARE, discrete) == [] && Sheets.BudgetOps(BARE) == []
    ensures Sheets.Precision(discrete, Get(BARE, "unit")) == 2
  {
    hide Get;
    BareLacks("total_purchase_cost");
    BareLacks("unit");
    BareLacks("budget_utilization_pct");
  }

  lemma PutBoth()
    ensures Put(Put(BARE, "display_values", Dict([])), "allowed_numeric_mentions", List([])) == RECORD
  {
    hide Put, Get, Keyed;
    BareLacks("display_values");
    BareLacks("allowed_numeric_mentions");
    BareIsKeyed();
    PutAt(BARE, "display_values", Dict([]));
    var half := Put(BARE, "display_values", Dict([]));
    assert half == BARE + [("display_values", Dict([]))];
    PutGet(BARE, "display_values", Dict([]));
    PutAt(half, "allowed_numeric_mentions", List([]));
  }

  lemma {:induction false} NoNumbers(u: Unicode, item: Record, fields: Record)
    requires forall f | f in fields :: !f.1.Num?
    ensures FieldFacts(u, item, fields) == []
  {
    if fields != [] {
      assert fields[0] in fields && forall f | f in fields[1..] :: f in fields;
      NoNumbers(u, item, fields[1..]);
    }
  }

  lemma NoFacts(u: Unicode)
    ensures Authority(u, [RECORD]) == []
  {
    hide Get, FieldFacts, LegacyFact, ParseMention;
    RecordFields();
    NoNumbers(u, RECORD, RECORD);
    assert Authority(u, [RECORD][1..]) == [];
  }

  lemma NoRanges(u: Unicode, text: string)
    ensures SuppliedRanges([RECORD]) == []
    ensures Protected(u, text, [RECORD]) == BlankDates(u, text, 0)
    ensures !RangeContradicted(u, text, [RECORD])
  {
    hide BlankDates, Get;
    RecordFields();
    assert SuppliedRanges([RECORD][1..]) == [];
  }

  /** A text without digits has no mentions. */
  lemma {:induction false} NoDigitsNoMatches(u: Unicode, s: string, i: nat)
    requires i <= |s| && forall k | 0 <= k < |s| :: u.digit(s[k]) < 0
    ensures Matches(u, s, i) == []
    decreases |s| - i
  {
    if i < |s| { NoDigitsNoMatches(u, s, i + 1); }
  }

  lemma {:induction false} NoDigitsNoDates(u: Unicode, s: string, i: nat)
    requires i <= |s| && forall k | 0 <= k < |s| :: u.digit(s[k]) < 0
    ensures BlankDates(u, s, i) == s[i..]
    decreases |s| - i
  {
    if i < |s| {
      NoDigitsNoDates(u, s, i + 1);
      assert s[i..] == [s[i]] + s[i + 1..];
    }
  }

  lemma TitlePasses(u: Unicode)
    requires u.Valid()
    ensures NumbersVerdict(u, "tin.", [RECORD]) == Pass
  {
    hide Authority, BlankDates, Matches, SuppliedRanges, RangeContradicted;
    var s := "tin.";
    assert u.Classified('t') && u.Classified('i') && u.Classified('n') by { assert u.word('t') && u.word('i') && u.word('n'); }
    assert forall k | 0 <= k < |s| :: u.digit(s[k]) < 0;
    NoRanges(u, s);
    NoDigitsNoDates(u, s, 0);
    NoDigitsNoMatches(u, s, 0);
    assert s[0..] == s;
  }

  lemma SevenIsAMention(u: Unicode)
    requires u.Valid()
    ensures BlankDates(u, "7", 0) == "7"
    ensures |Mentions(u, "7")| == 1 && Mentions(u, "7")[0].text == "7"
  {
    hide ParseMention;
    var s := "7";
    assert u.digit('7') == 7;
    assert BlankDates(u, s, 1) == "";
    assert DateEnd(u, s, 0) == None;
    assert Matches(u, s, 0) == [Span(0, 1)] by { assert Matches(u, s, 1) == []; }
    SevenParses(u);
    assert s[0..1] == s;
    assert ParsedMentions(u, s, [Span(0, 1)][1..]) == [];
    assert ParsedMentions(u, s, [Span(0, 1)]) == [Mention(ParseMention(u, s).value, s, 0, 1)];
  }

  lemma SevenParses(u: Unicode)
    requires u.Valid()
    ensures ParseMention(u, "7").Some?
  {
    hide Classify, ParseDecimal;
    assert u.digit('7') == 7 && u.Classified('7') by { assert u.word('7'); }
    assert Fold(u, "7") == "7" by { assert u.fold('7') == "7" && "7"[1..] == ""; }
    assert Strip(u, "7") == "7";
    assert FirstDigit(u, "7") == 0;
    assert TokenEnd(u, "7", 0) == 1;
    NumericRoundTrip.ParseGrouped(u, 7);
    assert Decimals.Grouped(7, '.') == "7" by { assert Decimals.Natural(7) == "7"; }
    assert "7"[0..1] == "7";
  }

  /** "7" is not supported by the record, and there is nothing to repair it with. */
  lemma SevenFails(u: Unicode)
    requires u.Valid()
    ensures NumbersVerdict(u, "7", [RECORD]) == Unsupported && Repaired(u, "7", [RECORD]) == None
  {
    hide Authority, BlankDates, Mentions, SuppliedRanges, RangeContradicted, Authorized, ContainsAny;
    NoFacts(u);
    NoRanges(u, "7");
    SevenIsAMention(u);
    var m := Mentions(u, "7")[0];
    assert m in Mentions(u, "7");
    assert !Authorized(m.parsed, [], Approximated(u, "7", m)) by { NothingAuthorised(m.parsed, Approximated(u, "7", m)); }
    assert !YearDash(u, "7", m);
    NothingToRepair(u);
  }

  lemma NothingAuthorised(m: Parsed, approximate: bool)
    ensures !Authorized(m, [], approximate)
  {}

  lemma NothingToRepair(u: Unicode)
    requires Authority(u, [RECORD]) == []
    ensures Repaired(u, "7", [RECORD]) == None
  {
    hide Mentions, ContainsAny, Authority;
    var bad := Bad(u, "7", []);
    if |bad| == 1 {
      var m := bad[0].parsed;
      assert SameKind(m, []) == [];
      NoHints(Fold(u, "7"), KEY_HINTS);
      assert Candidates(u, "7", [], bad[0]) == [];
    }
  }

  lemma {:induction false} NoHints(context: string, hints: seq<(seq<string>, seq<string>)>)
    ensures Hinted(context, [], hints) == []
  {
    if hints != [] { NoHints(context, hints[1..]); }
  }

  /** With one record to choose from, every sentence is checked against it. */
  lemma OneRecordScope(u: Unicode, policy: Policy, text: string, rows: seq<Named>, target: string)
    ensures Scope(u, policy, text, [RECORD], rows, target) == [RECORD]
  {
    hide Scope, Mentions, Supports;
    ScopeIsSublist(u, policy, text, [RECORD], rows, target);
    SublistOfOne(Scope(u, policy, text, [RECORD], rows, target), RECORD);
  }

  lemma SublistOfOne<T(!new)>(a: seq<T>, x: T)
    requires Sublist(a, [x]) && a != []
    ensures a == [x]
  {
    assert [x][1..] == [];
    assert !Sublist(a, []);
    assert a[0] == x && Sublist(a[1..], []);
    assert a == [a[0]] + a[1..];
  }

  lemma TwoSentences(u: Unicode)
    requires u.Valid()
    ensures Fragments(u, "tin. 7") == ["tin.", "7"]
  {
    var s := "tin. 7";
    assert u.Classified('t') && u.Classified('i') && u.Classified('n') && u.Classified('.') && u.Classified(' ') && u.Classified('7') by {
      assert u.word('t') && u.word('i') && u.word('n') && u.word('7') && !u.word('.') && !u.word(' ');
    }
    assert Strip(u, s) == s;
    CutSentences(u);
    assert Strip(u, "tin.") == "tin." && Strip(u, "7") == "7";
    StrippedTwo(u, "tin.", "7");
  }

  lemma StrippedTwo(u: Unicode, a: string, b: string)
    requires Strip(u, a) == a != "" && Strip(u, b) == b != ""
    ensures Stripped(u, [a, b]) == [a, b]
  {
    hide Strip;
    assert [a, b][1..] == [b] && [b][1..] == [];
    assert Stripped(u, [b]) == [b];
  }

  lemma CutSentences(u: Unicode)
    requires u.Valid()
    ensures Cut(u, "tin. 7", 0, 0) == ["tin.", "7"]
  {
    hide NewlineEnd, SpaceEnd;
    var s := "tin. 7";
    assert !u.space('7') && u.space(' ') by { assert u.digit('7') == 7 && u.Classified('7') && u.Classified(' '); }
    assert SpaceEnd(u, s, 5) == 5 && SpaceEnd(u, s, 4) == 5 by { SpaceOnce(u); }
    NoNewline(s);
    assert Cut(u, s, 5, 6) == ["7"] by { assert s[5..] == "7"; }
    assert Cut(u, s, 5, 5) == ["7"];
    assert Cut(u, s, 0, 4) == ["tin.", "7"] by { assert s[0..4] == "tin."; }
    assert Cut(u, s, 0, 3) == Cut(u, s, 0, 4);
    assert Cut(u, s, 0, 2) == Cut(u, s, 0, 3);
    assert Cut(u, s, 0, 1) == Cut(u, s, 0, 2);
  }

  lemma SpaceOnce(u: Unicode)
    requires u.space(' ') && !u.space('7')
    ensures SpaceEnd(u, "tin. 7", 5) == 5 && SpaceEnd(u, "tin. 7", 4) == 5
  {}

  lemma NoNewline(s: string)
    requires '\n' !in s
    ensures forall i: nat | i <= |s| :: NewlineEnd(s, i) == i
  {
    forall i: nat | i < |s|
      ensures s[i] != '\n'
    {
      assert s[i] in s;
    }
  }

  /** The row of the metadata table and a fact with its code, bound to an ingredient. */
  const TABLE: map<string, Risk.Metadata> := map[CODE := Risk.Metadata(
    Risk.PublicRisk, "capacity", Risk.Critical, "Phát hiện vượt sức chứa kho", None, None)]

  const FACT := Risk.Fact(CODE, CODE, Risk.RiskSignal, Risk.Ingredient, map["ingredient_id" := "i"], ["s"])

  const DETAIL := Risk.Detail(
    CODE, Risk.PublicRisk, "capacity", Risk.Critical, "Phát hiện vượt sức chứa kho", None, None, Risk.Ingredient, Some("i"),
    None, ["s"], 1)

  const REQUEST := Request(["i"], [], [RECORD], [DETAIL], ["e"], [], false, true)

  const RESPONSE := Response("tin", "7", [], [])

  const PLAN := Plan("shortage_risk", ["e"], SelectedPlan, [], None, ["e"])

  lemma OneSource()
    ensures SortedStrings({"s"}) == ["s"]
  {
    StrOrder();
    EnumerationUnique(SortedStrings({"s"}), ["s"], {"s"}, StrLeq);
  }

  /** The detail is the one that the fact is projected to. */
  lemma DetailIsProduced()
    ensures Risk.RiskDetails(TABLE, map[], [FACT]) == [DETAIL]
  {
    hide SortedStrings, Groups;
    var k := Risk.KeyOf(FACT);
    OneGroup();
    ItsDetail();
    var groups := [Group(k, [FACT])];
    assert groups[1..] == [] && Risk.Unsorted(TABLE, map[], groups) == [DETAIL];
    assert Sort([DETAIL], Risk.KeyLeq) == [DETAIL] by { assert [DETAIL][1..] == []; }
  }

  lemma OneGroup()
    ensures Risk.GroupsOf([FACT]) == [Group(Risk.KeyOf(FACT), [FACT])]
  {
    hide Groups;
    assert Filter([FACT], Risk.Relevant) == [FACT] by { assert [FACT][1..] == []; }
    NoGroups(Risk.KeyOf);
    GroupsSnoc([], FACT, Risk.KeyOf);
    assert [] + [FACT] == [FACT];
  }

  lemma ItsDetail()
    ensures Risk.DetailOf(TABLE, map[], Risk.KeyOf(FACT), [FACT]) == DETAIL
  {
    hide SortedStrings;
    assert Risk.Sources([FACT]) == {"s"} by { assert FACT in [FACT] && "s" in FACT.sources; }
    OneSource();
  }

  lemma OwnRecords()
    ensures RecordsOf(REQUEST, "i") == [RECORD] && DetailsOf(REQUEST, "i") == [DETAIL]
    ensures ImportanceOf([DETAIL]) == Critical
  {
    hide Get;
    RecordFields();
    assert Filter([RECORD], HasIngredient) == [RECORD] by { assert [RECORD][1..] == []; }
    assert Filter([DETAIL], HasDetailId) == [DETAIL] by { assert [DETAIL][1..] == []; }
    OneMember(RECORD, IngredientOf, "i");
    OneMember(DETAIL, DetailId, "i");
    assert DETAIL in [DETAIL] && IsCritical(DETAIL);
  }

  lemma RecordIsKeyed()
    ensures Keyed(RECORD)
  {}

  lemma RecordAt()
    ensures |RECORD| == 9 && RECORD[0] == ("evidence_id", Str("e")) && RECORD[2] == ("type", Str(CODE))
    ensures RECORD[3] == ("classification", Str("RISK_SIGNAL")) && RECORD[4] == ("ingredient_id", Str("i"))
    ensures RECORD[7] == ("display_values", Dict([])) && RECORD[8] == ("allowed_numeric_mentions", List([]))
  {}

  lemma PresentFields()
    ensures Get(RECORD, "type") == Str(CODE) && Get(RECORD, "ingredient_id") == Str("i") && Get(RECORD, "evidence_id") == Str("e")
    ensures Get(RECORD, "classification") == Str("RISK_SIGNAL")
    ensures Get(RECORD, "display_values") == Dict([]) && Get(RECORD, "allowed_numeric_mentions") == List([])
  {
    hide Get, Keyed, RECORD;
    RecordIsKeyed();
    RecordAt();
    GetAt(RECORD, 0);
    GetAt(RECORD, 2);
    GetAt(RECORD, 3);
    GetAt(RECORD, 4);
    GetAt(RECORD, 7);
    GetAt(RECORD, 8);
  }

  lemma RecordFields()
    ensures Get(RECORD, "type") == Str(CODE) && Get(RECORD, "ingredient_id") == Str("i") && Get(RECORD, "evidence_id") == Str("e")
    ensures Get(RECORD, "classification") == Str("RISK_SIGNAL") && Get(RECORD, "basis_kind") == Null
    ensures Get(RECORD, "first_stockout_date") == Null && Get(RECORD, "values") == Null
    ensures Get(RECORD, "display_values") == Dict([]) && Get(RECORD, "allowed_numeric_mentions") == List([])
  {
    hide Get;
    PresentFields();
    BareLacks("basis_kind");
    BareLacks("first_stockout_date");
    BareLacks("values");
  }

  lemma ItsPlan()
    ensures PlanFor([RECORD], [DETAIL]) == PLAN
  {
    hide Get, Supporting, Dedup;
    RecordFields();
    assert Filter([DETAIL], IsCritical) == [DETAIL] by { assert [DETAIL][1..] == []; }
    assert Sort([DETAIL], PlanLeq) == [DETAIL] by { assert [DETAIL][1..] == []; }
    assert PrimaryRecord([DETAIL], [RECORD]) == Some(RECORD);
    assert ProvenanceOf(RECORD) == SelectedPlan by { assert CODE[0..7][0] == 'C'; }
    assert FirstLimitation([RECORD]) == None by { assert [RECORD][1..] == []; }
    NoSupport(SUPPORTS);
    assert SupportIds([]) == [] && ["e"] + [] + [] == ["e"];
    assert Dedup(["e"]) == ["e"] by { DedupOne("e"); }
  }

  lemma DedupOne(x: string)
    ensures Dedup([x]) == [x]
  {
    assert [x][..0] == [];
    assert Dedup<string>([]) == [];
  }

  lemma {:induction false} NoSupport(slots: seq<(string, string)>)
    requires forall slot | slot in slots :: slot.1 != CODE
    ensures Supporting([RECORD], ["e"], slots, []) == []
  {
    hide Get;
    RecordFields();
    if slots != [] {
      assert slots[0] in slots && forall slot | slot in slots[1..] :: slot in slots;
      assert FirstOutside([RECORD], slots[0].1, ["e"]) == None by { assert [RECORD][1..] == []; }
      NoSupport(slots[1..]);
    }
  }

  lemma ItsEvidence(p: Prepared)
    requires p.records == [RECORD] && p.plan == Some(PLAN)
    ensures PlanEvidence(p) == [RECORD]
  {
    hide Get, Filter;
    RecordFields();
    FilterFixed([RECORD], r => IsAuthorized(r, p.plan.value));
  }

  /** The guard answers the draft with its first sentence alone. */
  lemma GuardKeepsTheTitle(u: Unicode, policy: Policy)
    requires u.Valid()
    requires policy.publicText("tin.") == None && policy.publicText("7") == None && policy.grounding("tin.", [RECORD]) == None
    ensures var r := Guard.Guarded(
        Guard.Setting(u, policy, [RECORD], [], "i", false), Guard.Draft(Some("tin. 7"), []), ["e"]);
      r.Ok? && Guard.Texts(r.value.accepted) == ["tin."]
  {
    hide NumbersVerdict, Repaired, Scope, Fragments, Get, Strip, Guard.ClaimsOf, Guard.CitedIds, Filter;
    var st := Guard.Setting(u, policy, [RECORD], [], "i", false);
    RecordFields();
    assert !Guard.OffTarget(st);
    TwoSentences(u);
    NotBlankTexts(u);
    OneRecordScope(u, policy, "tin.", [], "i");
    OneRecordScope(u, policy, "7", [], "i");
    TitlePasses(u);
    SevenFails(u);
    assert Guard.JudgeSentence(st, map[], "tin.") == Accept("tin.");
    assert Guard.JudgeSentence(st, map[], "7") == Drop;
    var fragments := ["tin.", "7"];
    assert Guard.Walk(st, map[], fragments, 2) == Guard.Ok([]);
    assert Guard.Walk(st, map[], fragments, 1) == Guard.Ok([]);
    var k := Guard.Kept(0, "tin.", [RECORD]);
    assert Guard.ItemsFor(st, map[], "tin.") == [RECORD] && [k] + [] == [k];
    assert Guard.Walk(st, map[], fragments, 0) == Guard.Ok([Guard.Kept(0, "tin.", [RECORD])]);
    assert Guard.Texts([]) == [];
    assert Join(" ", ["tin."]) == "tin.";
  }

  lemma NotBlankTexts(u: Unicode)
    requires u.Valid()
    ensures Strip(u, "tin. 7") != "" && Strip(u, "tin.") == "tin."
  {
    assert u.Classified('t') && u.Classified('.') && u.Classified('7') by { assert u.word('t') && u.word('7') && !u.word('.'); }
    assert Strip(u, "tin. 7") == "tin. 7";
  }

  lemma SecondSentenceUnseen(env: Environment, p: Prepared)
    requires env.unicode.Valid() && env.ask("i") == Item(RESPONSE) && !Overlong(env.unicode, RESPONSE)
    requires env.policy.publicText("tin.") == None && env.policy.publicText("7") == None
    requires env.policy.grounding("tin.", [RECORD]) == None
    requires p.records == [RECORD] && p.plan == Some(PLAN) && p.entry.ingredientId == "i"
    ensures Narrated(env, REQUEST, p).Some? && Narrated(env, REQUEST, p).value.summary == "7"
    ensures Narrated(env, REQUEST, p).value.origin == Llm
  {
    hide NumbersVerdict, Guard.Guarded, Overlong, PlanEvidence;
    GuardKeepsTheTitle(env.unicode, env.policy);
    assert "tin" + ". " + "7" == "tin. 7";
    ItsEvidence(p);
  }

  /**
   A concrete case: asked about ingredient "i", the provider answers with the headline "tin" and the summary "7".
   The guard accepts the answer because it can drop the second sentence, whose number no evidence supports, and
   the entry shows the provider's summary all the same. Record and detail are what the contract and the projection
   make of a fact with a critical code; the fact names an ingredient, see `Routing.NeverAsked`.
   */
  lemma DroppedSentenceIsShown(env: Environment)
    requires env.unicode.Valid() && env.ask("i") == Item(RESPONSE) && !Overlong(env.unicode, RESPONSE)
    requires env.policy.publicText("tin.") == None && env.policy.publicText("7") == None
    requires env.policy.grounding("tin.", [RECORD]) == None
    ensures REQUEST.details == Risk.RiskDetails(TABLE, map[], [FACT])
    ensures EntryFor(env, REQUEST, "i").origin == Llm && EntryFor(env, REQUEST, "i").summary == "7"
    ensures NumbersVerdict(env.unicode, "7", [RECORD]) == Unsupported
  {
    hide NumbersVerdict, Narrated, PlanFor, Overlong, RecordsOf, DetailsOf, ImportanceOf, Ids, Eligible, EligibleIds;
    hide Risk.RiskDetails;
    DetailIsProduced();
    SevenFails(env.unicode);
    OwnRecords();
    ItsPlan();
    SecondSentenceUnseen(env, PreparedFor(env, REQUEST, "i"));
    ItsCall();
  }

  lemma ItsCall()
    ensures Attempted(REQUEST) && Eligible(REQUEST, "i")
  {
    hide RecordsOf, DetailsOf, ImportanceOf, Ids;
    OwnRecords();
    assert "i" in Ids(REQUEST) by { assert "i" in REQUEST.demandIds; assert "i" in AllIds(REQUEST); }
    EligibleMember(REQUEST, Ids(REQUEST));
    assert "i" in EligibleIds(REQUEST, Ids(REQUEST));
  }
}
