/**
 Candidate outcomes of a persisted decision run: app/decision_intelligence/strategy_outcomes.py.

 `str.lower` is a parameter; where it matters it is only assumed idempotent. A cost is None when
 `purchase_cost` is not a number.
 */
module StrategyOutcomes {
  import opened Text
  import opened Ordering

  datatype Finding = Finding(code: string, isError: bool)

  datatype Candidate = Candidate(feasible: bool, cost: Option<real>, findings: seq<Finding>, warnings: seq<string>)

  datatype Selection = Selection(rule: string, selected: string, eligible: seq<string>)

  /** The persisted package; a strategy whose record is not a dictionary is None, absent texts are "". */
  datatype Package = Package(
    strategies: seq<(string, Option<Candidate>)>, recommended: string, selection: Option<Selection>)

  type Candidates = map<string, Candidate>

  datatype OutcomeKind = Selected | FeasibleNotSelected | Rejected | TechnicalFailure | NotEvaluated

  datatype Outcome = Outcome(
    strategy: string, kind: OutcomeKind, feasible: bool, cost: Option<real>, reasons: seq<string>,
    hard: seq<string>, technical: seq<string>, warnings: seq<string>, verified: bool)

  datatype Result<+T> = Ok(value: T) | TypeError

  const RULE := "lowest_exact_valid_candidate_cost_then_strategy_name"
  const TECHNICAL := {
    "M4_SIMULATION_FAILED", "M4_ACCOUNTING_INVALID", "CANDIDATE_MODEL_MISMATCH", "STRESS_ACCOUNTING_INVALID"}

  /** {key.lower(): value}: of keys that fold together the last wins */
  function CandidatesOf(strategies: seq<(string, Option<Candidate>)>, lower: string -> string): Candidates {
    if strategies == [] then map[]
    else
      var (name, record) := strategies[|strategies| - 1];
      var rest := CandidatesOf(strategies[..|strategies| - 1], lower);
      if record.Some? then rest[lower(name) := record.value] else rest
  }

  predicate Eligible(c: Candidate) {
    c.feasible && c.cost.Some?
  }

  function EligibleNames(candidates: Candidates): set<string> {
    set name | name in candidates && Eligible(candidates[name])
  }

  /** (cost, name) order */
  predicate Cheaper(candidates: Candidates, a: string, b: string)
    requires a in EligibleNames(candidates) && b in EligibleNames(candidates)
  {
    var x, y := candidates[a].cost.value, candidates[b].cost.value;
    x < y || (x == y && StrLeq(a, b))
  }

  /** min(names, key=...): the first of the least */
  function Winner(candidates: Candidates, names: seq<string>): (w: string)
    requires names != [] && forall n | n in names :: n in EligibleNames(candidates)
    ensures w in names
  {
    if |names| == 1 then names[0]
    else
      var w := Winner(candidates, names[..|names| - 1]);
      var n := names[|names| - 1];
      if Cheaper(candidates, w, n) then w else n
  }

  /** _selection_proof_verified; `rule` is the rule name the checker expects */
  predicate Verified(rule: string, selection: Option<Selection>, candidates: Candidates, selected: string) {
    var eligible := SortedStrings(EligibleNames(candidates));
    && selected != "" && selection.Some?
    && selection.value.rule == rule
    && selection.value.selected == selected
    && Sort(selection.value.eligible, StrLeq) == eligible
    && selected in eligible
    && Winner(candidates, eligible) == selected
  }

  predicate IsTechnical(code: string) {
    code in TECHNICAL || StartsWith(code, "SOLVER_STATUS:ERROR") || StartsWith(code, "SOLVER_STATUS:FAILED")
  }

  function Hard(c: Candidate): seq<string> {
    SortedStrings(set f | f in c.findings && f.isError && f.code != "" :: f.code)
  }

  function Technical(c: Candidate): seq<string> {
    Filter(Hard(c), (code: string) => IsTechnical(code))
  }

  /** _selected_reason */
  function SelectedReason(candidates: Candidates, selected: string): string
    requires selected in EligibleNames(candidates)
  {
    if exists n | n in candidates :: n != selected && candidates[n].feasible && candidates[n].cost == candidates[selected].cost
    then "STRATEGY_NAME_TIEBREAK" else "LOWEST_EXACT_VALID_CANDIDATE_COST"
  }

  /** _alternative_reason: float(None) raises */
  function AlternativeReason(candidates: Candidates, name: string, selected: string): Result<string>
    requires name in candidates && selected in EligibleNames(candidates)
  {
    match candidates[name].cost
    case None => TypeError
    case Some(cost) =>
      Ok(if cost == candidates[selected].cost.value then "STRATEGY_NAME_TIEBREAK"
         else "HIGHER_PURCHASE_COST_THAN_SELECTED")
  }

  const UNAVAILABLE := "SELECTION_REASON_UNAVAILABLE"

  /** The branch cascade for one candidate. */
  function Classify(candidates: Candidates, name: string, selected: string, verified: bool)
    : Result<(OutcomeKind, seq<string>)>
    requires name in candidates && (verified ==> selected in EligibleNames(candidates))
  {
    var c := candidates[name];
    if Technical(c) != [] then Ok((TechnicalFailure, Technical(c)))
    else if !c.feasible && Hard(c) != [] then Ok((Rejected, Hard(c)))
    else if c.feasible && selected == name then
      Ok((Selected, [if verified then SelectedReason(candidates, selected) else UNAVAILABLE]))
    else if c.feasible then
      if verified then
        match AlternativeReason(candidates, name, selected)
        case TypeError => TypeError
        case Ok(reason) => Ok((FeasibleNotSelected, [reason]))
      else Ok((FeasibleNotSelected, [UNAVAILABLE]))
    else Ok((NotEvaluated, ["EVALUATION_OUTCOME_UNAVAILABLE"]))
  }

  function OutcomeOf(candidates: Candidates, name: string, selected: string, verified: bool): Result<Outcome>
    requires name in candidates && (verified ==> selected in EligibleNames(candidates))
  {
    var c := candidates[name];
    match Classify(candidates, name, selected, verified)
    case TypeError => TypeError
    case Ok((kind, reasons)) =>
      Ok(Outcome(name, kind, c.feasible, c.cost, reasons, Hard(c), Technical(c),
                 SortedStrings(set w | w in c.warnings), verified))
  }

  function OutcomesOf(candidates: Candidates, names: seq<string>, selected: string, verified: bool)
    : Result<seq<Outcome>>
    requires (forall n | n in names :: n in candidates) && (verified ==> selected in EligibleNames(candidates))
  {
    if names == [] then Ok([])
    else
      assert forall n | n in names[1..] :: n in names;
      match OutcomeOf(candidates, names[0], selected, verified)
      case TypeError => TypeError
      case Ok(outcome) =>
        match OutcomesOf(candidates, names[1..], selected, verified)
        case TypeError => TypeError
        case Ok(rest) => Ok([outcome] + rest)
  }

  function SelectedName(package: Package, lower: string -> string): string {
    if package.recommended == "" then "" else lower(package.recommended)
  }

  predicate PackageVerified(package: Package, lower: string -> string) {
    Verified(RULE, package.selection, CandidatesOf(package.strategies, lower), SelectedName(package, lower))
  }

  /** What project_strategy_outcomes returns. */
  function Outcomes(package: Package, lower: string -> string): Result<seq<Outcome>> {
    var candidates := CandidatesOf(package.strategies, lower);
    var verified := PackageVerified(package, lower);
    OutcomesOf(candidates, SortedStrings(candidates.Keys), SelectedName(package, lower), verified)
  }

  function After(done: seq<Outcome>, rest: Result<seq<Outcome>>): Result<seq<Outcome>> {
    match rest case TypeError => TypeError case Ok(more) => Ok(done + more)
  }

  /** The loop over the candidates in name order. */
  method ClassifyAll(candidates: Candidates, names: seq<string>, selected: string, verified: bool)
    returns (r: Result<seq<Outcome>>)
    requires (forall n | n in names :: n in candidates) && (verified ==> selected in EligibleNames(candidates))
    ensures r == OutcomesOf(candidates, names, selected, verified)
  {
    hide OutcomeOf, EligibleNames;
    var result: seq<Outcome> := [];
    AfterNone(OutcomesOf(candidates, names, selected, verified));
    assert names[0..] == names;
    for i := 0 to |names|
      invariant OutcomesOf(candidates, names, selected, verified)
             == After(result, OutcomesOf(candidates, names[i..], selected, verified))
    {
      var rest := names[i..];
      assert rest[0] == names[i] && rest[1..] == names[i + 1..];
      var outcome := OutcomeOf(candidates, names[i], selected, verified);
      if outcome.TypeError? {
        return TypeError;
      }
      AppendOutcome(result, outcome.value, OutcomesOf(candidates, names[i + 1..], selected, verified));
      result := result + [outcome.value];
    }
    assert names[|names|..] == [] && result + [] == result;
    return Ok(result);
  }

  /** project_strategy_outcomes */
  method ProjectStrategyOutcomes(package: Package, lower: string -> string) returns (r: Result<seq<Outcome>>)
    ensures r == Outcomes(package, lower)
  {
    hide OutcomesOf, CandidatesOf, PackageVerified;
    VerifiedEligible(package, lower);
    var candidates := CandidatesOf(package.strategies, lower);
    var verified := PackageVerified(package, lower);
    r := ClassifyAll(candidates, SortedStrings(candidates.Keys), SelectedName(package, lower), verified);
  }

  lemma AfterNone(rest: Result<seq<Outcome>>)
    ensures After([], rest) == rest
  {
    if rest.Ok? { assert [] + rest.value == rest.value; }
  }

  lemma AppendOutcome(done: seq<Outcome>, o: Outcome, rest: Result<seq<Outcome>>)
    ensures After(done, After([o], rest)) == After(done + [o], rest)
  {
    if rest.Ok? { assert done + ([o] + rest.value) == done + [o] + rest.value; }
  }

  lemma VerifiedEligible(package: Package, lower: string -> string)
    ensures var candidates := CandidatesOf(package.strategies, lower);
      PackageVerified(package, lower) ==> SelectedName(package, lower) in EligibleNames(candidates)
  {
    hide CandidatesOf;
  }

  // ---------- the selection is a true argmin ----------

  lemma {:induction false} WinnerLeast(candidates: Candidates, names: seq<string>)
    requires names != [] && forall n | n in names :: n in EligibleNames(candidates)
    ensures forall n | n in names :: Cheaper(candidates, Winner(candidates, names), n)
  {
    StrOrder();
    var last := |names| - 1;
    assert names == names[..last] + [names[last]];
    if |names| > 1 {
      WinnerLeast(candidates, names[..last]);
    }
  }

  lemma CheaperAntisymmetric(candidates: Candidates, a: string, b: string)
    requires a in EligibleNames(candidates) && b in EligibleNames(candidates)
    requires Cheaper(candidates, a, b) && Cheaper(candidates, b, a)
    ensures a == b
  {
    StrTotal(a, b);
  }

  /**
   A proof verifies exactly when the persisted rule, name and eligible list match the candidates and the
   selected name is the least of all eligible candidates by (cost, name).
   */
  lemma VerifiedIsArgmin(rule: string, selection: Option<Selection>, candidates: Candidates, selected: string)
    ensures Verified(rule, selection, candidates, selected) <==>
      && selected != "" && selection.Some? && selection.value.rule == rule && selection.value.selected == selected
      && Sort(selection.value.eligible, StrLeq) == SortedStrings(EligibleNames(candidates))
      && selected in EligibleNames(candidates)
      && forall n | n in EligibleNames(candidates) :: Cheaper(candidates, selected, n)
  {
    var eligible := SortedStrings(EligibleNames(candidates));
    if selected in eligible {
      WinnerLeast(candidates, eligible);
      var w := Winner(candidates, eligible);
      if forall n | n in EligibleNames(candidates) :: Cheaper(candidates, selected, n) {
        CheaperAntisymmetric(candidates, w, selected);
      }
    }
  }

  // ---------- when the projection raises, and what the reasons mean ----------

  /** The candidate whose missing cost makes the projection raise. */
  predicate Breaks(c: Candidate) {
    c.feasible && c.cost.None? && Technical(c) == []
  }

  lemma OutcomeRaises(candidates: Candidates, name: string, selected: string, verified: bool)
    requires name in candidates && (verified ==> selected in EligibleNames(candidates))
    ensures OutcomeOf(candidates, name, selected, verified).TypeError? <==> verified && Breaks(candidates[name])
  {
    hide Technical, Hard, SelectedReason;
  }

  lemma {:induction false} OutcomesRaise(candidates: Candidates, names: seq<string>, selected: string, verified: bool)
    requires (forall n | n in names :: n in candidates) && (verified ==> selected in EligibleNames(candidates))
    ensures OutcomesOf(candidates, names, selected, verified).TypeError?
       <==> verified && exists n :: n in names && Breaks(candidates[n])
    ensures var r := OutcomesOf(candidates, names, selected, verified);
      r.Ok? ==> |r.value| == |names| && forall i | 0 <= i < |names| ::
        OutcomeOf(candidates, names[i], selected, verified) == Ok(r.value[i])
  {
    hide OutcomeOf, Breaks;
    if names != [] {
      OutcomeRaises(candidates, names[0], selected, verified);
      OutcomesRaise(candidates, names[1..], selected, verified);
      assert names == [names[0]] + names[1..];
    }
  }

  /** The projection raises exactly when the proof verifies and some feasible, technically sound candidate has no numeric cost. */
  lemma ProjectionRaisesIff(package: Package, lower: string -> string)
    ensures var candidates := CandidatesOf(package.strategies, lower);
      Outcomes(package, lower).TypeError? <==>
        PackageVerified(package, lower) && exists n :: n in candidates && Breaks(candidates[n])
  {
    hide CandidatesOf, OutcomesOf, PackageVerified, Breaks;
    var candidates := CandidatesOf(package.strategies, lower);
    VerifiedEligible(package, lower);
    OutcomesRaise(candidates, SortedStrings(candidates.Keys), SelectedName(package, lower), PackageVerified(package, lower));
  }

  /** One outcome per candidate, in name order, each the classification of its candidate. */
  lemma OutcomesAreAll(package: Package, lower: string -> string)
    requires Outcomes(package, lower).Ok?
    ensures var candidates := CandidatesOf(package.strategies, lower);
      var outcomes := Outcomes(package, lower).value;
      var names := SortedStrings(candidates.Keys);
      && |outcomes| == |names|
      && forall i | 0 <= i < |names| ::
           OutcomeOf(candidates, names[i], SelectedName(package, lower), PackageVerified(package, lower)) == Ok(outcomes[i])
           && outcomes[i].strategy == names[i]
  {
    hide CandidatesOf, OutcomesOf, PackageVerified, Classify;
    var candidates := CandidatesOf(package.strategies, lower);
    VerifiedEligible(package, lower);
    OutcomesRaise(candidates, SortedStrings(candidates.Keys), SelectedName(package, lower), PackageVerified(package, lower));
  }

  /** Reason codes mean what they say: they are only given when the proof holds and the costs bear them out. */
  lemma ReasonsAreTrue(rule: string, selection: Option<Selection>, candidates: Candidates, name: string,
      selected: string)
    requires name in candidates && Verified(rule, selection, candidates, selected)
    requires OutcomeOf(candidates, name, selected, true).Ok?
    ensures var o := OutcomeOf(candidates, name, selected, true).value;
      var best := candidates[selected].cost.value;
      && (o.kind == Selected <==> name == selected && o.technical == [])
      && (o.kind == Selected ==>
            (o.reasons == ["STRATEGY_NAME_TIEBREAK"] <==>
               exists n :: n in EligibleNames(candidates) && n != selected && candidates[n].cost == Some(best)))
      && (o.kind == FeasibleNotSelected ==>
            (&& o.cost.Some?
             && (o.reasons == ["HIGHER_PURCHASE_COST_THAN_SELECTED"] <==> o.cost.value > best)
             && (o.reasons == ["STRATEGY_NAME_TIEBREAK"] <==> o.cost.value == best)
             && (o.cost.value == best ==> StrLeq(selected, name) && selected != name)
             && (o.reasons == ["HIGHER_PURCHASE_COST_THAN_SELECTED"] || o.reasons == ["STRATEGY_NAME_TIEBREAK"])))
  {
    hide Technical, Hard, Verified, Cheaper;
    VerifiedIsArgmin(rule, selection, candidates, selected);
    var c := candidates[name];
    var best := candidates[selected].cost.value;
    if c.feasible && c.cost.Some? {
      CheapestBound(candidates, selected, name);
    }
    SelectedReasonIff(candidates, selected);
  }

  lemma CheapestBound(candidates: Candidates, selected: string, name: string)
    requires selected in EligibleNames(candidates) && name in EligibleNames(candidates)
    requires Cheaper(candidates, selected, name)
    ensures candidates[name].cost.value >= candidates[selected].cost.value
    ensures candidates[name].cost == candidates[selected].cost ==> StrLeq(selected, name)
  {}

  lemma SelectedReasonIff(candidates: Candidates, selected: string)
    requires selected in EligibleNames(candidates)
    ensures SelectedReason(candidates, selected) == "STRATEGY_NAME_TIEBREAK" <==>
      exists n :: n in EligibleNames(candidates) && n != selected && candidates[n].cost == candidates[selected].cost
  {
    assert "STRATEGY_NAME_TIEBREAK" != "LOWEST_EXACT_VALID_CANDIDATE_COST" by {
      assert "STRATEGY_NAME_TIEBREAK"[0] == 'S' && "LOWEST_EXACT_VALID_CANDIDATE_COST"[0] == 'L';
    }
    if SelectedReason(candidates, selected) == "STRATEGY_NAME_TIEBREAK" {
      var n :| n in candidates && n != selected && candidates[n].feasible && candidates[n].cost == candidates[selected].cost;
      assert n in EligibleNames(candidates);
    }
  }

  function SelectedCount(outcomes: seq<Outcome>): nat {
    |Filter(outcomes, (o: Outcome) => o.kind == Selected)|
  }

  lemma {:induction false} SelectedOnce(outcomes: seq<Outcome>, i: nat)
    requires i < |outcomes| && outcomes[i].kind == Selected
    requires forall k | 0 <= k < |outcomes| && k != i :: outcomes[k].kind != Selected
    ensures SelectedCount(outcomes) == 1
  {
    var keep := (o: Outcome) => o.kind == Selected;
    if i == 0 {
      SelectedNever(outcomes[1..]);
    } else {
      SelectedOnce(outcomes[1..], i - 1);
    }
  }

  lemma {:induction false} SelectedNever(outcomes: seq<Outcome>)
    requires forall k | 0 <= k < |outcomes| :: outcomes[k].kind != Selected
    ensures SelectedCount(outcomes) == 0
  {
    if outcomes != [] { SelectedNever(outcomes[1..]); }
  }

  /** With a verified proof exactly one candidate is Selected, unless the winner carries a technical code: then none is. */
  lemma ExactlyOneSelected(package: Package, lower: string -> string)
    requires PackageVerified(package, lower) && Outcomes(package, lower).Ok?
    ensures var candidates := CandidatesOf(package.strategies, lower);
      var winner := SelectedName(package, lower);
      && winner in candidates
      && SelectedCount(Outcomes(package, lower).value) == if Technical(candidates[winner]) == [] then 1 else 0
  {
    hide CandidatesOf, OutcomeOf, OutcomesOf, Technical, PackageVerified, Outcomes;
    var candidates := CandidatesOf(package.strategies, lower);
    var winner := SelectedName(package, lower);
    VerifiedEligible(package, lower);
    OutcomesAreAll(package, lower);
    var outcomes, names := Outcomes(package, lower).value, SortedStrings(candidates.Keys);
    forall i | 0 <= i < |names|
      ensures outcomes[i].kind == Selected <==> names[i] == winner && Technical(candidates[names[i]]) == []
    {
      SelectedIff(candidates, names[i], winner);
    }
    assert winner in names;
    var i: nat :| i < |names| && names[i] == winner;
    if Technical(candidates[winner]) == [] {
      SelectedOnce(outcomes, i);
    } else {
      SelectedNever(outcomes);
    }
  }

  lemma SelectedIff(candidates: Candidates, name: string, selected: string)
    requires name in candidates && selected in EligibleNames(candidates)
    ensures var o := OutcomeOf(candidates, name, selected, true);
      o.Ok? ==> (o.value.kind == Selected <==> name == selected && Technical(candidates[name]) == [])
  {
    hide Technical, Hard, SelectedReason, AlternativeReason;
  }

  // ---------- the order of the persisted dictionary does not matter ----------

  ghost predicate DistinctNames(strategies: seq<(string, Option<Candidate>)>, lower: string -> string) {
    forall i, j | 0 <= i < j < |strategies| :: lower(strategies[i].0) != lower(strategies[j].0)
  }

  ghost predicate Records(strategies: seq<(string, Option<Candidate>)>, lower: string -> string, k: string,
      c: Candidate) {
    exists s :: s in strategies && s.1 == Some(c) && lower(s.0) == k
  }

  /** With distinct names the candidates are exactly the records. */
  lemma {:induction false} CandidatesIff(
      strategies: seq<(string, Option<Candidate>)>, lower: string -> string, k: string, c: Candidate)
    requires DistinctNames(strategies, lower)
    ensures var m := CandidatesOf(strategies, lower); (k in m && m[k] == c) <==> Records(strategies, lower, k, c)
  {
    if strategies != [] {
      var n := |strategies| - 1;
      var front, last := strategies[..n], strategies[n];
      CandidatesIff(front, lower, k, c);
      assert strategies == front + [last];
      if lower(last.0) == k {
        assert forall s | s in front :: lower(s.0) != k;
        assert !Records(front, lower, k, c);
        NoRecordNoKey(front, lower, k);
        assert last in strategies;
      } else if Records(strategies, lower, k, c) {
        var s :| s in strategies && s.1 == Some(c) && lower(s.0) == k;
        assert s in front;
      }
    }
  }

  lemma {:induction false} NoRecordNoKey(strategies: seq<(string, Option<Candidate>)>, lower: string -> string,
      k: string)
    requires forall s | s in strategies :: lower(s.0) != k
    ensures k !in CandidatesOf(strategies, lower)
  {
    if strategies != [] {
      var n := |strategies| - 1;
      assert strategies[n] in strategies;
      NoRecordNoKey(strategies[..n], lower, k);
    }
  }

  /** Two packages with the same records under distinct names have the same outcomes. */
  lemma OrderIrrelevant(a: Package, b: Package, lower: string -> string)
    requires DistinctNames(a.strategies, lower) && DistinctNames(b.strategies, lower)
    requires multiset(a.strategies) == multiset(b.strategies)
    requires a.recommended == b.recommended && a.selection == b.selection
    ensures Outcomes(a, lower) == Outcomes(b, lower)
  {
    hide OutcomesOf, Verified, CandidatesOf;
    var m, n := CandidatesOf(a.strategies, lower), CandidatesOf(b.strategies, lower);
    assert forall s :: s in a.strategies <==> s in multiset(a.strategies);
    assert forall s :: s in b.strategies <==> s in multiset(b.strategies);
    forall k, c
      ensures MapsTo(m, k, c) <==> MapsTo(n, k, c)
    {
      CandidatesIff(a.strategies, lower, k, c);
      CandidatesIff(b.strategies, lower, k, c);
    }
    SameMaps(m, n);
  }

  ghost predicate MapsTo(m: Candidates, k: string, c: Candidate) {
    k in m && m[k] == c
  }

  lemma SameMaps(m: Candidates, n: Candidates)
    requires forall k, c :: MapsTo(m, k, c) <==> MapsTo(n, k, c)
    ensures m == n
  {
    forall k
      ensures k in m <==> k in n
    {
      if k in m { assert MapsTo(m, k, m[k]); }
      if k in n { assert MapsTo(n, k, n[k]); }
    }
    forall k | k in m
      ensures m[k] == n[k]
    {
      assert MapsTo(m, k, m[k]);
    }
  }
}
