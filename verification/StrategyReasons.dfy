/**
 The selection reasons of persisted candidates, app/decision_intelligence/strategy_reason_evidence.py, and
 the second selection checker, `_validated_selection_proof` of app/decision_intelligence/semantic_evidence.py.
 */
module StrategyReasons {
  import opened Text
  import opened Ordering
  import opened StrategyOutcomes

  const HIGHER := "HIGHER_PURCHASE_COST_THAN_SELECTED"
  const TIEBREAK := "STRATEGY_NAME_TIEBREAK"

  /** The selection reason of one strategy; `full` is false when the reason is unavailable. */
  datatype Reason = Reason(
    strategy: string, code: string, full: bool, eligibleCosts: seq<(string, real)>,
    selectedCost: Option<real>, candidateCost: Option<real>, delta: Option<real>)

  /** {name.lower(): value} over the records that are eligible */
  function EligibleRecords(strategies: seq<(string, Option<Candidate>)>, lower: string -> string): (m: Candidates)
    ensures forall k | k in m :: Eligible(m[k])
  {
    if strategies == [] then map[]
    else
      var (name, record) := strategies[|strategies| - 1];
      var rest := EligibleRecords(strategies[..|strategies| - 1], lower);
      if record.Some? && Eligible(record.value) then rest[lower(name) := record.value] else rest
  }

  function CostsOf(m: Candidates, names: seq<string>): seq<(string, real)>
    requires forall n | n in names :: n in m && Eligible(m[n])
  {
    if names == [] then []
    else
      var first := names[0];
      assert first in names && Eligible(m[first]);
      assert forall n | n in names[1..] :: n in names;
      [(first, m[first].cost.value)] + CostsOf(m, names[1..])
  }

  function EligibleCosts(m: Candidates): seq<(string, real)>
    requires forall k | k in m :: Eligible(m[k])
  {
    CostsOf(m, SortedStrings(m.Keys))
  }

  function CostIn(m: Candidates, name: string): Option<real> {
    if name in m then m[name].cost else None
  }

  function Unavailable(o: Outcome): Reason {
    Reason(o.strategy, UNAVAILABLE, false, [], None, None, None)
  }

  /** The selection reason of an outcome that is selected or feasible, none for the others. */
  function ReasonOf(o: Outcome, eligible: Candidates, selected: string, proof: bool): seq<Reason>
    requires forall k | k in eligible :: Eligible(eligible[k])
  {
    if o.kind != Selected && o.kind != FeasibleNotSelected then []
    else
      var code := if o.reasons == [] then UNAVAILABLE else o.reasons[0];
      if !proof || code == UNAVAILABLE then [Unavailable(o)]
      else if o.kind == Selected then
        [Reason(o.strategy, code, true, EligibleCosts(eligible), o.cost, None, None)]
      else
        var selectedCost := CostIn(eligible, selected);
        var delta := if code == HIGHER && selectedCost.Some? && o.cost.Some?
                     then Some(o.cost.value - selectedCost.value) else None;
        [Reason(o.strategy, code, true, EligibleCosts(eligible), selectedCost, o.cost, delta)]
  }

  function ReasonsOf(outcomes: seq<Outcome>, eligible: Candidates, selected: string, proof: bool): seq<Reason>
    requires forall k | k in eligible :: Eligible(eligible[k])
  {
    if outcomes == [] then []
    else ReasonOf(outcomes[0], eligible, selected, proof) + ReasonsOf(outcomes[1..], eligible, selected, proof)
  }

  predicate AllVerified(outcomes: seq<Outcome>) {
    forall o | o in outcomes :: o.verified
  }

  /** The selection reasons of project_strategy_reason_evidence */
  method ProjectSelectionReasons(package: Package, lower: string -> string) returns (r: Result<seq<Reason>>)
    ensures r.TypeError? <==> Outcomes(package, lower).TypeError?
    ensures r.Ok? ==>
      var outcomes := Outcomes(package, lower).value;
      r.value == ReasonsOf(outcomes, EligibleRecords(package.strategies, lower), SelectedName(package, lower), AllVerified(outcomes))
  {
    hide Outcomes, EligibleRecords, ReasonOf;
    var projected := ProjectStrategyOutcomes(package, lower);
    if projected.TypeError? {
      return TypeError;
    }
    var outcomes := projected.value;
    var selected := SelectedName(package, lower);
    var proof := AllVerified(outcomes);
    var eligible := EligibleRecords(package.strategies, lower);
    var result: seq<Reason> := [];
    for i := 0 to |outcomes|
      invariant result + ReasonsOf(outcomes[i..], eligible, selected, proof) == ReasonsOf(outcomes, eligible, selected, proof)
    {
      assert outcomes[i..][0] == outcomes[i] && outcomes[i..][1..] == outcomes[i + 1..];
      result := result + ReasonOf(outcomes[i], eligible, selected, proof);
    }
    assert outcomes[|outcomes|..] == [];
    return Ok(result);
  }

  /** The winner's record is the same in both dictionaries. */
  lemma {:induction false} WinnerRecord(strategies: seq<(string, Option<Candidate>)>, lower: string -> string,
      selected: string)
    requires var m := CandidatesOf(strategies, lower); selected in m && Eligible(m[selected])
    ensures var e := EligibleRecords(strategies, lower);
      selected in e && e[selected] == CandidatesOf(strategies, lower)[selected]
  {
    var n := |strategies| - 1;
    if !(strategies[n].1.Some? && lower(strategies[n].0) == selected) {
      WinnerRecord(strategies[..n], lower, selected);
    }
  }

  /** What a reason says of the costs, given the winner's cost. */
  predicate TrueReason(r: Reason, o: Outcome, winner: string, best: Option<real>) {
    && best.Some?
    && r.strategy == o.strategy && r.full && r.selectedCost == best
    && (r.code == HIGHER ==>
          r.candidateCost.Some? && r.delta == Some(r.candidateCost.value - best.value) && r.delta.value > 0.0)
    && (r.code != HIGHER ==> r.delta.None?)
    && (o.kind == FeasibleNotSelected && r.code == TIEBREAK ==>
          r.candidateCost == best && StrLeq(winner, o.strategy) && o.strategy != winner)
  }

  /**
   In a verified package the reasons carry true costs: a dearer alternative comes with the positive
   difference to the winner's cost, a tie-broken one with the winner's own cost and a later name, and the
   selected one with the least cost.
   */
  lemma ReasonCostsAreTrue(package: Package, lower: string -> string, o: Outcome)
    requires PackageVerified(package, lower) && Outcomes(package, lower).Ok? && o in Outcomes(package, lower).value
    ensures AllVerified(Outcomes(package, lower).value)
    ensures var winner := SelectedName(package, lower);
      var candidates := CandidatesOf(package.strategies, lower);
      winner in candidates
      && forall r | r in ReasonOf(o, EligibleRecords(package.strategies, lower), winner, true) ::
           TrueReason(r, o, winner, candidates[winner].cost)
  {
    hide CandidatesOf, EligibleRecords, Outcomes, OutcomesOf, OutcomeOf, PackageVerified, ReasonOf, Verified;
    hide TrueReason;
    var candidates, winner := CandidatesOf(package.strategies, lower), SelectedName(package, lower);
    VerifiedEligible(package, lower);
    WinnerRecord(package.strategies, lower, winner);
    OutcomesAreAll(package, lower);
    OutcomesVerified(package, lower);
    var names := SortedStrings(candidates.Keys);
    var i :| 0 <= i < |names| && Outcomes(package, lower).value[i] == o;
    PackageReasons(package, lower, names[i]);
    OutcomeShape(candidates, names[i], winner);
    ReasonIsTrue(o, EligibleRecords(package.strategies, lower), winner, candidates[winner].cost);
  }

  lemma ReasonIsTrue(o: Outcome, eligible: Candidates, winner: string, best: Option<real>)
    requires forall k | k in eligible :: Eligible(eligible[k])
    requires best.Some? && winner in eligible && eligible[winner].cost == best
    requires o.kind == Selected ==>
      o.cost == best && |o.reasons| == 1 && (o.reasons[0] == TIEBREAK || o.reasons[0] == "LOWEST_EXACT_VALID_CANDIDATE_COST")
    requires o.kind == FeasibleNotSelected ==>
      (|| (o.reasons == [HIGHER] && o.cost.Some? && o.cost.value > best.value)
       || (o.reasons == [TIEBREAK] && o.cost == best && StrLeq(winner, o.strategy) && o.strategy != winner))
    ensures forall r | r in ReasonOf(o, eligible, winner, true) :: TrueReason(r, o, winner, best)
  {
    hide EligibleCosts;
    CodesDiffer();
  }

  lemma CodesDiffer()
    ensures HIGHER != TIEBREAK && HIGHER != UNAVAILABLE && TIEBREAK != UNAVAILABLE
    ensures "LOWEST_EXACT_VALID_CANDIDATE_COST" != UNAVAILABLE && "LOWEST_EXACT_VALID_CANDIDATE_COST" != HIGHER
  {
    assert HIGHER[0] == 'H' && TIEBREAK[1] == 'T' && UNAVAILABLE[1] == 'E';
    assert "LOWEST_EXACT_VALID_CANDIDATE_COST"[0] == 'L' && UNAVAILABLE[0] == 'S';
  }

  lemma PackageReasons(package: Package, lower: string -> string, name: string)
    requires PackageVerified(package, lower)
    requires var candidates := CandidatesOf(package.strategies, lower);
      name in candidates && SelectedName(package, lower) in EligibleNames(candidates)
      && OutcomeOf(candidates, name, SelectedName(package, lower), true).Ok?
    ensures var candidates := CandidatesOf(package.strategies, lower);
      var best := candidates[SelectedName(package, lower)].cost.value;
      var o := OutcomeOf(candidates, name, SelectedName(package, lower), true).value;
      && (o.kind == Selected ==> name == SelectedName(package, lower))
      && (o.kind == FeasibleNotSelected ==>
            (|| (o.reasons == [HIGHER] && o.cost.Some? && o.cost.value > best)
             || (o.reasons == [TIEBREAK] && o.cost == Some(best) && StrLeq(SelectedName(package, lower), name)
                 && name != SelectedName(package, lower))))
  {
    hide CandidatesOf, OutcomeOf, Verified;
    ReasonsAreTrue(RULE, package.selection, CandidatesOf(package.strategies, lower), name, SelectedName(package, lower));
  }

  lemma OutcomeShape(candidates: Candidates, name: string, selected: string)
    requires name in candidates && selected in EligibleNames(candidates)
    requires OutcomeOf(candidates, name, selected, true).Ok?
    ensures var o := OutcomeOf(candidates, name, selected, true).value;
      && o.cost == candidates[name].cost && o.strategy == name
      && (o.kind == Selected ==> |o.reasons| == 1 && (o.reasons[0] == TIEBREAK || o.reasons[0] == "LOWEST_EXACT_VALID_CANDIDATE_COST"))
  {
    hide Technical, Hard;
  }

  lemma OutcomesVerified(package: Package, lower: string -> string)
    requires Outcomes(package, lower).Ok?
    ensures forall o | o in Outcomes(package, lower).value :: o.verified == PackageVerified(package, lower)
  {
    hide CandidatesOf, OutcomesOf, Outcomes, Classify, PackageVerified;
    VerifiedEligible(package, lower);
    OutcomesAreAll(package, lower);
  }

  /** Without a verified proof no reason other than "unavailable" is given. */
  lemma UnverifiedGivesNoReason(package: Package, lower: string -> string, r: Reason)
    requires Outcomes(package, lower).Ok? && !PackageVerified(package, lower)
    requires var outcomes := Outcomes(package, lower).value;
      r in ReasonsOf(outcomes, EligibleRecords(package.strategies, lower), SelectedName(package, lower), AllVerified(outcomes))
    ensures r.code == UNAVAILABLE && !r.full
  {
    hide Outcomes, EligibleRecords, PackageVerified, EligibleCosts;
    OutcomesVerified(package, lower);
    var outcomes := Outcomes(package, lower).value;
    UnprovenReasons(outcomes, EligibleRecords(package.strategies, lower), SelectedName(package, lower), AllVerified(outcomes), r);
  }

  lemma {:induction false} UnprovenReasons(
      outcomes: seq<Outcome>, eligible: Candidates, selected: string, proof: bool, r: Reason)
    requires forall k | k in eligible :: Eligible(eligible[k])
    requires (outcomes != [] ==> !proof) && r in ReasonsOf(outcomes, eligible, selected, proof)
    ensures r.code == UNAVAILABLE && !r.full
  {
    hide EligibleCosts;
    if r !in ReasonOf(outcomes[0], eligible, selected, proof) {
      UnprovenReasons(outcomes[1..], eligible, selected, proof, r);
    }
  }

  // ---------- the two checkers ----------

  const SEMANTIC_RULE := "lowest_valid_candidate_cost_then_strategy_name"

  function Lowered(names: seq<string>, lower: string -> string): seq<string> {
    if names == [] then [] else [lower(names[0])] + Lowered(names[1..], lower)
  }

  /** _validated_selection_proof returns a proof; `rule` is the rule name the checker expects */
  predicate Validated(
      rule: string, selection: Option<Selection>, candidates: Candidates, selected: string, lower: string -> string)
  {
    var eligible := SortedStrings(EligibleNames(candidates));
    && selection.Some? && selected != ""
    && selection.value.rule == rule
    && eligible != []
    && Sort(Lowered(selection.value.eligible, lower), StrLeq) == eligible
    && selection.value.selected == selected
    && Winner(candidates, eligible) == selected
  }

  lemma {:induction false} LoweredFixed(names: seq<string>, lower: string -> string)
    ensures (forall n | n in names :: lower(n) == n) ==> Lowered(names, lower) == names
    ensures |Lowered(names, lower)| == |names|
  {
    if names != [] {
      LoweredFixed(names[1..], lower);
      assert names == [names[0]] + names[1..];
    }
  }

  /**
   Each given its own rule name, the checkers agree on the same candidates, except that the outcome checker
   also wants the persisted eligible names already in lower case: it accepts exactly when the semantic
   checker accepts and lowering leaves every persisted name as it is.
   */
  lemma CheckersAgree(
      outcomeRule: string, semanticRule: string, selection: Selection, candidates: Candidates, selected: string,
      lower: string -> string)
    requires forall s :: lower(lower(s)) == lower(s)
    requires forall k | k in candidates :: lower(k) == k
    ensures Verified(outcomeRule, Some(selection.(rule := outcomeRule)), candidates, selected) <==>
      Validated(semanticRule, Some(selection.(rule := semanticRule)), candidates, selected, lower)
      && forall n | n in selection.eligible :: lower(n) == n
  {
    var eligible := SortedStrings(EligibleNames(candidates));
    LoweredFixed(selection.eligible, lower);
    StrOrder();
    SortSorted(selection.eligible, StrLeq);
    HeadIn(eligible);
  }

  const ONE_CANDIDATE: Candidates := map["balanced" := Candidate(true, Some(1.0), [], [])]

  /** A persisted eligible list that says "Balanced": the semantic checker accepts it, the outcome checker does not. */
  lemma UpperCaseSeparates(lower: string -> string)
    requires forall s :: lower(lower(s)) == lower(s)
    requires lower("Balanced") == "balanced"
    ensures Validated(SEMANTIC_RULE, Some(Selection(SEMANTIC_RULE, "balanced", ["Balanced"])), ONE_CANDIDATE, "balanced", lower)
    ensures !Verified(RULE, Some(Selection(RULE, "balanced", ["Balanced"])), ONE_CANDIDATE, "balanced")
  {
    hide StrLeq;
    StrOrder();
    assert EligibleNames(ONE_CANDIDATE) == {"balanced"};
    EnumerationUnique(SortedStrings({"balanced"}), ["balanced"], {"balanced"}, StrLeq);
    assert ["Balanced"][1..] == [] && ["balanced"][1..] == [];
    assert Lowered(["Balanced"], lower) == ["balanced"];
    assert Sort(["balanced"], StrLeq) == ["balanced"] && Sort(["Balanced"], StrLeq) == ["Balanced"];
    assert "Balanced"[0] != "balanced"[0] && ["Balanced"][0] != ["balanced"][0];
  }

  /** The rule names differ, so no package passes both checkers as they are. */
  lemma NoPackagePassesBoth(selection: Option<Selection>, candidates: Candidates, other: Candidates, selected: string,
      lower: string -> string)
    ensures !(Verified(RULE, selection, candidates, selected) && Validated(SEMANTIC_RULE, selection, other, selected, lower))
  {
    assert |RULE| != |SEMANTIC_RULE|;
  }
}
