/** The selection reasons of a package, said of its records, costs and outcomes. */
module ReasonLaws {
  import opened Text
  import opened Ordering
  import opened StrategyOutcomes
  import opened StrategyReasons

  /** The record at `i` is the last feasible one with a cost whose name folds to `name`. */
  ghost predicate LastEligible(strategies: seq<(string, Option<Candidate>)>, lower: string -> string, name: string, i: nat) {
    && i < |strategies| && Priced(strategies[i].1) && lower(strategies[i].0) == name
    && forall j | i < j < |strategies| && Priced(strategies[j].1) :: lower(strategies[j].0) != name
  }

  predicate Priced(record: Option<Candidate>) {
    record.Some? && record.value.feasible && record.value.cost.Some?
  }

  lemma {:induction false} EligibleRecordsAre(strategies: seq<(string, Option<Candidate>)>, lower: string -> string, name: string)
    ensures var m := EligibleRecords(strategies, lower);
      && (name in m <==> exists i: nat :: LastEligible(strategies, lower, name, i))
      && forall i: nat | LastEligible(strategies, lower, name, i) :: m[name] == strategies[i].1.value
  {
    if strategies != [] {
      var n := |strategies| - 1;
      EligibleRecordsAre(strategies[..n], lower, name);
      if Priced(strategies[n].1) && lower(strategies[n].0) == name {
        assert LastEligible(strategies, lower, name, n);
      } else {
        forall i: nat
          ensures LastEligible(strategies, lower, name, i) <==> LastEligible(strategies[..n], lower, name, i)
        {
          assert forall j | 0 <= j < n :: strategies[..n][j] == strategies[j];
        }
      }
    }
  }

  /** The cost under a name, from the record that the name stands for. */
  ghost predicate CostUnder(strategies: seq<(string, Option<Candidate>)>, lower: string -> string, name: string, cost: real) {
    exists i: nat :: LastEligible(strategies, lower, name, i) && strategies[i].1.value.cost == Some(cost)
  }

  /** All eligible costs, by name. */
  ghost predicate ListsCosts(costs: seq<(string, real)>, strategies: seq<(string, Option<Candidate>)>, lower: string -> string) {
    && (forall name, cost :: (name, cost) in costs <==> CostUnder(strategies, lower, name, cost))
    && forall i, j | 0 <= i < j < |costs| :: StrLeq(costs[i].0, costs[j].0) && costs[i].0 != costs[j].0
  }

  lemma {:induction false} CostsAre(m: Candidates, names: seq<string>)
    requires (forall n | n in names :: n in m && Eligible(m[n])) && SortedBy(names, StrLeq) && Distinct(names)
    ensures var costs := CostsOf(m, names);
      && (forall name, cost :: (name, cost) in costs <==> name in names && m[name].cost == Some(cost))
      && |costs| == |names| && forall i | 0 <= i < |costs| :: costs[i].0 == names[i]
  {
    hide StrLeq;
    if names != [] {
      assert names == [names[0]] + names[1..];
      CostsAre(m, names[1..]);
      var rest := CostsOf(m, names[1..]);
      assert CostsOf(m, names) == [(names[0], m[names[0]].cost.value)] + rest;
    }
  }

  lemma CostIff(strategies: seq<(string, Option<Candidate>)>, lower: string -> string, name: string, cost: real)
    ensures var m := EligibleRecords(strategies, lower);
      (name in m && m[name].cost == Some(cost)) <==> CostUnder(strategies, lower, name, cost)
  {
    EligibleRecordsAre(strategies, lower, name);
  }

  lemma EligibleCostsAre(strategies: seq<(string, Option<Candidate>)>, lower: string -> string)
    ensures ListsCosts(EligibleCosts(EligibleRecords(strategies, lower)), strategies, lower)
  {
    hide StrLeq, EligibleRecords, CostUnder, CostsOf;
    var m := EligibleRecords(strategies, lower);
    var names := SortedStrings(m.Keys);
    CostsAre(m, names);
    assert forall name :: name in names <==> name in m;
    forall name, cost
      ensures (name in m && m[name].cost == Some(cost)) <==> CostUnder(strategies, lower, name, cost)
    {
      CostIff(strategies, lower, name, cost);
    }
  }

  // ---------- one reason ----------

  predicate Chosen(o: Outcome) {
    o.kind == Selected || o.kind == FeasibleNotSelected
  }

  /** No reason is given: the code says so and nothing else is filled in. */
  predicate GivesNone(r: Reason) {
    && r.code == "SELECTION_REASON_UNAVAILABLE" && !r.full
    && r.eligibleCosts == [] && r.selectedCost.None? && r.candidateCost.None? && r.delta.None?
  }

  /** The first reason of the outcome with all costs that bear on it. */
  ghost predicate GivesFull(r: Reason, o: Outcome, strategies: seq<(string, Option<Candidate>)>, lower: string -> string,
      winner: string) {
    && o.reasons != [] && r.code == o.reasons[0] && r.full && ListsCosts(r.eligibleCosts, strategies, lower)
    && (o.kind == Selected ==> r.selectedCost == o.cost && r.candidateCost.None? && r.delta.None?)
    && (o.kind == FeasibleNotSelected ==>
          && r.candidateCost == o.cost
          && (forall cost :: r.selectedCost == Some(cost) <==> CostUnder(strategies, lower, winner, cost))
          && (r.delta.Some? <==> r.code == "HIGHER_PURCHASE_COST_THAN_SELECTED" && r.selectedCost.Some? && o.cost.Some?)
          && (r.delta.Some? ==> r.delta.value == o.cost.value - r.selectedCost.value))
  }

  /** A reason for an outcome: none without a proof or when the outcome has none, else in full. */
  ghost predicate Explains(r: Reason, o: Outcome, strategies: seq<(string, Option<Candidate>)>, lower: string -> string,
      winner: string, proof: bool) {
    && r.strategy == o.strategy
    && if !proof || o.reasons == [] || o.reasons[0] == "SELECTION_REASON_UNAVAILABLE" then GivesNone(r)
       else GivesFull(r, o, strategies, lower, winner)
  }

  lemma ReasonExplains(o: Outcome, strategies: seq<(string, Option<Candidate>)>, lower: string -> string, winner: string,
      proof: bool)
    ensures var rs := ReasonOf(o, EligibleRecords(strategies, lower), winner, proof);
      if Chosen(o) then |rs| == 1 && Explains(rs[0], o, strategies, lower, winner, proof) else rs == []
  {
    hide EligibleRecords, EligibleCosts, ListsCosts, CostUnder;
    EligibleCostsAre(strategies, lower);
    forall cost
      ensures CostIn(EligibleRecords(strategies, lower), winner) == Some(cost) <==> CostUnder(strategies, lower, winner, cost)
    {
      CostIff(strategies, lower, winner, cost);
    }
  }

  lemma {:induction false} ReasonsExplain(outcomes: seq<Outcome>, strategies: seq<(string, Option<Candidate>)>,
      lower: string -> string, winner: string, proof: bool)
    ensures var rs, chosen := ReasonsOf(outcomes, EligibleRecords(strategies, lower), winner, proof), Filter(outcomes, Chosen);
      |rs| == |chosen| && forall i | 0 <= i < |rs| :: Explains(rs[i], chosen[i], strategies, lower, winner, proof)
  {
    hide EligibleRecords, ReasonOf, Explains, Chosen, ReasonsOf, Filter;
    if outcomes == [] {
      NoReasons(EligibleRecords(strategies, lower), winner, proof);
    } else {
      ReasonExplains(outcomes[0], strategies, lower, winner, proof);
      ReasonsExplain(outcomes[1..], strategies, lower, winner, proof);
      ReasonsStep(outcomes, EligibleRecords(strategies, lower), winner, proof);
    }
  }

  lemma NoReasons(eligible: Candidates, winner: string, proof: bool)
    requires forall k | k in eligible :: Eligible(eligible[k])
    ensures ReasonsOf([], eligible, winner, proof) == [] && Filter([], Chosen) == []
  {}

  lemma ReasonsStep(outcomes: seq<Outcome>, eligible: Candidates, winner: string, proof: bool)
    requires outcomes != [] && forall k | k in eligible :: Eligible(eligible[k])
    ensures ReasonsOf(outcomes, eligible, winner, proof)
      == ReasonOf(outcomes[0], eligible, winner, proof) + ReasonsOf(outcomes[1..], eligible, winner, proof)
    ensures Filter(outcomes, Chosen) == (if Chosen(outcomes[0]) then [outcomes[0]] else []) + Filter(outcomes[1..], Chosen)
  {
    hide ReasonOf, Chosen;
  }

  /** Exactly the selected and feasible strategies get a reason, in order, each the one its outcome and the costs call for. */
  lemma SelectionReasonsAre(package: Package, lower: string -> string)
    requires Outcomes(package, lower).Ok?
    ensures var outcomes := Outcomes(package, lower).value;
      var rs := ReasonsOf(outcomes, EligibleRecords(package.strategies, lower), SelectedName(package, lower), AllVerified(outcomes));
      var chosen := Filter(outcomes, Chosen);
      && |rs| == |chosen|
      && forall i | 0 <= i < |rs| ::
           Explains(rs[i], chosen[i], package.strategies, lower, SelectedName(package, lower), PackageVerified(package, lower))
  {
    hide Outcomes, EligibleRecords, ReasonsOf, PackageVerified, Explains, Chosen, Filter, SelectedName;
    var outcomes := Outcomes(package, lower).value;
    OutcomesVerified(package, lower);
    ReasonsExplain(outcomes, package.strategies, lower, SelectedName(package, lower), AllVerified(outcomes));
    FilterMember(outcomes, Chosen);
    var chosen := Filter(outcomes, Chosen);
    assert forall i | 0 <= i < |chosen| :: chosen[i] in chosen;
  }

  // ---------- lower-cased names ----------

  lemma {:induction false} LoweredIs(names: seq<string>, lower: string -> string)
    ensures |Lowered(names, lower)| == |names| && forall i | 0 <= i < |names| :: Lowered(names, lower)[i] == lower(names[i])
  {
    if names != [] { LoweredIs(names[1..], lower); }
  }
}
