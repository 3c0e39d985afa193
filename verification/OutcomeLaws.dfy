/** Candidate outcomes said of the candidate's own findings, feasibility and cost, for verified and unverified packages. */
module OutcomeLaws {
  import opened Text
  import opened Ordering
  import opened StrategyOutcomes

  // ---------- the candidates ----------

  /** The record at `i` is the last dictionary whose name folds to `name`. */
  ghost predicate LastOf(strategies: seq<(string, Option<Candidate>)>, lower: string -> string, name: string, i: nat) {
    && i < |strategies| && strategies[i].1.Some? && lower(strategies[i].0) == name
    && forall j | i < j < |strategies| && strategies[j].1.Some? :: lower(strategies[j].0) != name
  }

  /** The candidates are the dictionary records under their lowered names; of names that fold together the last wins. */
  lemma {:induction false} CandidatesAre(strategies: seq<(string, Option<Candidate>)>, lower: string -> string, name: string)
    ensures var m := CandidatesOf(strategies, lower);
      && (name in m <==> exists i: nat :: LastOf(strategies, lower, name, i))
      && forall i: nat | LastOf(strategies, lower, name, i) :: m[name] == strategies[i].1.value
  {
    if strategies != [] {
      var n := |strategies| - 1;
      CandidatesAre(strategies[..n], lower, name);
      if strategies[n].1.Some? && lower(strategies[n].0) == name {
        assert LastOf(strategies, lower, name, n);
      } else {
        forall i: nat
          ensures LastOf(strategies, lower, name, i) <==> LastOf(strategies[..n], lower, name, i)
        {
          assert forall j | 0 <= j < n :: strategies[..n][j] == strategies[j];
        }
      }
    }
  }

  // ---------- what findings say ----------

  /** The candidate has an error finding with this code. */
  ghost predicate ErrorCode(c: Candidate, code: string) {
    code != "" && exists f :: f in c.findings && f.isError && f.code == code
  }

  /** The codes of technical failures. */
  predicate TechnicalName(code: string) {
    || code == "M4_SIMULATION_FAILED" || code == "M4_ACCOUNTING_INVALID"
    || code == "CANDIDATE_MODEL_MISMATCH" || code == "STRESS_ACCOUNTING_INVALID"
    || "SOLVER_STATUS:ERROR" <= code || "SOLVER_STATUS:FAILED" <= code
  }

  /** The sorted codes of a kind, each once. */
  ghost predicate ListsCodes(codes: seq<string>, has: string -> bool) {
    SortedBy(codes, StrLeq) && Distinct(codes) && forall code :: code in codes <==> has(code)
  }

  lemma HardIs(c: Candidate)
    ensures ListsCodes(Hard(c), (code: string) => ErrorCode(c, code))
  {}

  lemma TechnicalIff(code: string)
    ensures IsTechnical(code) <==> TechnicalName(code)
  {
    assert |code| >= 19 && code[0..19] == "SOLVER_STATUS:ERROR" ==> "SOLVER_STATUS:ERROR" <= code;
    assert |code| >= 20 && code[0..20] == "SOLVER_STATUS:FAILED" ==> "SOLVER_STATUS:FAILED" <= code;
  }

  lemma {:induction false} FilterKeepsOrder(s: seq<string>, keep: string -> bool)
    requires SortedBy(s, StrLeq) && Distinct(s)
    ensures SortedBy(Filter(s, keep), StrLeq) && Distinct(Filter(s, keep))
  {
    hide StrLeq;
    FilterMember(s, keep);
    if s != [] {
      FilterMember(s[1..], keep);
      FilterKeepsOrder(s[1..], keep);
      var rest := Filter(s[1..], keep);
      assert forall x | x in s[1..] :: StrLeq(s[0], x) && s[0] != x;
      assert forall j | 0 <= j < |rest| :: rest[j] in s[1..];
    }
  }

  lemma TechnicalIs(c: Candidate)
    ensures ListsCodes(Technical(c), (code: string) => ErrorCode(c, code) && TechnicalName(code))
  {
    hide IsTechnical, TechnicalName, ErrorCode, Hard;
    HardIs(c);
    var keep := (code: string) => IsTechnical(code);
    FilterKeepsOrder(Hard(c), keep);
    FilterMember(Hard(c), keep);
    forall code
      ensures IsTechnical(code) <==> TechnicalName(code)
    {
      TechnicalIff(code);
    }
  }

  ghost predicate Failed(c: Candidate) {
    exists code :: ErrorCode(c, code) && TechnicalName(code)
  }

  ghost predicate Faulty(c: Candidate) {
    exists code :: ErrorCode(c, code)
  }

  /** The codes an outcome lists are those of its candidate's error findings and warnings. */
  ghost predicate Transcribes(o: Outcome, name: string, c: Candidate, verified: bool) {
    && o.strategy == name && o.feasible == c.feasible && o.cost == c.cost && o.verified == verified
    && ListsCodes(o.hard, (code: string) => ErrorCode(c, code))
    && ListsCodes(o.technical, (code: string) => ErrorCode(c, code) && TechnicalName(code))
    && ListsCodes(o.warnings, (w: string) => w in c.warnings)
  }

  /** The kind of an outcome: exactly one case holds of every candidate. */
  ghost predicate RightKind(o: Outcome, name: string, c: Candidate, selected: string) {
    && (o.kind == TechnicalFailure <==> Failed(c))
    && (o.kind == Rejected <==> !Failed(c) && !c.feasible && Faulty(c))
    && (o.kind == NotEvaluated <==> !c.feasible && !Faulty(c))
    && (o.kind == Selected <==> !Failed(c) && c.feasible && name == selected)
    && (o.kind == FeasibleNotSelected <==> !Failed(c) && c.feasible && name != selected)
  }

  /** What does not depend on the selection proof gives the codes themselves; without a proof a feasible candidate has none. */
  ghost predicate RightReasons(o: Outcome, c: Candidate, verified: bool) {
    && (o.kind == TechnicalFailure ==> ListsCodes(o.reasons, (code: string) => ErrorCode(c, code) && TechnicalName(code)))
    && (o.kind == Rejected ==> ListsCodes(o.reasons, (code: string) => ErrorCode(c, code)))
    && (o.kind == NotEvaluated ==> o.reasons == ["EVALUATION_OUTCOME_UNAVAILABLE"])
    && (c.feasible && !verified && o.kind != TechnicalFailure ==> o.reasons == ["SELECTION_REASON_UNAVAILABLE"])
  }

  lemma FindingsDecide(c: Candidate)
    ensures Technical(c) != [] <==> Failed(c)
    ensures Hard(c) != [] <==> Faulty(c)
    ensures Failed(c) ==> Faulty(c)
  {
    hide Hard, Technical, ErrorCode, TechnicalName;
    HardIs(c);
    TechnicalIs(c);
    HeadIn(Hard(c));
    HeadIn(Technical(c));
    if Technical(c) != [] { assert ErrorCode(c, Technical(c)[0]) && TechnicalName(Technical(c)[0]); }
    if Hard(c) != [] { assert ErrorCode(c, Hard(c)[0]); }
    if Failed(c) {
      var code :| ErrorCode(c, code) && TechnicalName(code);
      assert code in Technical(c);
    }
    if Faulty(c) {
      var code :| ErrorCode(c, code);
      assert code in Hard(c);
    }
  }

  /** Every outcome is the one its candidate's findings and feasibility call for. */
  lemma OutcomeIs(candidates: Candidates, name: string, selected: string, verified: bool)
    requires name in candidates && (verified ==> selected in EligibleNames(candidates))
    requires OutcomeOf(candidates, name, selected, verified).Ok?
    ensures var o, c := OutcomeOf(candidates, name, selected, verified).value, candidates[name];
      Transcribes(o, name, c, verified) && RightKind(o, name, c, selected) && RightReasons(o, c, verified)
  {
    hide Hard, Technical, ErrorCode, TechnicalName, ListsCodes, SelectedReason, AlternativeReason, EligibleNames, Failed, Faulty;
    var c := candidates[name];
    HardIs(c);
    TechnicalIs(c);
    FindingsDecide(c);
    WarningsAre(c);
  }

  lemma WarningsAre(c: Candidate)
    ensures ListsCodes(SortedStrings(set w | w in c.warnings), (w: string) => w in c.warnings)
  {}

  /** One outcome for every candidate name, in name order, whether or not the selection proof verifies. */
  lemma ProjectionIs(package: Package, lower: string -> string)
    requires Outcomes(package, lower).Ok?
    ensures var candidates, outcomes := CandidatesOf(package.strategies, lower), Outcomes(package, lower).value;
      && (forall i, j | 0 <= i < j < |outcomes| ::
            StrLeq(outcomes[i].strategy, outcomes[j].strategy) && outcomes[i].strategy != outcomes[j].strategy)
      && (forall name :: name in candidates <==> exists o :: o in outcomes && o.strategy == name)
      && forall o | o in outcomes :: o.strategy in candidates &&
           var c, verified := candidates[o.strategy], PackageVerified(package, lower);
           && Transcribes(o, o.strategy, c, verified) && RightKind(o, o.strategy, c, SelectedName(package, lower))
           && RightReasons(o, c, verified)
  {
    hide CandidatesOf, OutcomeOf, PackageVerified, Outcomes, Transcribes, RightKind, RightReasons, StrLeq, SelectedName;
    var candidates, outcomes := CandidatesOf(package.strategies, lower), Outcomes(package, lower).value;
    var names := SortedStrings(candidates.Keys);
    OutcomesAreAll(package, lower);
    VerifiedEligible(package, lower);
    forall i | 0 <= i < |outcomes|
      ensures var o, verified := outcomes[i], PackageVerified(package, lower);
        o.strategy == names[i] && o.strategy in candidates && Transcribes(o, o.strategy, candidates[o.strategy], verified)
        && RightKind(o, o.strategy, candidates[o.strategy], SelectedName(package, lower))
        && RightReasons(o, candidates[o.strategy], verified)
    {
      assert names[i] in names;
      OutcomeIs(candidates, names[i], SelectedName(package, lower), PackageVerified(package, lower));
    }
    forall name | name in candidates
      ensures exists o :: o in outcomes && o.strategy == name
    {
      assert name in names;
      var i :| 0 <= i < |names| && names[i] == name;
      assert outcomes[i] in outcomes;
    }
  }

  /** An infeasible candidate over its budget is rejected for that, with or without a selection proof. */
  lemma OverBudgetRejected(name: string, cost: Option<real>, selected: string)
    ensures var c := Candidate(false, cost, [Finding("BUDGET_EXCEEDED", true)], []);
      var o := OutcomeOf(map[name := c], name, selected, false);
      o.Ok? && o.value.kind == Rejected && o.value.reasons == ["BUDGET_EXCEEDED"]
  {
    hide Hard, Technical;
    var c := Candidate(false, cost, [Finding("BUDGET_EXCEEDED", true)], []);
    var f := c.findings[0];
    assert f in c.findings && forall g | g in c.findings :: g == f;
    assert |"BUDGET_EXCEEDED"| == 15;
    assert ErrorCode(c, "BUDGET_EXCEEDED") && !TechnicalName("BUDGET_EXCEEDED");
    assert forall code :: ErrorCode(c, code) <==> code == "BUDGET_EXCEEDED";
    OutcomeIs(map[name := c], name, selected, false);
    OneCode(OutcomeOf(map[name := c], name, selected, false).value.reasons, "BUDGET_EXCEEDED");
  }

  lemma OneCode(codes: seq<string>, code: string)
    requires SortedBy(codes, StrLeq) && Distinct(codes) && forall k :: k in codes <==> k == code
    ensures codes == [code]
  {
    StrOrder();
    EnumerationUnique(codes, [code], {code}, StrLeq);
  }
}
