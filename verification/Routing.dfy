/** Which ingredients the provider is asked about: from the risk facts of a run to the routing of the synthesis. */
module Routing {
  import opened Text
  import opened Ordering
  import opened Grouping
  import Risk = RiskProjection
  import opened Synthesis

  /** A fact that makes its ingredient critical: the table has its code with its own class and calls it critical. */
  predicate NamesCritical(table: map<string, Risk.Metadata>, f: Risk.Fact, id: string) {
    var m := Risk.MetadataFor(table, Risk.KeyOf(f));
    && Risk.Relevant(f) && Risk.Lookup(f.entities, "ingredient_id") == Some(id)
    && m.classification != Risk.PublicUnknown && m.severity == Risk.Critical
  }

  predicate IsOf(table: map<string, Risk.Metadata>, names: map<string, string>, relevant: seq<Risk.Fact>, d: Risk.Detail,
      k: Risk.Key) {
    d == Risk.DetailOf(table, names, k, Members(relevant, Risk.KeyOf, k))
  }

  lemma {:induction false} InDetailsOfKeys(table: map<string, Risk.Metadata>, names: map<string, string>,
      keys: seq<Risk.Key>, relevant: seq<Risk.Fact>, d: Risk.Detail)
    ensures d in Risk.DetailsOfKeys(table, names, keys, relevant) <==>
      exists k :: k in keys && IsOf(table, names, relevant, d, k)
  {
    hide Risk.DetailOf, Risk.KeyOf, Members;
    if keys != [] {
      assert IsOf(table, names, relevant, Risk.DetailsOfKeys(table, names, keys, relevant)[0], keys[0]);
      InDetailsOfKeys(table, names, keys[1..], relevant, d);
      assert keys == [keys[0]] + keys[1..];
    }
  }

  /** The details are those of the keys of the relevant facts. */
  lemma InRiskDetails(table: map<string, Risk.Metadata>, names: map<string, string>, facts: seq<Risk.Fact>, d: Risk.Detail)
    ensures d in Risk.RiskDetails(table, names, facts) <==>
      exists f :: f in facts && Risk.Relevant(f) && IsOf(table, names, Filter(facts, Risk.Relevant), d, Risk.KeyOf(f))
  {
    hide IsOf, Risk.KeyOf, Members, Filter, Risk.Keys, Risk.RiskDetails, Risk.DetailsOfKeys, Risk.Relevant;
    hide Risk.KeyLeq;
    var keys, relevant := Risk.Keys(facts), Filter(facts, Risk.Relevant);
    Risk.DetailsPartition(table, names, facts);
    Risk.KeysCover(facts);
    InDetailsOfKeys(table, names, keys, relevant, d);
    assert d in Risk.RiskDetails(table, names, facts) <==> d in multiset(Risk.RiskDetails(table, names, facts));
    assert d in Risk.DetailsOfKeys(table, names, keys, relevant)
      <==> d in multiset(Risk.DetailsOfKeys(table, names, keys, relevant));
    if f :| f in facts && Risk.Relevant(f) && IsOf(table, names, relevant, d, Risk.KeyOf(f)) {
      assert Risk.KeyOf(f) in keys;
    }
  }

  lemma InDetailsOf(req: Request, id: string, d: Risk.Detail)
    ensures d in DetailsOf(req, id) <==> id != "" && d in req.details && d.ingredientId == Some(id)
  {
    FilterMember(req.details, HasDetailId);
    MembersSound(Filter(req.details, HasDetailId), DetailId, id);
  }

  /** An ingredient is critical, and so eligible for the provider, exactly when some fact of the run makes it so. */
  lemma EligibleIff(table: map<string, Risk.Metadata>, names: map<string, string>, facts: seq<Risk.Fact>, req: Request, id: string)
    requires req.details == Risk.RiskDetails(table, names, facts)
    ensures Eligible(req, id) <==> id != "" && exists f :: f in facts && NamesCritical(table, f, id)
  {
    hide Risk.RiskDetails, Risk.MetadataFor, Members, Filter, DetailsOf, Risk.Relevant;
    var relevant := Filter(facts, Risk.Relevant);
    if Eligible(req, id) {
      var d :| d in DetailsOf(req, id) && IsCritical(d);
      InDetailsOf(req, id, d);
      InRiskDetails(table, names, facts, d);
      var f :| f in facts && Risk.Relevant(f) && IsOf(table, names, relevant, d, Risk.KeyOf(f));
      assert NamesCritical(table, f, id);
    }
    if f :| id != "" && f in facts && NamesCritical(table, f, id) {
      var d := Risk.DetailOf(table, names, Risk.KeyOf(f), Members(relevant, Risk.KeyOf, Risk.KeyOf(f)));
      assert IsOf(table, names, relevant, d, Risk.KeyOf(f));
      InRiskDetails(table, names, facts, d);
      InDetailsOf(req, id, d);
      assert IsCritical(d);
    }
  }

  // ---------- the facts as they are built ----------

  /** The codes of the facts that `semantic_evidence.py` binds to an ingredient and that are risks or limitations. */
  const INGREDIENT_CODES := {"INGREDIENT_OPERATIONAL_RISK", "STRESS_SHORTAGE_OBSERVED", "STRESS_CAPACITY_VIOLATION"}

  predicate BoundAsBuilt(f: Risk.Fact) {
    Risk.Relevant(f) && "ingredient_id" in f.entities ==> f.code == "" && f.factType in INGREDIENT_CODES
  }

  /** The table calls none of these critical. */
  predicate OnlyWarnings(table: map<string, Risk.Metadata>) {
    forall code | code in INGREDIENT_CODES && code in table :: table[code].severity != Risk.Critical
  }

  /**
   With facts bound to ingredients as they are built, and the table as it stands, no ingredient is ever critical: the
   provider is asked about none, and every entry is the rules' own.
   */
  lemma NeverAsked(env: Environment, table: map<string, Risk.Metadata>, names: map<string, string>,
      facts: seq<Risk.Fact>, req: Request, id: string)
    requires req.details == Risk.RiskDetails(table, names, facts)
    requires OnlyWarnings(table) && forall f | f in facts :: BoundAsBuilt(f)
    ensures !Attempted(req) && EntryFor(env, req, id).origin == RuleBased
  {
    hide Risk.RiskDetails, Eligible, Ids;
    NotEligible(table, names, facts, req, id);
    EligibleMember(req, Ids(req));
    forall other | other in Ids(req)
      ensures !Eligible(req, other)
    {
      NotEligible(table, names, facts, req, other);
    }
    HeadIn(EligibleIds(req, Ids(req)));
  }

  lemma NotEligible(table: map<string, Risk.Metadata>, names: map<string, string>, facts: seq<Risk.Fact>, req: Request, id: string)
    requires req.details == Risk.RiskDetails(table, names, facts)
    requires OnlyWarnings(table) && forall f | f in facts :: BoundAsBuilt(f)
    ensures !Eligible(req, id)
  {
    hide Risk.RiskDetails, Eligible;
    EligibleIff(table, names, facts, req, id);
    forall f | f in facts
      ensures !NamesCritical(table, f, id)
    {
      assert BoundAsBuilt(f);
    }
  }
}
