/**
 Ingredient texts with per-item fallback: app/decision_intelligence/ingredient_synthesis.py, lines 72 to 145,
 195 to 207, 298 to 355, 383 to 439 and 452 to 477.

 What the provider answers for an ingredient is an input, as is the fixed wording of the rules. An answer that
 is accepted has passed the guard of module `Guard` against the evidence of its communication plan.
 */
module Synthesis {
  import opened Text
  import opened Records
  import opened Ordering
  import opened Grouping
  import opened Narrative
  import Guard
  import Risk = RiskProjection

  datatype Importance = Normal | Watch | Critical

  datatype Origin = RuleBased | Llm | Fallback

  datatype Provenance = SelectedPlan | ConservativeDesign | Stress | LimitedEvidence

  datatype Support = Support(role: string, evidenceId: string)

  datatype Plan = Plan(
    role: string, primary: seq<string>, provenance: Provenance, supporting: seq<Support>, limitation: Option<string>,
    authorized: seq<string>)

  datatype Wording = Wording(name: string, unit: Option<string>, headline: string, summary: string)

  datatype Entry = Entry(
    ingredientId: string, name: string, unit: Option<string>, importance: Importance, origin: Origin,
    headline: string, summary: string, evidenceIds: seq<string>)

  datatype Response = Response(headline: string, summary: string, claims: seq<Guard.LegacyClaim>, usedIds: seq<string>)

  /** What one provider call comes to: an exception, a reply that is not of the schema, or a reply that is. */
  datatype Reply = Raised | Malformed | Item(response: Response)

  datatype Request = Request(
    demandIds: seq<string>, orderIds: seq<string>, records: seq<Record>, details: seq<Risk.Detail>,
    evidence: seq<string>, rows: seq<Named>, deterministic: bool, available: bool)

  datatype Environment = Environment(
    unicode: Unicode, policy: Policy, wording: (string, seq<Record>, Importance, Option<Plan>) -> Wording,
    ask: string -> Reply)

  // ---------- importance ----------

  predicate Meaningful(d: Risk.Detail) {
    d.classification != Risk.PublicUnknown
  }

  predicate IsCritical(d: Risk.Detail) {
    Meaningful(d) && d.severity == Risk.Critical
  }

  /** _importance */
  function ImportanceOf(details: seq<Risk.Detail>): Importance {
    if exists d | d in details :: IsCritical(d) then Critical
    else if exists d | d in details :: Meaningful(d) && d.severity == Risk.Warning then Watch
    else Normal
  }

  // ---------- records ----------

  function RecordId(r: Record): string {
    Show(Get(r, "evidence_id"))
  }

  function IngredientOf(r: Record): string {
    Show(Get(r, "ingredient_id"))
  }

  predicate HasIngredient(r: Record) {
    Truthy(Get(r, "ingredient_id"))
  }

  function DetailId(d: Risk.Detail): string {
    match d.ingredientId case None => "" case Some(id) => id
  }

  predicate HasDetailId(d: Risk.Detail) {
    DetailId(d) != ""
  }

  /** by_type[type], first record outside the ids taken */
  function FirstOutside(records: seq<Record>, t: string, taken: seq<string>): Option<Record> {
    if records == [] then None
    else if Type(records[0]) == t && RecordId(records[0]) !in taken then Some(records[0])
    else FirstOutside(records[1..], t, taken)
  }

  function FirstLimitation(records: seq<Record>): Option<Record> {
    if records == [] then None
    else if IsText(records[0], "classification", "LIMITATION") then Some(records[0])
    else FirstLimitation(records[1..])
  }

  lemma {:induction false} FirstOutsideSound(records: seq<Record>, t: string, taken: seq<string>)
    ensures var r := FirstOutside(records, t, taken);
      && (r.Some? ==> r.value in records && Type(r.value) == t && RecordId(r.value) !in taken)
      && (r.None? ==> forall x | x in records :: Type(x) != t || RecordId(x) in taken)
  {
    if records != [] {
      FirstOutsideSound(records[1..], t, taken);
      assert records == [records[0]] + records[1..];
    }
  }

  lemma {:induction false} FirstLimitationSound(records: seq<Record>)
    ensures FirstLimitation(records).Some? ==> FirstLimitation(records).value in records
  {
    if records != [] { FirstLimitationSound(records[1..]); }
  }

  // ---------- the communication plan ----------

  /** Lists of texts by their first difference. */
  predicate ListLeq(a: seq<string>, b: seq<string>) {
    a == [] || (b != [] && if a[0] == b[0] then ListLeq(a[1..], b[1..]) else StrLeq(a[0], b[0]))
  }

  lemma {:induction false} ListTotal(a: seq<string>, b: seq<string>)
    ensures ListLeq(a, b) || ListLeq(b, a)
  {
    hide StrLeq;
    if a != [] && b != [] {
      StrTotal(a[0], b[0]);
      ListTotal(a[1..], b[1..]);
    }
  }

  lemma {:induction false} ListTransitive(a: seq<string>, b: seq<string>, c: seq<string>)
    requires ListLeq(a, b) && ListLeq(b, c)
    ensures ListLeq(a, c)
  {
    hide StrLeq;
    if a != [] && b != [] && c != [] {
      StrOrder();
      if a[0] == b[0] == c[0] { ListTransitive(a[1..], b[1..], c[1..]); }
    }
  }

  /** The order of ranked details: category, code, ingredient, evidence. */
  predicate PlanLeq(a: Risk.Detail, b: Risk.Detail) {
    if a.category != b.category then StrLeq(a.category, b.category)
    else if a.code != b.code then StrLeq(a.code, b.code)
    else if DetailId(a) != DetailId(b) then StrLeq(DetailId(a), DetailId(b))
    else ListLeq(a.evidenceIds, b.evidenceIds)
  }

  lemma PlanOrder()
    ensures TotalPreorder(PlanLeq)
  {
    hide StrLeq, ListLeq;
    StrOrder();
    forall a: Risk.Detail, b: Risk.Detail
      ensures PlanLeq(a, b) || PlanLeq(b, a)
    {
      ListTotal(a.evidenceIds, b.evidenceIds);
    }
    forall a: Risk.Detail, b: Risk.Detail, c: Risk.Detail | PlanLeq(a, b) && PlanLeq(b, c)
      ensures PlanLeq(a, c)
    {
      PlanTransitive(a, b, c);
    }
  }

  lemma PlanTransitive(a: Risk.Detail, b: Risk.Detail, c: Risk.Detail)
    requires PlanLeq(a, b) && PlanLeq(b, c)
    ensures PlanLeq(a, c)
  {
    hide StrLeq, ListLeq;
    StrOrder();
    if ListLeq(a.evidenceIds, b.evidenceIds) && ListLeq(b.evidenceIds, c.evidenceIds) {
      ListTransitive(a.evidenceIds, b.evidenceIds, c.evidenceIds);
    }
  }

  function PrimaryRecord(ranked: seq<Risk.Detail>, records: seq<Record>): Option<Record> {
    if ranked == [] then None
    else match FirstOutside(records, ranked[0].code, [])
      case Some(r) => Some(r)
      case None => PrimaryRecord(ranked[1..], records)
  }

  /** _record_presentation_provenance */
  function ProvenanceOf(r: Record): Provenance {
    if StartsWith(Type(r), "STRESS_") then Stress
    else if IsText(r, "basis_kind", "conservative_design_scenario") then ConservativeDesign
    else SelectedPlan
  }

  const SUPPORTS: seq<(string, string)> := [
    ("procurement_quantity", "PROCUREMENT_QUANTITY"), ("procurement_alignment", "DEMAND_ORDER_ALIGNMENT"),
    ("shortage_context", "DEMAND_HORIZON_SUMMARY")]

  function SupportIds(supporting: seq<Support>): seq<string> {
    seq(|supporting|, i requires 0 <= i < |supporting| => supporting[i].evidenceId)
  }

  function AddSupport(records: seq<Record>, primary: seq<string>, supporting: seq<Support>,
      slot: (string, string)): seq<Support> {
    match FirstOutside(records, slot.1, primary)
    case Some(r) =>
      if RecordId(r) !in SupportIds(supporting) then supporting + [Support(slot.0, RecordId(r))] else supporting
    case None => supporting
  }

  /** The supporting facts of the slots still to fill; two at most. */
  function Supporting(records: seq<Record>, primary: seq<string>, slots: seq<(string, string)>,
      found: seq<Support>): seq<Support>
    decreases |slots|
  {
    if slots == [] then found
    else
      var more := AddSupport(records, primary, found, slots[0]);
      if |more| == 2 then more else Supporting(records, primary, slots[1..], more)
  }

  function OptionalId(r: Option<Record>): Option<string> {
    match r case None => None case Some(x) => Some(RecordId(x))
  }

  function IdList(id: Option<string>): seq<string> {
    match id case None => [] case Some(x) => [x]
  }

  function PlanFor(records: seq<Record>, details: seq<Risk.Detail>): Plan {
    match PrimaryRecord(Sort(Filter(details, IsCritical), PlanLeq), records)
    case None => Plan("limited_evidence", [], LimitedEvidence, [], None, [])
    case Some(r) =>
      var primary := [RecordId(r)];
      var supporting := Supporting(records, primary, SUPPORTS, []);
      var limitation := OptionalId(FirstLimitation(records));
      Plan(if Truthy(Get(r, "first_stockout_date")) then "stockout_timing" else "shortage_risk", primary, ProvenanceOf(r),
           supporting, limitation, Dedup(primary + SupportIds(supporting) + IdList(limitation)))
  }

  /** _communication_plan, on the critical details among `details` */
  method CommunicationPlan(records: seq<Record>, details: seq<Risk.Detail>) returns (plan: Plan)
    ensures plan == PlanFor(records, details)
  {
    hide FirstOutside, FirstLimitation, Sort, Filter, Dedup, PlanLeq, AddSupport;
    var ranked := Sort(Filter(details, IsCritical), PlanLeq);
    var primaryRecord := PrimaryRecord(ranked, records);
    if primaryRecord.None? {
      return Plan("limited_evidence", [], LimitedEvidence, [], None, []);
    }
    var r := primaryRecord.value;
    var primary := [RecordId(r)];
    var supporting: seq<Support> := [];
    for i := 0 to |SUPPORTS|
      invariant Supporting(records, primary, SUPPORTS[i..], supporting) == Supporting(records, primary, SUPPORTS, [])
    {
      ghost var before := supporting;
      SlotStep(records, primary, i, before);
      supporting := AddSupport(records, primary, supporting, SUPPORTS[i]);
      if |supporting| == 2 { break; }
    }
    assert |supporting| == 2 || SUPPORTS[|SUPPORTS|..] == [];
    var limitation := OptionalId(FirstLimitation(records));
    plan := Plan(
      if Truthy(Get(r, "first_stockout_date")) then "stockout_timing" else "shortage_risk", primary, ProvenanceOf(r),
      supporting, limitation, Dedup(primary + SupportIds(supporting) + IdList(limitation)));
  }

  lemma SlotStep(records: seq<Record>, primary: seq<string>, i: nat, found: seq<Support>)
    requires i < |SUPPORTS|
    ensures var more := AddSupport(records, primary, found, SUPPORTS[i]);
      Supporting(records, primary, SUPPORTS[i..], found)
      == if |more| == 2 then more else Supporting(records, primary, SUPPORTS[i + 1..], more)
  {
    hide AddSupport;
    assert SUPPORTS[i..][0] == SUPPORTS[i] && SUPPORTS[i..][1..] == SUPPORTS[i + 1..];
  }

  // ---------- what a plan authorises ----------

  lemma {:induction false} PrimaryRecordSound(ranked: seq<Risk.Detail>, records: seq<Record>)
    ensures var r := PrimaryRecord(ranked, records);
      && (r.Some? ==> r.value in records && exists d :: d in ranked && d.code == Type(r.value))
      && (r.None? ==> forall d | d in ranked :: forall x | x in records :: Type(x) != d.code)
  {
    if ranked != [] {
      FirstOutsideSound(records, ranked[0].code, []);
      PrimaryRecordSound(ranked[1..], records);
      assert ranked == [ranked[0]] + ranked[1..];
    }
  }

  ghost predicate Backs(r: Record, d: Risk.Detail, records: seq<Record>) {
    r in records && Type(r) == d.code
  }

  lemma {:induction false} PrimaryRecordFirst(ranked: seq<Risk.Detail>, records: seq<Record>)
    requires PrimaryRecord(ranked, records).Some?
    ensures exists i | 0 <= i < |ranked| ::
      && Backs(PrimaryRecord(ranked, records).value, ranked[i], records)
      && forall j | 0 <= j < i :: forall r :: !Backs(r, ranked[j], records)
  {
    var found := PrimaryRecord(ranked, records).value;
    FirstOutsideSound(records, ranked[0].code, []);
    if FirstOutside(records, ranked[0].code, []).Some? {
      assert Backs(found, ranked[0], records);
    } else {
      PrimaryRecordFirst(ranked[1..], records);
      var i :| 0 <= i < |ranked[1..]| && Backs(found, ranked[1..][i], records)
        && forall j | 0 <= j < i :: forall r :: !Backs(r, ranked[1..][j], records);
      forall j | 0 <= j < i + 1
        ensures forall r :: !Backs(r, ranked[j], records)
      {
        if j > 0 { assert ranked[j] == ranked[1..][j - 1]; }
      }
      assert Backs(found, ranked[i + 1], records);
    }
  }

  /**
   The primary fact of a plan backs a critical detail that comes first, by category, code, ingredient and evidence,
   among the critical details with any record of their own code; the framing is that record's own.
   */
  lemma PrimaryIsFirstBacked(records: seq<Record>, details: seq<Risk.Detail>)
    requires PlanFor(records, details).primary != []
    ensures var plan := PlanFor(records, details);
      exists d, r ::
        && d in details && IsCritical(d) && Backs(r, d, records)
        && plan.primary == [RecordId(r)] && plan.provenance == ProvenanceOf(r)
        && forall d2, r2 | d2 in details && IsCritical(d2) && Backs(r2, d2, records) :: PlanLeq(d, d2)
  {
    hide FirstOutside, FirstLimitation, Sort, Filter, Dedup, PlanLeq, Supporting, RecordId, IsCritical, ProvenanceOf;
    hide PrimaryRecord, Backs;
    var critical := Filter(details, IsCritical);
    var ranked := Sort(critical, PlanLeq);
    PlanOrder();
    SortSorted(critical, PlanLeq);
    FilterMember(details, IsCritical);
    PrimaryRecordFirst(ranked, records);
    var r := PrimaryRecord(ranked, records).value;
    var i :| 0 <= i < |ranked| && Backs(r, ranked[i], records)
      && forall j | 0 <= j < i :: forall x :: !Backs(x, ranked[j], records);
    var d := ranked[i];
    assert d in ranked;
    forall d2, r2 | d2 in details && IsCritical(d2) && Backs(r2, d2, records)
      ensures PlanLeq(d, d2)
    {
      assert d2 in ranked;
      var j :| 0 <= j < |ranked| && ranked[j] == d2;
      assert j >= i;
      assert j == i ==> PlanLeq(d, d2);
    }
  }

  ghost predicate OwnIds(ids: seq<string>, records: seq<Record>) {
    forall id | id in ids :: exists r :: r in records && RecordId(r) == id
  }

  lemma {:induction false} SupportingOwn(records: seq<Record>, primary: seq<string>, slots: seq<(string, string)>,
      found: seq<Support>)
    requires OwnIds(SupportIds(found), records) && |found| < 2
    ensures OwnIds(SupportIds(Supporting(records, primary, slots, found)), records)
    ensures |Supporting(records, primary, slots, found)| <= 2
    decreases |slots|
  {
    hide FirstOutside, RecordId;
    if slots != [] {
      var slot := slots[0];
      var more := AddSupport(records, primary, found, slot);
      FirstOutsideSound(records, slot.1, primary);
      assert OwnIds(SupportIds(more), records) by {
        forall id | id in SupportIds(more)
          ensures exists r :: r in records && RecordId(r) == id
        {
          var k :| 0 <= k < |more| && SupportIds(more)[k] == id;
          if k < |found| {
            assert SupportIds(found)[k] == id && id in SupportIds(found);
          } else {
            assert id == RecordId(FirstOutside(records, slot.1, primary).value);
          }
        }
      }
      if |more| < 2 { SupportingOwn(records, primary, slots[1..], more); }
    }
  }

  /**
   A plan authorises only evidence of the ingredient's own records, at most four items, each once. It authorises
   nothing at all exactly when no record has the type of a critical detail's code.
   */
  lemma PlanAuthorisesOwn(records: seq<Record>, details: seq<Risk.Detail>)
    ensures var plan := PlanFor(records, details);
      && OwnIds(plan.authorized, records) && Distinct(plan.authorized) && |plan.authorized| <= 4
      && (plan.authorized == [] <==>
            !exists d, r | d in details && r in records :: IsCritical(d) && Type(r) == d.code)
  {
    hide FirstOutside, FirstLimitation, Sort, Filter, Dedup, PlanLeq, Supporting, RecordId, IsCritical;
    var critical := Filter(details, IsCritical);
    var ranked := Sort(critical, PlanLeq);
    PlanOrder();
    SortSorted(critical, PlanLeq);
    FilterMember(details, IsCritical);
    PrimaryRecordSound(ranked, records);
    assert forall d :: d in ranked <==> d in details && IsCritical(d);
    var primaryRecord := PrimaryRecord(ranked, records);
    if primaryRecord.Some? {
      var primary := [RecordId(primaryRecord.value)];
      SupportingOwn(records, primary, SUPPORTS, []);
      FirstLimitationSound(records);
      AuthorizedOwn(records, primary, SupportIds(Supporting(records, primary, SUPPORTS, [])), IdList(OptionalId(FirstLimitation(records))));
    } else {
      NothingDistinct();
    }
  }

  lemma NothingDistinct()
    ensures Distinct<string>([])
  {}

  lemma AuthorizedOwn(records: seq<Record>, a: seq<string>, b: seq<string>, c: seq<string>)
    requires OwnIds(a, records) && OwnIds(b, records) && OwnIds(c, records) && a != [] && |a| + |b| + |c| <= 4
    ensures var all := Dedup(a + b + c);
      OwnIds(all, records) && Distinct(all) && 0 < |all| <= 4
  {
    hide Dedup, RecordId;
    DedupMembers(a + b + c);
    DedupShorter(a + b + c);
    assert a[0] in a + b + c;
    HeadIn(Dedup(a + b + c));
    assert forall id | id in a + b + c :: id in a || id in b || id in c;
  }

  lemma {:induction false} DedupShorter(s: seq<string>)
    ensures |Dedup(s)| <= |s|
  {
    if s != [] { DedupShorter(s[..|s| - 1]); }
  }

  // ---------- checks on an answer ----------

  predicate EndMark(c: char) {
    c == '.' || c == '!' || c == '?'
  }

  /** The parts of re.split(r"[.!?]+") that are not blank: `inked` says that the current one already is not. */
  function SentenceCount(u: Unicode, s: string, inked: bool): nat {
    if s == "" then (if inked then 1 else 0)
    else if EndMark(s[0]) then (if inked then 1 else 0) + SentenceCount(u, s[1..], false)
    else SentenceCount(u, s[1..], inked || !u.space(s[0]))
  }

  /** _validate_presentation raises */
  predicate Overlong(u: Unicode, r: Response) {
    || |Strip(u, r.headline)| > 120 || |Strip(u, r.summary)| > 600 || SentenceCount(u, Strip(u, r.summary), false) > 3
    || Contains(Lower(u, r.headline + " " + Strip(u, r.summary)), "tỷ lệ lấp kho")
  }

  /** _validate_provenance raises */
  predicate Misframed(u: Unicode, r: Response, provenance: Provenance) {
    var text := Lower(u, r.headline + " " + r.summary);
    match provenance
    case ConservativeDesign =>
      !Contains(text, "kịch bản nhu cầu bảo thủ") || ContainsAny(text, ["kế hoạch hiện tại", "phương án được chọn"])
    case Stress =>
      !Contains(text, "kịch bản kiểm tra sức chịu đựng") || ContainsAny(text, ["kế hoạch hiện tại", "phương án được chọn"])
    case LimitedEvidence =>
      !Contains(text, "dữ liệu") || ContainsAny(text, ["thiếu từ", "kế hoạch hiện tại thiếu"])
    case SelectedPlan => false
  }

  function ClaimIds(claims: seq<Guard.LegacyClaim>): set<string> {
    set c, id | c in claims && c.LegacyClaim? && c.ids.Some? && id in c.ids.value :: id
  }

  predicate CitesWithin(r: Response, allowed: seq<string>) {
    (forall id | id in r.usedIds :: id in allowed) && forall id | id in ClaimIds(r.claims) :: id in allowed
  }

  // ---------- entries ----------

  function RecordsOf(req: Request, id: string): seq<Record> {
    Members(Filter(req.records, HasIngredient), IngredientOf, id)
  }

  function DetailsOf(req: Request, id: string): seq<Risk.Detail> {
    Members(Filter(req.details, HasDetailId), DetailId, id)
  }

  function AllIds(req: Request): set<string> {
    (set id | id in req.demandIds) + (set id | id in req.orderIds)
    + (set r | r in req.records && HasIngredient(r) :: IngredientOf(r))
  }

  function Ids(req: Request): (ids: seq<string>)
    ensures Enumerates(ids, AllIds(req), StrLeq)
  {
    SortedStrings(AllIds(req))
  }

  datatype Prepared = Prepared(entry: Entry, records: seq<Record>, plan: Option<Plan>)

  const RULE_TYPES := {
    "INGREDIENT_OPERATIONAL_RISK", "DEMAND_HORIZON_SUMMARY", "PROCUREMENT_QUANTITY", "DEMAND_ORDER_ALIGNMENT"}

  predicate IsRuleRecord(r: Record) {
    HasType(r, RULE_TYPES)
  }

  function RecordIds(records: seq<Record>): seq<string> {
    seq(|records|, i requires 0 <= i < |records| => RecordId(records[i]))
  }

  /** _rule, around the wording of the rules */
  function RuleEntry(env: Environment, id: string, records: seq<Record>, importance: Importance,
      plan: Option<Plan>): Entry {
    var w := env.wording(id, records, importance, plan);
    Entry(id, w.name, w.unit, importance, RuleBased, w.headline, w.summary,
          match plan case Some(p) => p.authorized case None => Dedup(RecordIds(Filter(records, IsRuleRecord))))
  }

  function PreparedFor(env: Environment, req: Request, id: string): Prepared {
    var records, importance := RecordsOf(req, id), ImportanceOf(DetailsOf(req, id));
    var plan := if importance == Critical then Some(PlanFor(records, DetailsOf(req, id))) else None;
    Prepared(RuleEntry(env, id, records, importance, plan), records, plan)
  }

  predicate IsAuthorized(r: Record, plan: Plan) {
    RecordId(r) in plan.authorized
  }

  function PlanEvidence(p: Prepared): seq<Record> {
    match p.plan case None => [] case Some(plan) => Filter(p.records, r => IsAuthorized(r, plan))
  }

  function SettingFor(env: Environment, req: Request, p: Prepared): Guard.Setting {
    Guard.Setting(env.unicode, env.policy, PlanEvidence(p), req.rows, p.entry.ingredientId, false)
  }

  function DraftOf(r: Response): Guard.Draft {
    Guard.Draft(Some(r.headline + ". " + r.summary), r.claims)
  }

  /** The accepted entry of one provider call, None when any step raises. */
  function Narrated(env: Environment, req: Request, p: Prepared): Option<Entry> {
    match env.ask(p.entry.ingredientId)
    case Raised => None
    case Malformed => None
    case Item(r) =>
      if p.plan.None? || Overlong(env.unicode, r) || Misframed(env.unicode, r, p.plan.value.provenance)
         || !CitesWithin(r, p.plan.value.authorized) then None
      else match Guard.Guarded(SettingFor(env, req, p), DraftOf(r), req.evidence)
        case Refuse(_) => None
        case Ok(a) => Some(p.entry.(origin := Llm, headline := r.headline, summary := r.summary, evidenceIds := a.citations))
  }

  function Called(env: Environment, req: Request, p: Prepared): Entry {
    match Narrated(env, req, p)
    case Some(e) => e
    case None => p.entry.(origin := Fallback)
  }

  predicate Eligible(req: Request, id: string) {
    ImportanceOf(DetailsOf(req, id)) == Critical
  }

  function EligibleIds(req: Request, ids: seq<string>): seq<string> {
    if ids == [] then []
    else (if Eligible(req, ids[0]) then [ids[0]] else []) + EligibleIds(req, ids[1..])
  }

  predicate Attempted(req: Request) {
    !req.deterministic && EligibleIds(req, Ids(req)) != [] && req.available
  }

  function EntryFor(env: Environment, req: Request, id: string): Entry {
    var p := PreparedFor(env, req, id);
    if Attempted(req) && Eligible(req, id) then Called(env, req, p) else p.entry
  }

  /** What synthesize returns. */
  function Entries(env: Environment, req: Request): seq<Entry> {
    var ids := Ids(req);
    seq(|ids|, i requires 0 <= i < |ids| => EntryFor(env, req, ids[i]))
  }

  // ---------- the method ----------

  datatype Diagnostics = Diagnostics(
    attempted: bool, status: string, failureStage: Option<string>, total: nat, eligible: seq<string>, providerCalls: nat,
    counts: Counts, succeeded: Option<nat>, fellBack: Option<nat>, items: seq<(string, bool)>)

  /** How many of the ids are accepted. */
  function Successes(env: Environment, req: Request, ids: seq<string>): nat {
    if ids == [] then 0
    else Successes(env, req, ids[..|ids| - 1])
         + if Narrated(env, req, PreparedFor(env, req, ids[|ids| - 1])).Some? then 1 else 0
  }

  function CountOf(req: Request, ids: seq<string>, importance: Importance): nat {
    if ids == [] then 0
    else CountOf(req, ids[..|ids| - 1], importance)
         + if ImportanceOf(DetailsOf(req, ids[|ids| - 1])) == importance then 1 else 0
  }

  function NotAttempted(deterministic: bool, eligible: seq<string>): Option<string> {
    if deterministic then None else Some(if eligible == [] then "NOT_ATTEMPTED" else "PROVIDER_UNAVAILABLE")
  }

  function NotCalled(eligible: seq<string>): seq<(string, bool)> {
    seq(|eligible|, i requires 0 <= i < |eligible| => (eligible[i], false))
  }

  /** The persisted diagnostics of a run. */
  ghost predicate Reports(d: Diagnostics, env: Environment, req: Request) {
    var ids := Ids(req);
    var eligible := EligibleIds(req, ids);
    && d.total == |ids| && d.eligible == eligible && d.attempted == Attempted(req)
    && d.counts == CountsOf(req, ids)
    && d.providerCalls == (if Attempted(req) then |eligible| else 0)
    && (Attempted(req) ==>
          var n := Successes(env, req, eligible);
          && n <= |eligible| && Itemised(d.items, env, req, eligible)
          && d.succeeded == Some(n) && d.fellBack == Some(|eligible| - n)
          && d.status == (if n == |eligible| then "success" else if n > 0 then "partial_success" else "failed"))
    && (Attempted(req) ==> d.failureStage == None)
    && (!Attempted(req) ==>
          && d.succeeded == None && d.fellBack == None
          && d.status == (if req.deterministic then "success" else "not_attempted")
          && d.failureStage == NotAttempted(req.deterministic, eligible)
          && d.items == (if req.deterministic then [] else NotCalled(eligible)))
  }

  lemma {:induction false} EligibleMember(req: Request, ids: seq<string>)
    ensures forall id :: id in EligibleIds(req, ids) <==> id in ids && Eligible(req, id)
  {
    hide Eligible;
    if ids != [] {
      EligibleMember(req, ids[1..]);
      assert ids == [ids[0]] + ids[1..];
    }
  }

  lemma {:induction false} EligibleAppend(req: Request, a: seq<string>, b: seq<string>)
    ensures EligibleIds(req, a + b) == EligibleIds(req, a) + EligibleIds(req, b)
  {
    hide Eligible;
    if a == [] {
      assert a + b == b;
    } else {
      EligibleAppend(req, a[1..], b);
      var s := a + b;
      assert s[0] == a[0] && s[1..] == a[1..] + b;
    }
  }

  /** One turn of the preparing loop. */
  lemma PrepareStep(req: Request, ids: seq<string>, i: nat)
    requires i < |ids|
    ensures var more := ids[..i + 1];
      && EligibleIds(req, more) == (if Eligible(req, ids[i]) then EligibleIds(req, ids[..i]) + [ids[i]] else EligibleIds(req, ids[..i]))
      && forall importance :: CountOf(req, more, importance)
           == CountOf(req, ids[..i], importance) + if ImportanceOf(DetailsOf(req, ids[i])) == importance then 1 else 0
  {
    hide Eligible, ImportanceOf, DetailsOf;
    var more := ids[..i + 1];
    assert more == ids[..i] + [ids[i]] && more[..|more| - 1] == ids[..i];
    EligibleAppend(req, ids[..i], [ids[i]]);
    assert [ids[i]][1..] == [];
    assert EligibleIds(req, ids[..i]) + [] == EligibleIds(req, ids[..i]);
  }

  lemma SuccessStep(env: Environment, req: Request, ids: seq<string>, i: nat)
    requires i < |ids|
    ensures Successes(env, req, ids[..i + 1])
         == Successes(env, req, ids[..i]) + if Narrated(env, req, PreparedFor(env, req, ids[i])).Some? then 1 else 0
  {
    hide Narrated, PreparedFor;
    var more := ids[..i + 1];
    assert more[..|more| - 1] == ids[..i];
  }

  type Counts = (nat, nat, nat)

  function CountsOf(req: Request, ids: seq<string>): Counts {
    (CountOf(req, ids, Normal), CountOf(req, ids, Watch), CountOf(req, ids, Critical))
  }

  lemma NothingCounted(env: Environment, req: Request)
    ensures CountsOf(req, []) == (0, 0, 0) && EligibleIds(req, []) == [] && Successes(env, req, []) == 0
  {
    hide PreparedFor, Narrated;
  }

  ghost predicate AllPrepared(env: Environment, req: Request, ids: seq<string>, prepared: map<string, Prepared>) {
    forall id | id in ids :: id in prepared && prepared[id] == PreparedFor(env, req, id)
  }

  /** The preparing loop: the deterministic entry of every ingredient, and who is eligible for the provider. */
  method Prepare(env: Environment, req: Request, ids: seq<string>)
    returns (prepared: map<string, Prepared>, eligible: seq<string>, counts: Counts)
    ensures AllPrepared(env, req, ids, prepared)
    ensures eligible == EligibleIds(req, ids) && counts == CountsOf(req, ids)
  {
    hide PlanFor, ImportanceOf, Members, Groups, Filter, EligibleIds, CountOf;
    var byIngredient := GroupBy(Filter(req.records, HasIngredient), IngredientOf);
    var riskByIngredient := GroupBy(Filter(req.details, HasDetailId), DetailId);
    prepared, eligible, counts := map[], [], (0, 0, 0);
    NothingCounted(env, req);
    for i := 0 to |ids|
      invariant AllPrepared(env, req, ids[..i], prepared)
      invariant eligible == EligibleIds(req, ids[..i]) && counts == CountsOf(req, ids[..i])
    {
      var id := ids[i];
      var records := GroupAt(byIngredient, id, Filter(req.records, HasIngredient), IngredientOf);
      var details := GroupAt(riskByIngredient, id, Filter(req.details, HasDetailId), DetailId);
      var importance := ImportanceOf(details);
      PrepareStep(req, ids, i);
      assert ids[..i + 1] == ids[..i] + [id];
      var plan: Option<Plan> := None;
      if importance == Critical {
        var p := CommunicationPlan(records, details);
        plan := Some(p);
        eligible := eligible + [id];
      }
      counts := match importance
        case Normal => (counts.0 + 1, counts.1, counts.2)
        case Watch => (counts.0, counts.1 + 1, counts.2)
        case Critical => (counts.0, counts.1, counts.2 + 1);
      prepared := prepared[id := Prepared(RuleEntry(env, id, records, importance, plan), records, plan)];
    }
    assert ids[..|ids|] == ids;
  }

  class Provider {
    var last: Option<Diagnostics>

    constructor ()
    {
      last := None;
    }

    /** synthesize */
    method Synthesize(env: Environment, req: Request) returns (entries: seq<Entry>)
      modifies this
      ensures entries == Entries(env, req)
      ensures last.Some? && Reports(last.value, env, req)
    {
      hide PreparedFor, Called, Narrated, StrLeq, EligibleIds, CountOf, Successes, Eligible, Ids;
      var ids := Ids(req);
      var prepared, eligible, counts := Prepare(env, req, ids);
      last := Some(Diagnostics(
        false, "not_attempted", Some("NOT_ATTEMPTED"), |ids|, eligible, 0, counts, None, None, []));
      if req.deterministic {
        last := Some(last.value.(status := "success", failureStage := None));
      } else if eligible == [] {
        assert !Attempted(req) && NotCalled(eligible) == [];
      } else if !req.available {
        last := Some(last.value.(
          failureStage := Some("PROVIDER_UNAVAILABLE"),
          items := NotCalled(eligible)));
      } else {
        entries := PerItemOrFallback(env, req, prepared, eligible, ids);
        return;
      }
      assert forall i | 0 <= i < |ids| :: ids[i] in ids;
      entries := seq(|ids|, i requires 0 <= i < |ids| => prepared[ids[i]].entry);
    }

    /** _per_item_or_fallback */
    method PerItemOrFallback(env: Environment, req: Request, prepared: map<string, Prepared>, eligible: seq<string>,
        ids: seq<string>)
      returns (entries: seq<Entry>)
      requires ids == Ids(req) && eligible == EligibleIds(req, ids) && Attempted(req)
      requires AllPrepared(env, req, ids, prepared)
      requires last.Some? && last.value.total == |ids| && last.value.eligible == eligible
      requires last.value.providerCalls == 0 && last.value.items == [] && last.value.counts == CountsOf(req, ids)
      modifies this
      ensures entries == Entries(env, req)
      ensures last.Some? && Reports(last.value, env, req)
    {
      hide PreparedFor, Called, Narrated, StrLeq, EligibleIds, CountsOf, Successes, Eligible, Ids, Attempted;
      hide Filled, Enumerates, EntryFor;
      var d := last.value.(attempted := true, status := "failed", failureStage := None);
      var results := map id | id in ids :: prepared[id].entry;
      var succeeded := 0;
      NothingCounted(env, req);
      EligibleMember(req, ids);
      FilledFirst(results, env, req, ids, prepared);
      for i := 0 to |eligible|
        invariant d.total == |ids| && d.eligible == eligible && d.counts == CountsOf(req, ids)
        invariant d.attempted && d.failureStage == None
        invariant d.providerCalls == i == |d.items| && succeeded == Successes(env, req, eligible[..i]) <= i
        invariant Itemised(d.items, env, req, eligible[..i])
        invariant Filled(results, env, req, ids, eligible[..i])
      {
        var id := eligible[i];
        assert id in eligible;
        var p := prepared[id];
        d := d.(providerCalls := d.providerCalls + 1);
        var accepted := Narrated(env, req, p);
        SuccessStep(env, req, eligible, i);
        assert eligible[..i + 1] == eligible[..i] + [id];
        if accepted.Some? {
          succeeded := succeeded + 1;
        }
        FilledStep(results, env, req, ids, eligible[..i], id);
        results := results[id := Called(env, req, p)];
        d := d.(items := d.items + [(id, accepted.Some?)]);
      }
      assert eligible[..|eligible|] == eligible;
      d := d.(
        succeeded := Some(succeeded), fellBack := Some(|eligible| - succeeded),
        status := if succeeded == |eligible| then "success" else if succeeded > 0 then "partial_success" else "failed");
      last := Some(d);
      FilledIsFinal(results, env, req);
      entries := seq(|ids|, i requires 0 <= i < |ids| => results[ids[i]]);
    }
  }

  ghost predicate Itemised(items: seq<(string, bool)>, env: Environment, req: Request, eligible: seq<string>) {
    |items| == |eligible| && forall i | 0 <= i < |eligible| ::
      items[i] == (eligible[i], Narrated(env, req, PreparedFor(env, req, eligible[i])).Some?)
  }

  /** The results after the provider was asked for the ids in `done`. */
  ghost predicate Filled(results: map<string, Entry>, env: Environment, req: Request, ids: seq<string>,
      done: seq<string>) {
    forall id | id in ids :: id in results && results[id] ==
      if id in done then Called(env, req, PreparedFor(env, req, id)) else PreparedFor(env, req, id).entry
  }

  lemma FilledFirst(results: map<string, Entry>, env: Environment, req: Request, ids: seq<string>,
      prepared: map<string, Prepared>)
    requires AllPrepared(env, req, ids, prepared) && results == map id | id in ids :: prepared[id].entry
    ensures Filled(results, env, req, ids, [])
  {
    hide PreparedFor, Called;
  }

  lemma FilledStep(results: map<string, Entry>, env: Environment, req: Request, ids: seq<string>, done: seq<string>,
      id: string)
    requires Filled(results, env, req, ids, done)
    ensures Filled(results[id := Called(env, req, PreparedFor(env, req, id))], env, req, ids, done + [id])
  {
    hide PreparedFor, Called;
  }

  lemma FilledIsFinal(results: map<string, Entry>, env: Environment, req: Request)
    requires Attempted(req) && Filled(results, env, req, Ids(req), EligibleIds(req, Ids(req)))
    ensures var ids := Ids(req);
      && (forall i | 0 <= i < |ids| :: ids[i] in results)
      && Entries(env, req) == seq(|ids|, i requires 0 <= i < |ids| => results[ids[i]])
  {
    hide PreparedFor, Called, Attempted, Ids, Eligible, EligibleIds;
    var ids := Ids(req);
    EligibleMember(req, ids);
    forall i | 0 <= i < |ids|
      ensures ids[i] in results && results[ids[i]] == EntryFor(env, req, ids[i])
    {
      assert ids[i] in ids;
    }
  }

  // ---------- what is returned ----------

  /** One entry per ingredient, by increasing id, with the importance that the backend's own details give it. */
  lemma OneEntryPerIngredient(env: Environment, req: Request)
    ensures var es, ids := Entries(env, req), Ids(req);
      && |es| == |ids| && Distinct(ids) && SortedBy(ids, StrLeq)
      && (forall i | 0 <= i < |es| ::
            es[i].ingredientId == ids[i] && es[i].importance == ImportanceOf(DetailsOf(req, ids[i])))
      && (forall id :: id in ids <==>
            || id in req.demandIds || id in req.orderIds
            || exists r :: r in req.records && HasIngredient(r) && IngredientOf(r) == id)
  {
    hide StrLeq, EntryFor, ImportanceOf, DetailsOf, HasIngredient, IngredientOf, Ids;
    var ids := Ids(req);
    forall i | 0 <= i < |ids|
      ensures EntryFor(env, req, ids[i]).ingredientId == ids[i]
      ensures EntryFor(env, req, ids[i]).importance == ImportanceOf(DetailsOf(req, ids[i]))
    {
      EntryKeeps(env, req, ids[i]);
    }
    IdsAre(req);
  }

  lemma IdsAre(req: Request)
    ensures forall id :: id in AllIds(req) <==>
      || id in req.demandIds || id in req.orderIds
      || exists r :: r in req.records && HasIngredient(r) && IngredientOf(r) == id
  {
    hide HasIngredient, IngredientOf;
  }

  lemma EntryKeeps(env: Environment, req: Request, id: string)
    ensures var e := EntryFor(env, req, id);
      e.ingredientId == id && e.importance == ImportanceOf(DetailsOf(req, id))
  {
    hide Attempted, ImportanceOf, DetailsOf, RecordsOf, PlanFor, Eligible, Overlong, Misframed, CitesWithin, SettingFor;
  }

  /** The provider's wording is shown only for a critical ingredient, and only when every check accepted it. */
  ghost predicate Vetted(env: Environment, req: Request, e: Entry) {
    var p := PreparedFor(env, req, e.ingredientId);
    && Attempted(req) && e.importance == Critical && p.plan.Some?
    && env.ask(e.ingredientId).Item?
    && var r := env.ask(e.ingredientId).response;
    && e.headline == r.headline && e.summary == r.summary
    && CitesWithin(r, p.plan.value.authorized)
    && !Overlong(env.unicode, r) && !Misframed(env.unicode, r, p.plan.value.provenance)
    && var g := Guard.Guarded(SettingFor(env, req, p), DraftOf(r), req.evidence);
    && g.Ok? && e.evidenceIds == g.value.citations
  }

  lemma LlmOnlyIfVetted(env: Environment, req: Request, id: string)
    ensures EntryFor(env, req, id).origin == Llm ==> Vetted(env, req, EntryFor(env, req, id))
    ensures EntryFor(env, req, id).origin == Llm <==>
      Attempted(req) && Eligible(req, id) && Narrated(env, req, PreparedFor(env, req, id)).Some?
  {
    hide Attempted, ImportanceOf, DetailsOf, RecordsOf, PlanFor, Overlong, Misframed, CitesWithin, SettingFor;
  }

  /** What the provider answers for one ingredient changes no other entry. */
  lemma FailuresAreIsolated(env: Environment, req: Request, other: string -> Reply, id: string)
    requires forall x | x != id :: other(x) == env.ask(x)
    ensures var es, fs := Entries(env, req), Entries(env.(ask := other), req);
      |es| == |fs| && forall i | 0 <= i < |es| :: es[i].ingredientId != id ==> es[i] == fs[i]
  {
    hide Attempted, ImportanceOf, DetailsOf, RecordsOf, PlanFor, Eligible, Ids;
    var ids := Ids(req);
    forall i | 0 <= i < |ids| && Entries(env, req)[i].ingredientId != id
      ensures Entries(env, req)[i] == Entries(env.(ask := other), req)[i]
    {
      EntryKeeps(env, req, ids[i]);
      SameReplySameEntry(env, req, other, ids[i]);
    }
  }

  lemma SameReplySameEntry(env: Environment, req: Request, other: string -> Reply, id: string)
    requires other(id) == env.ask(id)
    ensures EntryFor(env.(ask := other), req, id) == EntryFor(env, req, id)
  {
    hide Attempted, ImportanceOf, DetailsOf, RecordsOf, PlanFor, Eligible, Overlong, Misframed, CitesWithin;
    hide PlanEvidence;
  }

  function LlmEntries(entries: seq<Entry>): nat {
    if entries == [] then 0 else LlmEntries(entries[..|entries| - 1]) + if entries[|entries| - 1].origin == Llm then 1 else 0
  }

  lemma {:induction false} LlmCount(env: Environment, req: Request, ids: seq<string>)
    requires Attempted(req)
    ensures LlmEntries(seq(|ids|, i requires 0 <= i < |ids| => EntryFor(env, req, ids[i])))
         == Successes(env, req, EligibleIds(req, ids))
  {
    hide EntryFor, Attempted, Eligible, Narrated, PreparedFor;
    if ids == [] {
      NothingCounted(env, req);
    } else {
      var n := |ids| - 1;
      var before, id := ids[..n], ids[n];
      LlmCount(env, req, before);
      LlmOnlyIfVetted(env, req, id);
      var es := seq(|ids|, i requires 0 <= i < |ids| => EntryFor(env, req, ids[i]));
      assert es[..n] == seq(n, i requires 0 <= i < n => EntryFor(env, req, before[i]));
      assert ids == before + [id];
      EligibleAppend(req, before, [id]);
      assert [id][1..] == [];
      var eligible := EligibleIds(req, before);
      assert eligible + [] == eligible;
      assert (eligible + [id])[..|eligible|] == eligible;
    }
  }

  /**
   Once the provider is called, successes and fallbacks together are the eligible ingredients, one call each, and
   the successes are the entries that show the provider's wording.
   */
  lemma CountsFit(d: Diagnostics, env: Environment, req: Request)
    requires Reports(d, env, req) && d.attempted
    ensures d.succeeded.Some? && d.fellBack.Some?
    ensures d.succeeded.value + d.fellBack.value == |d.eligible| == d.providerCalls == |d.items|
    ensures d.succeeded.value == LlmEntries(Entries(env, req))
    ensures forall id :: id in d.eligible <==> id in Ids(req) && Eligible(req, id)
  {
    hide Attempted, EligibleIds, Successes, LlmEntries, EntryFor, Eligible, Ids, CountOf, Narrated, PreparedFor;
    LlmCount(env, req, Ids(req));
    EligibleMember(req, Ids(req));
  }

  // ---------- citations ----------

  /** Records as the adapter builds them: the only source of a record is its own evidence item. */
  ghost predicate SelfCited(r: Record) {
    Guard.SourceIdsOf(r) == {RecordId(r)}
  }

  /**
   An entry that shows the provider's wording cites only evidence its communication plan authorises, and that is
   evidence of records of the same ingredient.
   */
  lemma LlmCitesItsPlan(env: Environment, req: Request, id: string)
    requires forall r | r in req.records :: SelfCited(r)
    requires EntryFor(env, req, id).origin == Llm
    ensures var e, plan := EntryFor(env, req, id), PreparedFor(env, req, id).plan;
      && plan.Some?
      && forall c | c in e.evidenceIds ::
           && c in plan.value.authorized && c in req.evidence
           && exists r :: r in req.records && IngredientOf(r) == id && RecordId(r) == c
  {
    hide Attempted, Overlong, Misframed, CitesWithin, RecordId, EntryFor, Guard.Guarded, Guard.SourceIdsOf;
    hide Narrated, PlanFor, Filter;
    var e, p := EntryFor(env, req, id), PreparedFor(env, req, id);
    EntryKeeps(env, req, id);
    LlmOnlyIfVetted(env, req, id);
    var st, draft := SettingFor(env, req, p), DraftOf(env.ask(id).response);
    Guard.CitationsAreSources(st, draft, req.evidence);
    Guard.GuardSound(st, draft, req.evidence);
    var answer := Guard.Guarded(st, draft, req.evidence).value;
    forall c | c in e.evidenceIds
      ensures c in p.plan.value.authorized && c in req.evidence
      ensures exists r :: r in req.records && IngredientOf(r) == id && RecordId(r) == c
    {
      var k :| k in answer.accepted && c in Guard.SourceIds(k.items);
      Guard.SourceIdsComplete(k.items);
      var r :| r in k.items && c in Guard.SourceIdsOf(r);
      PlanEvidenceOwn(env, req, id, r);
    }
  }

  lemma PlanEvidenceOwn(env: Environment, req: Request, id: string, r: Record)
    requires r in PlanEvidence(PreparedFor(env, req, id))
    ensures var plan := PreparedFor(env, req, id).plan;
      plan.Some? && RecordId(r) in plan.value.authorized && r in req.records && IngredientOf(r) == id
  {
    hide PlanFor, ImportanceOf, DetailsOf, RecordId, RuleEntry;
    var p := PreparedFor(env, req, id);
    FilterMember(p.records, x => IsAuthorized(x, p.plan.value));
    MembersSound(Filter(req.records, HasIngredient), IngredientOf, id);
    FilterMember(req.records, HasIngredient);
  }
}
