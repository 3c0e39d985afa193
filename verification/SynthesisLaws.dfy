/**
 What an ingredient entry shows and when the provider's wording is used, said of the request's records and details and of
 the reply's own text.
 */
module SynthesisLaws {
  import opened Text
  import opened Records
  import opened Ordering
  import opened Grouping
  import opened Narrative
  import opened Synthesis
  import Guard
  import Risk = RiskProjection

  // ---------- importance ----------

  /** A risk or limitation the table knows, of this severity. */
  ghost predicate Reported(details: seq<Risk.Detail>, severity: Risk.Severity) {
    exists d :: d in details && d.severity == severity
      && (d.classification == Risk.PublicRisk || d.classification == Risk.PublicLimitation)
  }

  lemma ImportanceIs(details: seq<Risk.Detail>)
    ensures ImportanceOf(details) == Critical <==> Reported(details, Risk.Critical)
    ensures ImportanceOf(details) == Watch <==> !Reported(details, Risk.Critical) && Reported(details, Risk.Warning)
    ensures ImportanceOf(details) == Normal <==> !Reported(details, Risk.Critical) && !Reported(details, Risk.Warning)
  {}

  // ---------- an ingredient's records and details ----------

  predicate OfIngredient(r: Record, id: string) {
    Truthy(Get(r, "ingredient_id")) && Show(Get(r, "ingredient_id")) == id
  }

  predicate DetailOfIngredient(d: Risk.Detail, id: string) {
    id != "" && d.ingredientId == Some(id)
  }

  lemma {:induction false} RecordsAre(records: seq<Record>, id: string)
    ensures Members(Filter(records, HasIngredient), IngredientOf, id) == Filter(records, (r: Record) => OfIngredient(r, id))
  {
    hide Get;
    if records != [] {
      RecordsAre(records[1..], id);
      var kept := Filter(records, HasIngredient);
      assert HasIngredient(records[0]) ==> kept[0] == records[0] && kept[1..] == Filter(records[1..], HasIngredient);
    }
  }

  lemma {:induction false} DetailsAre(details: seq<Risk.Detail>, id: string)
    ensures Members(Filter(details, HasDetailId), DetailId, id) == Filter(details, (d: Risk.Detail) => DetailOfIngredient(d, id))
  {
    if details != [] {
      DetailsAre(details[1..], id);
      var kept := Filter(details, HasDetailId);
      assert HasDetailId(details[0]) ==> kept[0] == details[0] && kept[1..] == Filter(details[1..], HasDetailId);
    }
  }

  /** The records and details an entry is about: those that name its ingredient, in order. */
  lemma AboutIngredient(req: Request, id: string)
    ensures RecordsOf(req, id) == Filter(req.records, (r: Record) => OfIngredient(r, id))
    ensures DetailsOf(req, id) == Filter(req.details, (d: Risk.Detail) => DetailOfIngredient(d, id))
  {
    RecordsAre(req.records, id);
    DetailsAre(req.details, id);
  }

  // ---------- the plan ----------

  /** The first record of a type. */
  ghost predicate FirstOf(records: seq<Record>, t: string, i: nat) {
    i < |records| && Show(Get(records[i], "type")) == t && forall j | 0 <= j < i :: Show(Get(records[j], "type")) != t
  }

  lemma {:induction false} FirstOutsideIs(records: seq<Record>, t: string)
    ensures FirstOutside(records, t, []).Some? <==> exists i: nat :: FirstOf(records, t, i)
    ensures forall i: nat | FirstOf(records, t, i) :: FirstOutside(records, t, []) == Some(records[i])
  {
    hide Get;
    if records != [] {
      var rest := records[1..];
      FirstOutsideIs(rest, t);
      assert forall j | 0 <= j < |rest| :: rest[j] == records[j + 1];
      if Show(Get(records[0], "type")) == t {
        assert FirstOf(records, t, 0);
      } else {
        forall i: nat
          ensures FirstOf(records, t, i + 1) <==> FirstOf(rest, t, i)
        {
        }
        forall i: nat | FirstOf(records, t, i)
          ensures i > 0 && FirstOf(rest, t, i - 1)
        {
          assert i > 0;
          assert FirstOf(records, t, (i - 1) + 1);
        }
        if i: nat :| FirstOf(rest, t, i) { assert FirstOf(records, t, i + 1); }
      }
    }
  }

  /** The first record of a type with another id. */
  ghost predicate FirstBut(records: seq<Record>, t: string, id: string, i: nat) {
    && i < |records| && Show(Get(records[i], "type")) == t && Show(Get(records[i], "evidence_id")) != id
    && forall j | 0 <= j < i :: Show(Get(records[j], "type")) != t || Show(Get(records[j], "evidence_id")) == id
  }

  /** The id that a slot of the plan would cite. */
  ghost predicate Cites(records: seq<Record>, t: string, primary: string, slot: Option<string>) {
    match slot
    case Some(id) => exists i: nat :: FirstBut(records, t, primary, i) && Show(Get(records[i], "evidence_id")) == id
    case None => forall i: nat :: !FirstBut(records, t, primary, i)
  }

  lemma {:induction false} SlotIs(records: seq<Record>, t: string, primary: string)
    ensures Cites(records, t, primary, OptionalId(FirstOutside(records, t, [primary])))
  {
    hide Get;
    if records != [] {
      var rest := records[1..];
      SlotIs(rest, t, primary);
      assert forall j | 0 <= j < |rest| :: rest[j] == records[j + 1];
      if Show(Get(records[0], "type")) == t && Show(Get(records[0], "evidence_id")) != primary {
        assert FirstBut(records, t, primary, 0);
      } else {
        forall i: nat
          ensures FirstBut(records, t, primary, i + 1) <==> FirstBut(rest, t, primary, i)
        {
        }
        var slot := OptionalId(FirstOutside(rest, t, [primary]));
        if slot.Some? {
          var i: nat :| FirstBut(rest, t, primary, i) && Show(Get(rest[i], "evidence_id")) == slot.value;
          assert FirstBut(records, t, primary, i + 1);
        } else {
          forall i: nat
            ensures !FirstBut(records, t, primary, i)
          {
            if i > 0 { assert !FirstBut(rest, t, primary, i - 1); }
          }
        }
      }
    }
  }

  function Slot(role: string, id: Option<string>, taken: seq<Support>): seq<Support> {
    match id
    case Some(x) => if exists s | s in taken :: s.evidenceId == x then [] else [Support(role, x)]
    case None => []
  }

  /** The supports of a plan: what is ordered, how orders align, the demand; each id once, two at most. */
  function Supports(ordered: Option<string>, aligned: Option<string>, demanded: Option<string>): seq<Support> {
    var a := Slot("procurement_quantity", ordered, []);
    var b := a + Slot("procurement_alignment", aligned, a);
    if |b| == 2 then b else b + Slot("shortage_context", demanded, b)
  }

  lemma AddIs(records: seq<Record>, primary: string, found: seq<Support>, role: string, t: string)
    ensures AddSupport(records, [primary], found, (role, t))
         == found + Slot(role, OptionalId(FirstOutside(records, t, [primary])), found)
  {
    hide FirstOutside, RecordId;
    var r := FirstOutside(records, t, [primary]);
    assert found + [] == found;
    if r.Some? { SupportIdIn(found, RecordId(r.value)); }
  }

  lemma SupportIdIn(found: seq<Support>, id: string)
    ensures id in SupportIds(found) <==> exists s | s in found :: s.evidenceId == id
  {
    if id in SupportIds(found) {
      var k :| 0 <= k < |found| && SupportIds(found)[k] == id;
      assert found[k] in found;
    }
    if s :| s in found && s.evidenceId == id {
      var k :| 0 <= k < |found| && found[k] == s;
      assert SupportIds(found)[k] == id;
    }
  }

  lemma SupportingIs(records: seq<Record>, primary: string)
    ensures Supporting(records, [primary], SUPPORTS, []) == Supports(
      OptionalId(FirstOutside(records, "PROCUREMENT_QUANTITY", [primary])),
      OptionalId(FirstOutside(records, "DEMAND_ORDER_ALIGNMENT", [primary])),
      OptionalId(FirstOutside(records, "DEMAND_HORIZON_SUMMARY", [primary])))
  {
    hide FirstOutside, AddSupport, Slot;
    SlotStep(records, [primary], 0, []);
    var a := AddSupport(records, [primary], [], SUPPORTS[0]);
    SlotStep(records, [primary], 1, a);
    var b := AddSupport(records, [primary], a, SUPPORTS[1]);
    SlotStep(records, [primary], 2, b);
    var c := AddSupport(records, [primary], b, SUPPORTS[2]);
    AddIs(records, primary, [], "procurement_quantity", "PROCUREMENT_QUANTITY");
    AddIs(records, primary, a, "procurement_alignment", "DEMAND_ORDER_ALIGNMENT");
    AddIs(records, primary, b, "shortage_context", "DEMAND_HORIZON_SUMMARY");
    SlotShort("procurement_quantity", OptionalId(FirstOutside(records, "PROCUREMENT_QUANTITY", [primary])), []);
    assert SUPPORTS[0..] == SUPPORTS && SUPPORTS[3..] == [];
    assert Supporting(records, [primary], [], c) == c;
  }

  lemma SlotShort(role: string, id: Option<string>, taken: seq<Support>)
    ensures |Slot(role, id, taken)| <= 1
    ensures [] + Slot(role, id, taken) == Slot(role, id, taken)
  {}

  /** The framing of a record: by its type, then by its basis. */
  predicate Framed(r: Record, p: Provenance) {
    var stress := "STRESS_" <= Show(Get(r, "type"));
    var conservative := Get(r, "basis_kind") == Str("conservative_design_scenario");
    && (p == Stress <==> stress)
    && (p == ConservativeDesign <==> !stress && conservative)
    && (p == SelectedPlan <==> !stress && !conservative)
  }

  lemma FramingIs(r: Record)
    ensures Framed(r, ProvenanceOf(r))
  {
    hide Get;
    var t := Show(Get(r, "type"));
    assert |t| >= 7 ==> t[0..7] == t[..7];
  }

  /** The first limitation among the records. */
  ghost predicate LimitationIs(records: seq<Record>, id: Option<string>) {
    match id
    case Some(x) => exists i: nat :: FirstLimit(records, i) && Show(Get(records[i], "evidence_id")) == x
    case None => forall i | 0 <= i < |records| :: Get(records[i], "classification") != Str("LIMITATION")
  }

  ghost predicate FirstLimit(records: seq<Record>, i: nat) {
    && i < |records| && Get(records[i], "classification") == Str("LIMITATION")
    && forall j | 0 <= j < i :: Get(records[j], "classification") != Str("LIMITATION")
  }

  lemma {:induction false} LimitationFirst(records: seq<Record>)
    ensures LimitationIs(records, OptionalId(FirstLimitation(records)))
  {
    hide Get;
    if records != [] {
      var rest := records[1..];
      LimitationFirst(rest);
      assert forall j | 0 <= j < |rest| :: rest[j] == records[j + 1];
      if Get(records[0], "classification") == Str("LIMITATION") {
        assert FirstLimit(records, 0);
      } else {
        var id := OptionalId(FirstLimitation(rest));
        if id.Some? {
          var i: nat :| FirstLimit(rest, i) && Show(Get(rest[i], "evidence_id")) == id.value;
          assert FirstLimit(records, i + 1);
        }
      }
    }
  }

  ghost predicate IsCriticalDetail(d: Risk.Detail) {
    d.severity == Risk.Critical && (d.classification == Risk.PublicRisk || d.classification == Risk.PublicLimitation)
  }

  /** The record of the code of a first critical detail that has one, by category, code, ingredient and evidence. */
  ghost predicate Primary(records: seq<Record>, details: seq<Risk.Detail>, r: Record) {
    exists d, i: nat ::
      && d in details && IsCriticalDetail(d) && FirstOf(records, d.code, i) && records[i] == r
      && forall d2, r2 | d2 in details && IsCriticalDetail(d2) && r2 in records && Show(Get(r2, "type")) == d2.code ::
           PlanLeq(d, d2)
  }

  /** Everything a plan says. */
  ghost predicate PlanSays(plan: Plan, records: seq<Record>, details: seq<Risk.Detail>) {
    if plan.primary == [] then
      && plan == Plan("limited_evidence", [], LimitedEvidence, [], None, [])
      && forall d, r | d in details && IsCriticalDetail(d) && r in records :: Show(Get(r, "type")) != d.code
    else
      exists r, ordered, aligned, demanded ::
        var primary := Show(Get(r, "evidence_id"));
        && Primary(records, details, r) && plan.primary == [primary] && Framed(r, plan.provenance)
        && plan.role == (if Truthy(Get(r, "first_stockout_date")) then "stockout_timing" else "shortage_risk")
        && Cites(records, "PROCUREMENT_QUANTITY", primary, ordered)
        && Cites(records, "DEMAND_ORDER_ALIGNMENT", primary, aligned)
        && Cites(records, "DEMAND_HORIZON_SUMMARY", primary, demanded)
        && plan.supporting == Supports(ordered, aligned, demanded)
        && LimitationIs(records, plan.limitation)
        && (forall id :: id in plan.authorized <==>
              id == primary || (exists s :: s in plan.supporting && s.evidenceId == id) || plan.limitation == Some(id))
        && Distinct(plan.authorized)
  }

  /** The detail at `k` is the first with a record of its code, and the record at `i` the first of those. */
  ghost predicate FirstBacked(ranked: seq<Risk.Detail>, records: seq<Record>, r: Record, k: nat, i: nat) {
    && k < |ranked| && FirstOf(records, ranked[k].code, i) && records[i] == r
    && forall j, x | 0 <= j < k && x in records :: Type(x) != ranked[j].code
  }

  lemma {:induction false} PrimaryFirst(ranked: seq<Risk.Detail>, records: seq<Record>)
    ensures var r := PrimaryRecord(ranked, records);
      && (r.None? ==> forall d, x | d in ranked && x in records :: Type(x) != d.code)
      && (r.Some? ==> exists k: nat, i: nat :: FirstBacked(ranked, records, r.value, k, i))
  {
    hide Get;
    if ranked != [] {
      FirstOutsideIs(records, ranked[0].code);
      FirstOutsideSound(records, ranked[0].code, []);
      PrimaryFirst(ranked[1..], records);
      assert ranked == [ranked[0]] + ranked[1..];
      if FirstOutside(records, ranked[0].code, []).Some? {
        var i: nat :| FirstOf(records, ranked[0].code, i);
        assert FirstBacked(ranked, records, PrimaryRecord(ranked, records).value, 0, i);
      } else if PrimaryRecord(ranked[1..], records).Some? {
        var k: nat, i: nat :| FirstBacked(ranked[1..], records, PrimaryRecord(ranked[1..], records).value, k, i);
        assert ranked[k + 1] == ranked[1..][k];
        forall j, x | 0 <= j < k + 1 && x in records
          ensures Type(x) != ranked[j].code
        {
          if j > 0 { assert ranked[j] == ranked[1..][j - 1]; }
        }
        assert FirstBacked(ranked, records, PrimaryRecord(ranked, records).value, k + 1, i);
      }
    }
  }

  lemma CriticalIff(d: Risk.Detail)
    ensures IsCritical(d) <==> IsCriticalDetail(d)
  {}

  lemma PrimaryIs(records: seq<Record>, details: seq<Risk.Detail>)
    ensures var ranked := Sort(Filter(details, IsCritical), PlanLeq);
      var r := PrimaryRecord(ranked, records);
      && (r.None? ==> forall d, x | d in details && IsCriticalDetail(d) && x in records :: Type(x) != d.code)
      && (r.Some? ==> Primary(records, details, r.value))
  {
    hide Sort, Filter, PlanLeq, IsCritical, IsCriticalDetail, PrimaryRecord, Get;
    var critical := Filter(details, IsCritical);
    var ranked := Sort(critical, PlanLeq);
    PlanOrder();
    SortSorted(critical, PlanLeq);
    FilterMember(details, IsCritical);
    forall d
      ensures IsCritical(d) <==> IsCriticalDetail(d)
    {
      CriticalIff(d);
    }
    PrimaryFirst(ranked, records);
    assert forall d :: d in ranked <==> d in details && IsCriticalDetail(d);
    var r := PrimaryRecord(ranked, records);
    if r.Some? {
      var k: nat, i: nat :| FirstBacked(ranked, records, r.value, k, i);
      var d := ranked[k];
      assert d in ranked;
      forall d2, r2 | d2 in details && IsCriticalDetail(d2) && r2 in records && Type(r2) == d2.code
        ensures PlanLeq(d, d2)
      {
        assert d2 in ranked;
        var j :| 0 <= j < |ranked| && ranked[j] == d2;
        assert j >= k;
        assert j == k ==> PlanLeq(d, d2);
      }
    }
  }

  lemma AuthorizedIs(primary: string, supporting: seq<Support>, limitation: Option<string>)
    ensures var all := Dedup([primary] + SupportIds(supporting) + IdList(limitation));
      && Distinct(all)
      && forall id :: id in all <==>
           id == primary || (exists s :: s in supporting && s.evidenceId == id) || limitation == Some(id)
  {
    hide Dedup, SupportIds;
    DedupMembers([primary] + SupportIds(supporting) + IdList(limitation));
    forall id
      ensures id in SupportIds(supporting) <==> exists s :: s in supporting && s.evidenceId == id
    {
      SupportIdIn(supporting, id);
    }
  }

  /** A plan says what the records and critical details of its ingredient call for. */
  lemma PlanIs(records: seq<Record>, details: seq<Risk.Detail>)
    ensures PlanSays(PlanFor(records, details), records, details)
  {
    hide Sort, Filter, PlanLeq, IsCritical, PrimaryRecord, FirstOutside, FirstLimitation, Dedup, Get, Supports, Framed, Cites;
    hide LimitationIs, Primary, IsCriticalDetail, ProvenanceOf, Supporting;
    var primaryRecord := PrimaryRecord(Sort(Filter(details, IsCritical), PlanLeq), records);
    PrimaryIs(records, details);
    if primaryRecord.Some? {
      var r := primaryRecord.value;
      var primary := RecordId(r);
      FramingIs(r);
      SlotIs(records, "PROCUREMENT_QUANTITY", primary);
      SlotIs(records, "DEMAND_ORDER_ALIGNMENT", primary);
      SlotIs(records, "DEMAND_HORIZON_SUMMARY", primary);
      SupportingIs(records, primary);
      LimitationFirst(records);
      AuthorizedIs(primary, Supporting(records, [primary], SUPPORTS, []), OptionalId(FirstLimitation(records)));
    }
  }

  // ---------- the order of details ----------

  /** The lists agree up to `k`, where the first ends or has the smaller text. */
  ghost predicate PartAt(a: seq<string>, b: seq<string>, k: nat) {
    && k <= |a| && k <= |b| && a[..k] == b[..k]
    && (k == |a| || (k < |b| && a[k] != b[k] && StrLeq(a[k], b[k])))
  }

  lemma {:induction false} ListIs(a: seq<string>, b: seq<string>)
    ensures ListLeq(a, b) <==> exists k: nat :: PartAt(a, b, k)
  {
    hide StrLeq;
    if a == [] {
      assert PartAt(a, b, 0);
    } else if b != [] && a[0] == b[0] {
      ListIs(a[1..], b[1..]);
      if ListLeq(a, b) {
        var k: nat :| PartAt(a[1..], b[1..], k);
        assert a[..k + 1] == [a[0]] + a[1..][..k] && b[..k + 1] == [b[0]] + b[1..][..k];
        assert PartAt(a, b, k + 1);
      }
      if k: nat :| PartAt(a, b, k) {
        assert k > 0;
        assert a[1..][..k - 1] == a[..k][1..] && b[1..][..k - 1] == b[..k][1..];
        assert PartAt(a[1..], b[1..], k - 1);
      }
    } else {
      if ListLeq(a, b) { assert PartAt(a, b, 0); }
      if k: nat :| PartAt(a, b, k) {
        if k > 0 { assert a[..k][0] == b[..k][0]; }
      }
    }
  }

  /** By category, code, ingredient, a detail without one first, and the cited evidence. */
  ghost predicate Before(a: Risk.Detail, b: Risk.Detail) {
    var x := if a.ingredientId.Some? then a.ingredientId.value else "";
    var y := if b.ingredientId.Some? then b.ingredientId.value else "";
    || (a.category != b.category && StrLeq(a.category, b.category))
    || (a.category == b.category && a.code != b.code && StrLeq(a.code, b.code))
    || (a.category == b.category && a.code == b.code && x != y && StrLeq(x, y))
    || (a.category == b.category && a.code == b.code && x == y && exists k: nat :: PartAt(a.evidenceIds, b.evidenceIds, k))
  }

  lemma RankedIs(a: Risk.Detail, b: Risk.Detail)
    ensures PlanLeq(a, b) <==> Before(a, b)
  {
    hide StrLeq, ListLeq, PartAt;
    ListIs(a.evidenceIds, b.evidenceIds);
  }

  // ---------- what a reply may say ----------

  predicate Marked(c: char) {
    c == '.' || c == '!' || c == '?'
  }

  /** The parts of a text between marks, from the part that began at `start`. */
  function Between(s: string, start: nat, i: nat): seq<string>
    requires start <= i <= |s|
    decreases |s| - i
  {
    if i == |s| then [s[start..]]
    else if Marked(s[i]) then [s[start..i]] + Between(s, i + 1, i + 1)
    else Between(s, start, i + 1)
  }

  ghost predicate Inked(u: Unicode, part: string) {
    exists k :: 0 <= k < |part| && !u.space(part[k])
  }

  lemma {:induction false} CountIs(u: Unicode, s: string, start: nat, i: nat)
    requires start <= i <= |s|
    ensures SentenceCount(u, s[i..], Inked(u, s[start..i])) == |Filter(Between(s, start, i), (p: string) => Inked(u, p))|
    decreases |s| - i
  {
    hide Inked;
    var inked := (p: string) => Inked(u, p);
    if i == |s| {
      assert s[start..i] == s[start..];
      OnePart(s[start..], [], inked);
      NoParts(inked);
    } else {
      assert s[i..][0] == s[i] && s[i..][1..] == s[i + 1..];
      if Marked(s[i]) {
        CountIs(u, s, i + 1, i + 1);
        NothingInked(u, s, i + 1);
        OnePart(s[start..i], Between(s, i + 1, i + 1), inked);
      } else {
        CountIs(u, s, start, i + 1);
        InkGrows(u, s, start, i);
      }
    }
  }

  lemma NoParts(keep: string -> bool)
    ensures Filter([], keep) == []
  {}

  lemma OnePart(p: string, rest: seq<string>, keep: string -> bool)
    ensures Filter([p] + rest, keep) == (if keep(p) then [p] else []) + Filter(rest, keep)
    ensures [p] + [] == [p]
  {
    assert ([p] + rest)[1..] == rest;
  }

  lemma NothingInked(u: Unicode, s: string, i: nat)
    requires i <= |s|
    ensures !Inked(u, s[i..i])
  {}

  lemma InkGrows(u: Unicode, s: string, start: nat, i: nat)
    requires start <= i < |s|
    ensures Inked(u, s[start..i + 1]) <==> Inked(u, s[start..i]) || !u.space(s[i])
  {
    var p, q := s[start..i], s[start..i + 1];
    assert q == p + [s[i]];
    if Inked(u, p) {
      var k :| 0 <= k < |p| && !u.space(p[k]);
      assert q[k] == p[k];
    }
    if !u.space(s[i]) { assert q[i - start] == s[i]; }
  }

  /** The parts between marks that are not blank are counted. */
  lemma SentencesCounted(u: Unicode, s: string)
    ensures SentenceCount(u, s, false) == |Filter(Between(s, 0, 0), (p: string) => Inked(u, p))|
  {
    CountIs(u, s, 0, 0);
    assert s[0..] == s;
  }

  /** Short enough for the card: 120 and 600 characters, three sentences, and no talk of the fill rate. */
  ghost predicate Presentable(u: Unicode, r: Response) {
    && |Strip(u, r.headline)| <= 120 && |Strip(u, r.summary)| <= 600
    && |Filter(Between(Strip(u, r.summary), 0, 0), (p: string) => Inked(u, p))| <= 3
    && !Contains(Lower(u, r.headline + " " + Strip(u, r.summary)), "tỷ lệ lấp kho")
  }

  lemma PresentableIff(u: Unicode, r: Response)
    ensures Overlong(u, r) <==> !Presentable(u, r)
  {
    hide SentenceCount, Strip, Contains, Lower, Filter, Between;
    SentencesCounted(u, Strip(u, r.summary));
  }

  predicate ClaimsPlan(text: string) {
    Contains(text, "kế hoạch hiện tại") || Contains(text, "phương án được chọn")
  }

  /** The wording owns up to where its numbers come from. */
  predicate OwnsUp(u: Unicode, r: Response, p: Provenance) {
    var text := Lower(u, r.headline + " " + r.summary);
    && (p == ConservativeDesign ==> Contains(text, "kịch bản nhu cầu bảo thủ") && !ClaimsPlan(text))
    && (p == Stress ==> Contains(text, "kịch bản kiểm tra sức chịu đựng") && !ClaimsPlan(text))
    && (p == LimitedEvidence ==>
          Contains(text, "dữ liệu") && !Contains(text, "thiếu từ") && !Contains(text, "kế hoạch hiện tại thiếu"))
  }

  lemma OwnsUpIff(u: Unicode, r: Response, p: Provenance)
    ensures Misframed(u, r, p) <==> !OwnsUp(u, r, p)
  {
    hide Contains, Lower;
  }

  /** Every id the reply uses or claims is one of these. */
  ghost predicate UsesOnly(r: Response, allowed: seq<string>) {
    && (forall id | id in r.usedIds :: id in allowed)
    && forall c, id | c in r.claims && c.LegacyClaim? && c.ids.Some? && id in c.ids.value :: id in allowed
  }

  lemma UsesOnlyIff(r: Response, allowed: seq<string>)
    ensures CitesWithin(r, allowed) <==> UsesOnly(r, allowed)
  {}

  // ---------- entries ----------

  /** The provider is asked at all: it may be, it is there, and some ingredient is critical. */
  ghost predicate Asked(req: Request) {
    !req.deterministic && req.available && exists id :: IsIngredient(req, id) && IsCriticalIngredient(req, id)
  }

  ghost predicate IsIngredient(req: Request, id: string) {
    id in req.demandIds || id in req.orderIds || exists r :: r in req.records && OfIngredient(r, id)
  }

  ghost predicate IsCriticalIngredient(req: Request, id: string) {
    exists d :: d in req.details && DetailOfIngredient(d, id) && IsCriticalDetail(d)
  }

  lemma CriticalIngredientIff(req: Request, id: string)
    ensures Eligible(req, id) <==> IsCriticalIngredient(req, id)
  {
    hide Filter, Members;
    AboutIngredient(req, id);
    FilterMember(req.details, (d: Risk.Detail) => DetailOfIngredient(d, id));
    ImportanceIs(DetailsOf(req, id));
    if d :| d in req.details && DetailOfIngredient(d, id) && IsCriticalDetail(d) { assert d in DetailsOf(req, id); }
  }

  lemma IngredientIff(req: Request, id: string)
    ensures id in Ids(req) <==> IsIngredient(req, id)
  {
    hide Get;
    IdsAre(req);
  }

  lemma AskedIff(req: Request)
    ensures Attempted(req) <==> Asked(req)
  {
    hide Eligible, Ids, EligibleIds, IsIngredient, IsCriticalIngredient;
    EligibleMember(req, Ids(req));
    HeadIn(EligibleIds(req, Ids(req)));
    forall id
      ensures id in EligibleIds(req, Ids(req)) <==> IsIngredient(req, id) && IsCriticalIngredient(req, id)
    {
      CriticalIngredientIff(req, id);
      IngredientIff(req, id);
    }
  }

  /** The evidence that the plan lets the provider see: the ingredient's records with its ids. */
  ghost function Seen(records: seq<Record>, plan: Plan): seq<Record> {
    Filter(records, (r: Record) => Show(Get(r, "evidence_id")) in plan.authorized)
  }

  /** The reply is used: it came, is presentable, owns up, cites within the plan, and the guard answered. */
  ghost predicate Used(env: Environment, req: Request, id: string, plan: Plan, r: Response, a: Guard.Answer) {
    var records := Filter(req.records, (x: Record) => OfIngredient(x, id));
    && env.ask(id) == Item(r) && Presentable(env.unicode, r) && OwnsUp(env.unicode, r, plan.provenance)
    && UsesOnly(r, plan.authorized)
    && Guard.Guarded(Guard.Setting(env.unicode, env.policy, Seen(records, plan), req.rows, id, false),
                     Guard.Draft(Some(r.headline + ". " + r.summary), r.claims), req.evidence) == Guard.Ok(a)
  }

  /** The deterministic text of an ingredient, before the provider is asked. */
  ghost predicate Ruled(env: Environment, req: Request, id: string, e: Entry, importance: Importance, plan: Option<Plan>) {
    var records := Filter(req.records, (x: Record) => OfIngredient(x, id));
    var w := env.wording(id, records, importance, plan);
    && e.name == w.name && e.unit == w.unit && e.headline == w.headline && e.summary == w.summary
    && (plan.Some? ==> e.evidenceIds == plan.value.authorized)
    && (plan.None? ==>
          && Distinct(e.evidenceIds)
          && forall x :: x in e.evidenceIds <==> exists r :: r in records && RuleEvidence(r) && Show(Get(r, "evidence_id")) == x)
  }

  predicate RuleEvidence(r: Record) {
    || Get(r, "type") == Str("INGREDIENT_OPERATIONAL_RISK") || Get(r, "type") == Str("DEMAND_HORIZON_SUMMARY")
    || Get(r, "type") == Str("PROCUREMENT_QUANTITY") || Get(r, "type") == Str("DEMAND_ORDER_ALIGNMENT")
  }

  lemma RuleIdsAre(records: seq<Record>)
    ensures var ids := Dedup(RecordIds(Filter(records, IsRuleRecord)));
      Distinct(ids) && forall x :: x in ids <==> exists r :: r in records && RuleEvidence(r) && Show(Get(r, "evidence_id")) == x
  {
    hide Get, Dedup, Filter;
    var kept := Filter(records, IsRuleRecord);
    FilterMember(records, IsRuleRecord);
    DedupMembers(RecordIds(kept));
    forall x
      ensures x in RecordIds(kept) <==> exists r :: r in records && RuleEvidence(r) && Show(Get(r, "evidence_id")) == x
    {
      if x in RecordIds(kept) {
        var i :| 0 <= i < |kept| && RecordIds(kept)[i] == x;
        assert kept[i] in kept;
      }
      if r :| r in records && RuleEvidence(r) && Show(Get(r, "evidence_id")) == x {
        assert r in kept;
        var i :| 0 <= i < |kept| && kept[i] == r;
        assert RecordIds(kept)[i] == x;
      }
    }
  }

  lemma RuledIs(env: Environment, req: Request, id: string)
    ensures var p := PreparedFor(env, req, id); Ruled(env, req, id, p.entry, ImportanceOf(DetailsOf(req, id)), p.plan)
  {
    hide PlanFor, Filter, Dedup, RecordIds, Get, DetailsOf, ImportanceOf;
    AboutIngredient(req, id);
    RuleIdsAre(RecordsOf(req, id));
  }

  lemma {:induction false} SeenIs(records: seq<Record>, plan: Plan)
    ensures Filter(records, r => IsAuthorized(r, plan)) == Seen(records, plan)
  {
    hide Get;
    if records != [] { SeenIs(records[1..], plan); }
  }

  lemma NarratedIs(env: Environment, req: Request, id: string)
    requires PreparedFor(env, req, id).plan.Some?
    ensures var p := PreparedFor(env, req, id);
      && (forall r, a | Used(env, req, id, p.plan.value, r, a) ::
            Narrated(env, req, p)
            == Some(p.entry.(origin := Llm, headline := r.headline, summary := r.summary, evidenceIds := a.citations)))
      && (Narrated(env, req, p).Some? ==> exists r, a :: Used(env, req, id, p.plan.value, r, a))
  {
    hide PlanFor, Filter, Get, ImportanceOf, Overlong, Misframed, CitesWithin, Presentable, OwnsUp, UsesOnly, Guard.Guarded;
    var p := PreparedFor(env, req, id);
    AboutIngredient(req, id);
    if env.ask(id).Item? {
      var r := env.ask(id).response;
      PresentableIff(env.unicode, r);
      OwnsUpIff(env.unicode, r, p.plan.value.provenance);
      UsesOnlyIff(r, p.plan.value.authorized);
      SeenIs(p.records, p.plan.value);
      assert SettingFor(env, req, p).structured == Seen(Filter(req.records, (x: Record) => OfIngredient(x, id)), p.plan.value);
      var g := Guard.Guarded(SettingFor(env, req, p), DraftOf(r), req.evidence);
      if Narrated(env, req, p).Some? { assert Used(env, req, id, p.plan.value, r, g.value); }
    }
  }

  /** One entry in full: its origin, what it shows and what it cites. */
  ghost predicate Shows(env: Environment, req: Request, id: string, e: Entry) {
    var own := Filter(req.records, (x: Record) => OfIngredient(x, id));
    var details := Filter(req.details, (d: Risk.Detail) => DetailOfIngredient(d, id));
    var plan := if IsCriticalIngredient(req, id) then Some(PlanFor(own, details)) else None;
    && e.ingredientId == id
    && (e.importance == Critical <==> IsCriticalIngredient(req, id))
    && (e.importance == Watch <==> !IsCriticalIngredient(req, id) && Reported(details, Risk.Warning))
    && (plan.Some? ==> PlanSays(plan.value, own, details))
    && (e.origin == Llm <==> Asked(req) && plan.Some? && exists r, a :: Used(env, req, id, plan.value, r, a))
    && (e.origin == Fallback <==> Asked(req) && plan.Some? && !exists r, a :: Used(env, req, id, plan.value, r, a))
    && (e.origin != Llm ==> Ruled(env, req, id, e, e.importance, plan))
    && (e.origin == Llm ==>
          && (exists w: Wording :: w == env.wording(id, own, e.importance, plan) && e.name == w.name && e.unit == w.unit)
          && forall r, a | Used(env, req, id, plan.value, r, a) ::
               e.headline == r.headline && e.summary == r.summary && e.evidenceIds == a.citations)
  }

  lemma PlanWhenCritical(env: Environment, req: Request, id: string)
    ensures var p := PreparedFor(env, req, id);
      p.plan == if IsCriticalIngredient(req, id) then Some(PlanFor(RecordsOf(req, id), DetailsOf(req, id))) else None
    ensures var p := PreparedFor(env, req, id);
      p.entry.origin == RuleBased && p.entry.importance == ImportanceOf(DetailsOf(req, id)) && p.entry.ingredientId == id
  {
    hide PlanFor, RecordsOf, DetailsOf, ImportanceOf, IsCriticalIngredient;
    CriticalIngredientIff(req, id);
  }

  lemma ReportedIs(req: Request, id: string)
    ensures ImportanceOf(DetailsOf(req, id)) == Critical <==> IsCriticalIngredient(req, id)
    ensures ImportanceOf(DetailsOf(req, id)) == Watch <==>
      !IsCriticalIngredient(req, id) && Reported(Filter(req.details, (d: Risk.Detail) => DetailOfIngredient(d, id)), Risk.Warning)
  {
    hide ImportanceOf, Filter, Members, Reported, IsCriticalIngredient;
    AboutIngredient(req, id);
    CriticalIngredientIff(req, id);
    ImportanceIs(DetailsOf(req, id));
  }

  lemma EntryShows(env: Environment, req: Request, id: string)
    ensures Shows(env, req, id, EntryFor(env, req, id))
  {
    hide PlanFor, RecordsOf, DetailsOf, ImportanceOf, IsCriticalIngredient, Narrated, Used, PreparedFor, Attempted, Asked, Filter;
    hide PlanSays, Reported, Ruled, Eligible;
    AboutIngredient(req, id);
    AskedIff(req);
    CriticalIngredientIff(req, id);
    ReportedIs(req, id);
    PlanWhenCritical(env, req, id);
    var p := PreparedFor(env, req, id);
    RuledIs(env, req, id);
    if p.plan.Some? {
      NarratedIs(env, req, id);
      PlanIs(RecordsOf(req, id), DetailsOf(req, id));
    }
    OriginKeeps(env, req, id, p.entry);
  }

  /** What is ruled does not depend on the origin. */
  lemma OriginKeeps(env: Environment, req: Request, id: string, e: Entry)
    ensures forall importance, plan :: Ruled(env, req, id, e, importance, plan) ==> Ruled(env, req, id, e.(origin := Fallback), importance, plan)
    ensures forall importance, plan :: Ruled(env, req, id, e, importance, plan) ==>
      exists w: Wording :: w == env.wording(id, Filter(req.records, (x: Record) => OfIngredient(x, id)), importance, plan)
        && e.name == w.name && e.unit == w.unit
  {
    hide Filter, RuleEvidence, Get;
  }

  /** Every ingredient of the request has one entry, in order of ids, and each shows what its records and details call for. */
  lemma EntriesShow(env: Environment, req: Request)
    ensures var es := Entries(env, req);
      && (forall i, j | 0 <= i < j < |es| ::
            StrLeq(es[i].ingredientId, es[j].ingredientId) && es[i].ingredientId != es[j].ingredientId)
      && (forall e | e in es :: IsIngredient(req, e.ingredientId) && Shows(env, req, e.ingredientId, e))
      && forall id :: IsIngredient(req, id) ==> exists e :: e in es && e.ingredientId == id
  {
    hide StrLeq, EntryFor, Shows, IsIngredient, Ids, ImportanceOf, DetailsOf;
    var es, ids := Entries(env, req), Ids(req);
    OneEntryPerIngredient(env, req);
    forall i | 0 <= i < |es|
      ensures es[i].ingredientId == ids[i] && Shows(env, req, ids[i], es[i]) && IsIngredient(req, ids[i])
    {
      EntryShows(env, req, ids[i]);
      assert ids[i] in ids;
      IngredientIff(req, ids[i]);
    }
    forall id | IsIngredient(req, id)
      ensures exists e :: e in es && e.ingredientId == id
    {
      IngredientIff(req, id);
      var i :| 0 <= i < |ids| && ids[i] == id;
      assert es[i] in es;
    }
  }

  // ---------- diagnostics ----------

  lemma {:induction false} CountedIs(req: Request, ids: seq<string>, importance: Importance)
    ensures CountOf(req, ids, importance) == |Filter(ids, id => ImportanceOf(DetailsOf(req, id)) == importance)|
  {
    hide ImportanceOf, DetailsOf;
    if ids != [] {
      var n := |ids| - 1;
      CountedIs(req, ids[..n], importance);
      var is_ := id => ImportanceOf(DetailsOf(req, id)) == importance;
      assert ids == ids[..n] + [ids[n]];
      FilterAppend(ids[..n], [ids[n]], is_);
      OnePart(ids[n], [], is_);
      NoParts(is_);
    }
  }

  lemma {:induction false} SuccessesAre(env: Environment, req: Request, ids: seq<string>)
    ensures Successes(env, req, ids) == |Filter(ids, id => Narrated(env, req, PreparedFor(env, req, id)).Some?)|
  {
    hide Narrated, PreparedFor;
    if ids != [] {
      var n := |ids| - 1;
      SuccessesAre(env, req, ids[..n]);
      var is_ := id => Narrated(env, req, PreparedFor(env, req, id)).Some?;
      assert ids == ids[..n] + [ids[n]];
      FilterAppend(ids[..n], [ids[n]], is_);
      OnePart(ids[n], [], is_);
      NoParts(is_);
    }
  }

  /** The counts of a run are those of the entries, by importance and by origin. */
  lemma DiagnosticsCount(d: Diagnostics, env: Environment, req: Request)
    requires Reports(d, env, req)
    ensures var ids := Ids(req);
      && d.total == |ids| && (d.attempted <==> Asked(req))
      && d.counts.0 == |Filter(ids, id => ImportanceOf(DetailsOf(req, id)) == Normal)|
      && d.counts.1 == |Filter(ids, id => ImportanceOf(DetailsOf(req, id)) == Watch)|
      && d.counts.2 == |Filter(ids, id => ImportanceOf(DetailsOf(req, id)) == Critical)|
      && (forall id :: id in d.eligible <==> IsIngredient(req, id) && IsCriticalIngredient(req, id))
      && (d.attempted ==> d.succeeded == Some(|Filter(d.eligible, id => Narrated(env, req, PreparedFor(env, req, id)).Some?)|))
  {
    hide Ids, ImportanceOf, DetailsOf, Narrated, PreparedFor, Attempted, Asked, CountOf, Successes, EligibleIds, Filter, Itemised;
    hide Eligible, IsIngredient, IsCriticalIngredient;
    var ids := Ids(req);
    AskedIff(req);
    CountedIs(req, ids, Normal);
    CountedIs(req, ids, Watch);
    CountedIs(req, ids, Critical);
    SuccessesAre(env, req, EligibleIds(req, ids));
    EligibleMember(req, ids);
    forall id
      ensures id in d.eligible <==> IsIngredient(req, id) && IsCriticalIngredient(req, id)
    {
      CriticalIngredientIff(req, id);
      IngredientIff(req, id);
    }
  }

  /** Without a call: why there was none, and a fallback for every critical ingredient unless the rules alone were asked for. */
  lemma UncalledReports(d: Diagnostics, env: Environment, req: Request)
    requires Reports(d, env, req) && !Asked(req)
    ensures d.failureStage ==
      if req.deterministic then None
      else if exists id :: IsIngredient(req, id) && IsCriticalIngredient(req, id) then Some("PROVIDER_UNAVAILABLE")
      else Some("NOT_ATTEMPTED")
    ensures d.status == (if req.deterministic then "success" else "not_attempted") && d.providerCalls == 0
    ensures |d.items| == (if req.deterministic then 0 else |d.eligible|)
      && forall i | 0 <= i < |d.items| :: d.items[i] == (d.eligible[i], false)
  {
    hide Ids, CountsOf, EligibleIds, Successes, Itemised, Eligible, IsIngredient, IsCriticalIngredient;
    AskedIff(req);
    EligibleMember(req, Ids(req));
    if id :| IsIngredient(req, id) && IsCriticalIngredient(req, id) {
      CriticalIngredientIff(req, id);
      IngredientIff(req, id);
      assert id in d.eligible;
    }
    if d.eligible != [] {
      var id := d.eligible[0];
      assert id in d.eligible;
      CriticalIngredientIff(req, id);
      IngredientIff(req, id);
    }
  }
}
