/** `DecisionNarrativeProvider._guard`: the whole answer. */
module Guard {
  import opened Text
  import opened Records
  import opened Ordering
  import opened NumericAuthority
  import opened NumberCheck
  import opened Narrative

  /** A claim of the retired answer shape; `ids` is None when `evidence_ids` is not a list. */
  datatype LegacyClaim = Malformed | LegacyClaim(text: string, claimType: Value, ids: Option<seq<string>>)

  /** What the provider returned: the answer text, if it is one, and the claims of the retired shape. */
  datatype Draft = Draft(answer: Option<string>, claims: seq<LegacyClaim>)

  datatype Setting = Setting(
    u: Unicode, policy: Policy, structured: seq<Record>, rows: seq<Named>, target: string, risk: bool)

  type Scopes = map<string, seq<Record>>

  datatype Checked<+T> = Ok(value: T) | Refuse(reason: string)

  /** A sentence that was kept: its position, its final text, and the evidence it was checked against. */
  datatype Kept = Kept(index: nat, text: string, items: seq<Record>)

  datatype Claim = Claim(claimType: string, value: string, evidenceIds: seq<string>)

  datatype Answer = Answer(text: string, accepted: seq<Kept>, claims: seq<Claim>, citations: seq<string>)

  // ---------- claims of the retired shape ----------

  /** by_id[id] */
  function ById(structured: seq<Record>, id: string): Option<Record> {
    if structured == [] then None
    else
      var last := structured[|structured| - 1];
      if Get(last, "evidence_id") == Str(id) then Some(last) else ById(structured[..|structured| - 1], id)
  }

  function ItemsById(structured: seq<Record>, ids: seq<string>): Option<seq<Record>> {
    if ids == [] then Some([])
    else match (ById(structured, ids[0]), ItemsById(structured, ids[1..]))
      case (Some(item), Some(rest)) => Some([item] + rest)
      case _ => None
  }

  /** The evidence a legacy claim names, once its shape and type are right. */
  function ClaimItems(st: Setting, claim: LegacyClaim): Checked<seq<Record>> {
    match claim
    case Malformed => Refuse("malformed_claim")
    case LegacyClaim(_, claimType, ids) =>
      if ids.None? || ids.value == [] then Refuse("unsupported_evidence_id")
      else match ItemsById(st.structured, ids.value)
        case None => Refuse("unsupported_evidence_id")
        case Some(items) =>
          if exists item | item in items :: Get(item, "type") == claimType then Ok(items)
          else Refuse("unsupported_claim_type")
  }

  function JudgeClaim(st: Setting, claim: LegacyClaim): Checked<seq<Record>> {
    match ClaimItems(st, claim)
    case Refuse(reason) => Refuse(reason)
    case Ok(items) =>
      if claim.Malformed? then Refuse("malformed_claim")
      else match Judge(st.u, st.policy, claim.text, items)
        case Accept(_) => Ok(items)
        case Drop => Refuse("unsupported_numeric_claim")
        case Abort(reason) => Refuse(reason)
  }

  function LegacyScopes(st: Setting, claims: seq<LegacyClaim>, scopes: Scopes): Checked<Scopes>
    decreases |claims|
  {
    if claims == [] then Ok(scopes)
    else match JudgeClaim(st, claims[0])
      case Refuse(reason) => Refuse(reason)
      case Ok(items) =>
        if claims[0].Malformed? then Refuse("malformed_claim")
        else LegacyScopes(st, claims[1..], scopes[claims[0].text := items])
  }

  // ---------- the sentences ----------

  function ItemsFor(st: Setting, scopes: Scopes, fragment: string): seq<Record> {
    if fragment in scopes && scopes[fragment] != [] then scopes[fragment]
    else Scope(st.u, st.policy, fragment, st.structured, st.rows, st.target)
  }

  function JudgeSentence(st: Setting, scopes: Scopes, fragment: string): Judgement {
    var items := ItemsFor(st, scopes, fragment);
    match Judge(st.u, st.policy, fragment, items)
    case Accept(text) =>
      (match if st.risk then st.policy.shortage(text, items) else None
       case Some(reason) => Abort(reason)
       case None => Accept(text))
    case other => other
  }

  function Walk(st: Setting, scopes: Scopes, fragments: seq<string>, i: nat): Checked<seq<Kept>>
    requires i <= |fragments|
    decreases |fragments| - i
  {
    if i == |fragments| then Ok([])
    else match JudgeSentence(st, scopes, fragments[i])
      case Abort(reason) => Refuse(reason)
      case Drop => Walk(st, scopes, fragments, i + 1)
      case Accept(text) =>
        match Walk(st, scopes, fragments, i + 1)
        case Refuse(reason) => Refuse(reason)
        case Ok(rest) => Ok([Kept(i, text, ItemsFor(st, scopes, fragments[i]))] + rest)
  }

  // ---------- the response ----------

  /** item.get("evidence_ids", [item["evidence_id"]]) */
  function SourceIdsOf(item: Record): set<string> {
    if Has(item, "evidence_ids") then
      (match Get(item, "evidence_ids") case List(vs) => set s | s in Strings(vs) case _ => {})
    else {Show(Get(item, "evidence_id"))}
  }

  function SourceIds(items: seq<Record>): set<string> {
    if items == [] then {} else SourceIdsOf(items[0]) + SourceIds(items[1..])
  }

  function Texts(kept: seq<Kept>): seq<string> {
    if kept == [] then [] else [kept[0].text] + Texts(kept[1..])
  }

  function ClaimOf(k: Kept): seq<Claim> {
    var ids := SortedStrings(SourceIds(k.items));
    if ids == [] then []
    else [Claim(if k.items != [] && Has(k.items[0], "type") then Type(k.items[0]) else "FACT", k.text, ids)]
  }

  function ClaimsOf(kept: seq<Kept>): seq<Claim> {
    if kept == [] then [] else ClaimOf(kept[0]) + ClaimsOf(kept[1..])
  }

  function CitedIds(kept: seq<Kept>): set<string> {
    if kept == [] then {} else SourceIds(kept[0].items) + CitedIds(kept[1..])
  }

  function Respond(st: Setting, kept: seq<Kept>, evidence: seq<string>): Checked<Answer> {
    var text := Strip(st.u, Join(" ", Texts(kept)));
    if text == "" then Refuse("material_unsupported_numeric_answer")
    else Ok(Answer(text, kept, ClaimsOf(kept), Filter(evidence, (id: string) => id in CitedIds(kept))))
  }

  predicate OffTarget(st: Setting) {
    st.target != ""
    && exists item | item in st.structured ::
         Truthy(Get(item, "ingredient_id")) && Get(item, "ingredient_id") != Str(st.target)
  }

  /** The outcome of _guard; `evidence` lists the ids of the evidence items in order. */
  function Guarded(st: Setting, draft: Draft, evidence: seq<string>): Checked<Answer> {
    if draft.answer.None? || Strip(st.u, draft.answer.value) == "" then Refuse("malformed_qwen_output")
    else if OffTarget(st) then Refuse("target_evidence_entity_mismatch")
    else match LegacyScopes(st, draft.claims, map[])
      case Refuse(reason) => Refuse(reason)
      case Ok(scopes) =>
        match Walk(st, scopes, Fragments(st.u, draft.answer.value), 0)
        case Refuse(reason) => Refuse(reason)
        case Ok(kept) => Respond(st, kept, evidence)
  }

  // ---------- the method ----------

  method CheckLegacyClaims(st: Setting, claims: seq<LegacyClaim>) returns (r: Checked<Scopes>)
    ensures r == LegacyScopes(st, claims, map[])
  {
    hide Judge;
    var scopes: Scopes := map[];
    for i := 0 to |claims|
      invariant LegacyScopes(st, claims[i..], scopes) == LegacyScopes(st, claims, map[])
    {
      Suffix(claims, i);
      var found := ClaimItems(st, claims[i]);
      if found.Refuse? {
        return Refuse(found.reason);
      }
      var text := claims[i].text;
      var j := ValidateOrRepairFragment(st.u, st.policy, text, found.value);
      if j.Drop? {
        return Refuse("unsupported_numeric_claim");
      }
      if j.Abort? {
        return Refuse(j.reason);
      }
      scopes := scopes[text := found.value];
    }
    return Ok(scopes);
  }

  /** One turn of the sentence loop. */
  method CheckSentence(st: Setting, scopes: Scopes, fragment: string) returns (j: Judgement, items: seq<Record>)
    ensures items == ItemsFor(st, scopes, fragment)
    ensures j == JudgeSentence(st, scopes, fragment)
  {
    hide Judge, Scope;
    if fragment in scopes && scopes[fragment] != [] {
      items := scopes[fragment];
    } else {
      items := ScopeFragment(st.u, st.policy, fragment, st.structured, st.rows, st.target);
    }
    j := ValidateOrRepairFragment(st.u, st.policy, fragment, items);
    if j.Accept? && st.risk {
      var reason := st.policy.shortage(j.text, items);
      if reason.Some? { j := Abort(reason.value); }
    }
  }

  /** The result of a walk with the sentences already kept put in front. */
  function After(kept: seq<Kept>, rest: Checked<seq<Kept>>): Checked<seq<Kept>> {
    match rest case Ok(more) => Ok(kept + more) case Refuse(reason) => Refuse(reason)
  }

  lemma AfterNone(rest: Checked<seq<Kept>>)
    ensures After([], rest) == rest
  {
    if rest.Ok? { assert [] + rest.value == rest.value; }
  }

  lemma AppendKept(kept: seq<Kept>, k: Kept, rest: Checked<seq<Kept>>)
    ensures After(kept + [k], rest) == After(kept, After([k], rest))
  {
    if rest.Ok? { assert kept + [k] + rest.value == kept + ([k] + rest.value); }
  }

  lemma ResponseAppend(kept: seq<Kept>, k: Kept)
    ensures Texts(kept + [k]) == Texts(kept) + [k.text]
    ensures ClaimsOf(kept + [k]) == ClaimsOf(kept) + ClaimOf(k)
    ensures CitedIds(kept + [k]) == CitedIds(kept) + SourceIds(k.items)
  {
    TextsAppend(kept, k);
    ClaimsAppend(kept, k);
    CitedAppend(kept, k);
  }

  lemma {:induction false} TextsAppend(kept: seq<Kept>, k: Kept)
    ensures Texts(kept + [k]) == Texts(kept) + [k.text]
  {
    if kept != [] {
      TextsAppend(kept[1..], k);
      assert (kept + [k])[1..] == kept[1..] + [k];
    }
  }

  lemma {:induction false} ClaimsAppend(kept: seq<Kept>, k: Kept)
    ensures ClaimsOf(kept + [k]) == ClaimsOf(kept) + ClaimOf(k)
  {
    hide ClaimOf;
    if kept != [] {
      ClaimsAppend(kept[1..], k);
      assert (kept + [k])[1..] == kept[1..] + [k];
    }
  }

  lemma {:induction false} CitedAppend(kept: seq<Kept>, k: Kept)
    ensures CitedIds(kept + [k]) == CitedIds(kept) + SourceIds(k.items)
  {
    hide SourceIds;
    if kept != [] {
      CitedAppend(kept[1..], k);
      assert (kept + [k])[1..] == kept[1..] + [k];
    }
  }

  /** _guard */
  method GuardAnswer(st: Setting, draft: Draft, evidence: seq<string>) returns (r: Checked<Answer>)
    ensures r == Guarded(st, draft, evidence)
  {
    hide LegacyScopes, JudgeSentence, ItemsFor, SourceIds, ClaimOf, Fragments, Strip, Join;
    if draft.answer.None? || Strip(st.u, draft.answer.value) == "" {
      return Refuse("malformed_qwen_output");
    }
    if OffTarget(st) {
      return Refuse("target_evidence_entity_mismatch");
    }
    var scopes := CheckLegacyClaims(st, draft.claims);
    if scopes.Refuse? {
      return Refuse(scopes.reason);
    }
    var fragments := Fragments(st.u, draft.answer.value);
    var claims: seq<Claim>, citationIds: set<string>, accepted: seq<string> := [], {}, [];
    var kept: seq<Kept> := [];
    AfterNone(Walk(st, scopes.value, fragments, 0));
    for i := 0 to |fragments|
      invariant accepted == Texts(kept) && claims == ClaimsOf(kept) && citationIds == CitedIds(kept)
      invariant Walk(st, scopes.value, fragments, 0) == After(kept, Walk(st, scopes.value, fragments, i))
    {
      var j, items := CheckSentence(st, scopes.value, fragments[i]);
      if j.Drop? {
        continue;
      }
      if j.Abort? {
        return Refuse(j.reason);
      }
      var k := Kept(i, j.text, items);
      ResponseAppend(kept, k);
      AppendKept(kept, k, Walk(st, scopes.value, fragments, i + 1));
      accepted := accepted + [j.text];
      claims := claims + ClaimOf(k);
      citationIds := citationIds + SourceIds(items);
      kept := kept + [k];
    }
    assert kept + [] == kept;
    var text := Strip(st.u, Join(" ", accepted));
    if text == "" {
      return Refuse("material_unsupported_numeric_answer");
    }
    return Ok(Answer(text, kept, claims, Filter(evidence, (id: string) => id in citationIds)));
  }

  // ---------- soundness ----------

  /** What is true of a sentence that was kept. */
  ghost predicate Grounded(st: Setting, scopes: Scopes, fragments: seq<string>, k: Kept) {
    && k.index < |fragments|
    && k.items == ItemsFor(st, scopes, fragments[k.index])
    && NumbersVerdict(st.u, k.text, k.items) == Pass
    && st.policy.grounding(k.text, k.items).None?
    && (k.text == fragments[k.index]
        || (NumbersVerdict(st.u, fragments[k.index], k.items) == Unsupported
            && Repaired(st.u, fragments[k.index], k.items) == Some(k.text)))
  }

  /** Sentence `i` is not kept and was dropped for its numbers alone. */
  ghost predicate DroppedForNumbers(st: Setting, scopes: Scopes, fragments: seq<string>, i: nat)
    requires i < |fragments|
  {
    JudgeSentence(st, scopes, fragments[i]) == Drop
  }

  ghost predicate InOrder(kept: seq<Kept>) {
    forall a, b | 0 <= a < b < |kept| :: kept[a].index < kept[b].index
  }

  lemma {:induction false} WalkSound(st: Setting, scopes: Scopes, fragments: seq<string>, i: nat)
    requires i <= |fragments| && Walk(st, scopes, fragments, i).Ok?
    ensures var kept := Walk(st, scopes, fragments, i).value;
      && InOrder(kept)
      && (forall k | k in kept :: i <= k.index && Grounded(st, scopes, fragments, k))
      && (forall j | i <= j < |fragments| && (forall k | k in kept :: k.index != j) ::
            DroppedForNumbers(st, scopes, fragments, j))
    decreases |fragments| - i
  {
    hide NumbersVerdict, Repaired, ItemsFor;
    if i < |fragments| {
      WalkSound(st, scopes, fragments, i + 1);
      var rest := Walk(st, scopes, fragments, i + 1).value;
      var items := ItemsFor(st, scopes, fragments[i]);
      var j := JudgeSentence(st, scopes, fragments[i]);
      if j.Accept? {
        JudgeSound(st.u, st.policy, fragments[i], items);
        var k := Kept(i, j.text, items);
        assert Grounded(st, scopes, fragments, k);
        assert Walk(st, scopes, fragments, i).value == [k] + rest;
      }
    }
  }

  /** Evidence found by id is evidence that was selected. */
  lemma {:induction false} ByIdSelected(structured: seq<Record>, id: string)
    requires ById(structured, id).Some?
    ensures ById(structured, id).value in structured
  {
    var n := |structured| - 1;
    if Get(structured[n], "evidence_id") != Str(id) { ByIdSelected(structured[..n], id); }
  }

  lemma {:induction false} ItemsByIdSelected(structured: seq<Record>, ids: seq<string>)
    requires ItemsById(structured, ids).Some?
    ensures forall item | item in ItemsById(structured, ids).value :: item in structured
  {
    if ids != [] {
      ByIdSelected(structured, ids[0]);
      ItemsByIdSelected(structured, ids[1..]);
    }
  }

  ghost predicate AllSelected(st: Setting, scopes: Scopes) {
    forall text | text in scopes :: forall item | item in scopes[text] :: item in st.structured
  }

  lemma {:induction false} ScopesSelected(st: Setting, claims: seq<LegacyClaim>, scopes: Scopes)
    requires AllSelected(st, scopes) && LegacyScopes(st, claims, scopes).Ok?
    ensures AllSelected(st, LegacyScopes(st, claims, scopes).value)
    decreases |claims|
  {
    hide Judge;
    if claims != [] {
      var items := JudgeClaim(st, claims[0]).value;
      ItemsByIdSelected(st.structured, claims[0].ids.value);
      ScopesSelected(st, claims[1..], scopes[claims[0].text := items]);
    }
  }

  /** A sentence is only ever checked against selected evidence. */
  lemma ItemsSelected(st: Setting, scopes: Scopes, fragment: string)
    requires AllSelected(st, scopes)
    ensures var items := ItemsFor(st, scopes, fragment);
      && (forall item | item in items :: item in st.structured)
      && (st.structured != [] ==> items != [])
  {
    hide Scope;
    ScopeIsSublist(st.u, st.policy, fragment, st.structured, st.rows, st.target);
    SublistMember(Scope(st.u, st.policy, fragment, st.structured, st.rows, st.target), st.structured);
  }

  lemma {:induction false} SourceIdsComplete(items: seq<Record>)
    ensures forall item | item in items :: SourceIdsOf(item) <= SourceIds(items)
    ensures forall id | id in SourceIds(items) :: exists item :: item in items && id in SourceIdsOf(item)
  {
    hide SourceIdsOf;
    if items != [] {
      SourceIdsComplete(items[1..]);
      assert items == [items[0]] + items[1..];
    }
  }

  /**
   Soundness of the guard over every draft answer: if it answers, then the kept sentences are sentences of
   the draft in order, at least one, each grounded in selected evidence; every other sentence was dropped
   for its numbers; and the text is the kept sentences joined.
   */
  lemma GuardSound(st: Setting, draft: Draft, evidence: seq<string>)
    requires Guarded(st, draft, evidence).Ok?
    ensures var answer := Guarded(st, draft, evidence).value;
      && draft.answer.Some?
      && exists scopes: Scopes ::
           var fragments := Fragments(st.u, draft.answer.value);
           && LegacyScopes(st, draft.claims, map[]) == Ok(scopes)
           && AllSelected(st, scopes)
           && InOrder(answer.accepted) && answer.accepted != []
           && answer.text == Strip(st.u, Join(" ", Texts(answer.accepted)))
           && (forall k | k in answer.accepted ::
                 Grounded(st, scopes, fragments, k) && forall item | item in k.items :: item in st.structured)
           && (forall j | 0 <= j < |fragments| && (forall k | k in answer.accepted :: k.index != j) ::
                 DroppedForNumbers(st, scopes, fragments, j))
  {
    hide JudgeSentence, Fragments, NumbersVerdict, Repaired, ClaimsOf, SourceIds, Walk, ItemsFor, LegacyScopes;
    hide OffTarget;
    var scopes := LegacyScopes(st, draft.claims, map[]).value;
    var fragments := Fragments(st.u, draft.answer.value);
    var answer := Guarded(st, draft, evidence).value;
    ScopesSelected(st, draft.claims, map[]);
    WalkSound(st, scopes, fragments, 0);
    assert answer.accepted == Walk(st, scopes, fragments, 0).value;
    assert Join(" ", Texts([])) == "" && Strip(st.u, "") == "";
    forall k | k in answer.accepted
      ensures forall item | item in k.items :: item in st.structured
    {
      ItemsSelected(st, scopes, fragments[k.index]);
    }
  }

  /**
   Every digit of a kept sentence, once supplied ranges and dates are blanked, is glued to a preceding word
   character, in a token that mixes one point and one comma, in a year mention, or in a mention that a fact
   of the evidence the sentence is kept with authorises.
   */
  lemma KeptDigitsStand(st: Setting, draft: Draft, evidence: seq<string>, k: Kept, p: nat)
    requires st.u.Valid() && st.u.Matching()
    requires Guarded(st, draft, evidence).Ok? && k in Guarded(st, draft, evidence).value.accepted
    requires var s := Protected(st.u, k.text, k.items); p < |s| && st.u.digit(s[p]) >= 0
    ensures exists why :: Justifies(st.u, k.text, k.items, p, why)
  {
    hide Guarded, NumbersVerdict, Protected;
    GuardSound(st, draft, evidence);
    NumbersSound(st.u, k.text, k.items, p);
  }

  /** The claim of a kept sentence cites exactly the sources of the evidence it was checked against. */
  lemma ClaimCitesItsEvidence(k: Kept)
    ensures var cs := ClaimOf(k);
      && (cs == [] <==> SourceIds(k.items) == {})
      && (forall c | c in cs :: c.value == k.text && Enumerates(c.evidenceIds, SourceIds(k.items), StrLeq))
  {
    var ids := SortedStrings(SourceIds(k.items));
    HeadIn(ids);
    assert SourceIds(k.items) != {} ==> exists id :: id in SourceIds(k.items);
  }

  lemma {:induction false} CitedComplete(kept: seq<Kept>)
    ensures forall id :: id in CitedIds(kept) <==> exists k :: k in kept && id in SourceIds(k.items)
  {
    hide SourceIds;
    if kept != [] {
      CitedComplete(kept[1..]);
      assert kept == [kept[0]] + kept[1..];
    }
  }

  /** The citations are the evidence items, in order, that some kept sentence was checked against. */
  lemma CitationsAreSources(st: Setting, draft: Draft, evidence: seq<string>)
    requires Guarded(st, draft, evidence).Ok?
    ensures var answer := Guarded(st, draft, evidence).value;
      && Sublist(answer.citations, evidence)
      && forall id :: id in answer.citations <==>
           id in evidence && exists k :: k in answer.accepted && id in SourceIds(k.items)
  {
    hide JudgeSentence, Fragments, SourceIds, ClaimsOf, Walk, LegacyScopes, OffTarget;
    var answer := Guarded(st, draft, evidence).value;
    CitedComplete(answer.accepted);
    FilterMember(evidence, (id: string) => id in CitedIds(answer.accepted));
    FilterSublist(evidence, (id: string) => id in CitedIds(answer.accepted));
  }
}
