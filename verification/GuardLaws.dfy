/**
 What the guard does with one sentence, with the claims of the retired shape, and with what it has kept, said of the
 draft and of the evidence's own fields: app/decision_intelligence/narrative.py, lines 844 to 932.
 */
module GuardLaws {
  import opened Text
  import opened Records
  import opened Ordering
  import opened NumericAuthority
  import opened NumberCheck
  import opened Narrative
  import opened Guard
  import FieldAuthority

  // ---------- one sentence against its evidence ----------

  /** The text that goes on from the number check: the sentence, or its repair where its numbers are not supported. */
  predicate Final(u: Unicode, text: string, items: seq<Record>, t: string) {
    if NumbersVerdict(u, text, items) == Unsupported then Repaired(u, text, items) == Some(t) else t == text
  }

  /**
   A sentence is accepted exactly when it is public text and its final form passes the number check and is grounded; it
   is dropped exactly when it is public text with unsupported numbers that no repair cures; anything else refuses the
   whole answer, with the reason of the first check that fails.
   */
  lemma JudgedIs(u: Unicode, policy: Policy, text: string, items: seq<Record>)
    ensures var j := Judge(u, policy, text, items);
      && (forall t :: j == Accept(t) <==>
            && policy.publicText(text).None? && Final(u, text, items, t)
            && NumbersVerdict(u, t, items) == Pass && policy.grounding(t, items).None?)
      && (j == Drop <==>
            && policy.publicText(text).None? && NumbersVerdict(u, text, items) == Unsupported
            && forall t | Final(u, text, items, t) :: NumbersVerdict(u, t, items) == Unsupported)
      && (forall reason :: j == Abort(reason) <==>
            || policy.publicText(text) == Some(reason)
            || (policy.publicText(text).None? && exists t :: Final(u, text, items, t) && Fails(u, policy, t, items, reason)))
  {
    hide NumbersVerdict, Repaired;
    if policy.publicText(text).None? {
      if NumbersVerdict(u, text, items) != Unsupported {
        assert Final(u, text, items, text);
      } else if Repaired(u, text, items).Some? {
        assert Final(u, text, items, Repaired(u, text, items).value);
      }
    }
  }

  predicate Fails(u: Unicode, policy: Policy, t: string, items: seq<Record>, reason: string) {
    || NumbersVerdict(u, t, items) == Fatal(reason)
    || (NumbersVerdict(u, t, items) == Pass && policy.grounding(t, items) == Some(reason))
  }

  // ---------- claims of the retired shape ----------

  /** The last selected record with that id. */
  ghost predicate Latest(structured: seq<Record>, id: string, item: Record) {
    exists n: nat :: n < |structured| && structured[n] == item && Get(item, "evidence_id") == Str(id)
      && forall m | n < m < |structured| :: Get(structured[m], "evidence_id") != Str(id)
  }

  ghost predicate Known(structured: seq<Record>, id: string) {
    exists item :: item in structured && Get(item, "evidence_id") == Str(id)
  }

  lemma {:induction false} ByIdIs(structured: seq<Record>, id: string)
    ensures ById(structured, id).Some? <==> Known(structured, id)
    ensures ById(structured, id).Some? ==> Latest(structured, id, ById(structured, id).value)
  {
    hide Get;
    if structured != [] {
      var n := |structured| - 1;
      assert structured == structured[..n] + [structured[n]];
      ByIdIs(structured[..n], id);
      if Get(structured[n], "evidence_id") == Str(id) {
        assert structured[n] in structured;
        assert Latest(structured, id, structured[n]);
      } else if ById(structured, id).Some? {
        var item := ById(structured, id).value;
        var k: nat :| k < n && structured[..n][k] == item && Get(item, "evidence_id") == Str(id)
          && forall m | k < m < n :: Get(structured[..n][m], "evidence_id") != Str(id);
        assert structured[k] == item;
        forall m | k < m < |structured|
          ensures Get(structured[m], "evidence_id") != Str(id)
        {
          if m < n { assert structured[..n][m] == structured[m]; }
        }
      }
    }
  }

  lemma {:induction false} ItemsByIdAre(structured: seq<Record>, ids: seq<string>)
    ensures ItemsById(structured, ids).Some? <==> forall id | id in ids :: Known(structured, id)
    ensures ItemsById(structured, ids).Some? ==>
      var items := ItemsById(structured, ids).value;
      |items| == |ids| && forall i | 0 <= i < |ids| :: Latest(structured, ids[i], items[i])
  {
    hide Get, Latest;
    if ids != [] {
      ByIdIs(structured, ids[0]);
      ItemsByIdAre(structured, ids[1..]);
      assert forall id :: id in ids <==> id == ids[0] || id in ids[1..];
    }
  }

  /** What a claim of the retired shape must be before its text is looked at. */
  ghost predicate WellFormed(st: Setting, claim: LegacyClaim) {
    claim.LegacyClaim? && claim.ids.Some? && claim.ids.value != [] && forall id | id in claim.ids.value :: Known(st.structured, id)
  }

  /**
   The evidence of a claim of the retired shape: the latest record of each id it names, one of which has the type it
   claims; otherwise the first thing that is wrong with it.
   */
  lemma ClaimItemsAre(st: Setting, claim: LegacyClaim)
    ensures var r := ClaimItems(st, claim);
      && (claim.Malformed? ==> r == Refuse("malformed_claim"))
      && (claim.LegacyClaim? && !WellFormed(st, claim) ==> r == Refuse("unsupported_evidence_id"))
      && (WellFormed(st, claim) ==>
            match r
            case Ok(items) =>
              && |items| == |claim.ids.value|
              && (forall i | 0 <= i < |items| :: Latest(st.structured, claim.ids.value[i], items[i]))
              && exists item :: item in items && Get(item, "type") == claim.claimType
            case Refuse(reason) =>
              && reason == "unsupported_claim_type"
              && exists items: seq<Record> :: |items| == |claim.ids.value|
                   && (forall i | 0 <= i < |items| :: Latest(st.structured, claim.ids.value[i], items[i]))
                   && forall item | item in items :: Get(item, "type") != claim.claimType)
  {
    hide Get, Latest, ItemsById, Known;
    if claim.LegacyClaim? && claim.ids.Some? {
      ItemsByIdAre(st.structured, claim.ids.value);
    }
  }

  /** A claim of the retired shape stands: its evidence is in order and its text is accepted against it. */
  predicate Stands(st: Setting, claim: LegacyClaim) {
    claim.LegacyClaim? && ClaimItems(st, claim).Ok? && Judge(st.u, st.policy, claim.text, ClaimItems(st, claim).value).Accept?
  }

  /** Why a claim does not stand. */
  predicate Fault(st: Setting, claim: LegacyClaim, reason: string) {
    || ClaimItems(st, claim) == Refuse(reason)
    || (&& claim.LegacyClaim? && ClaimItems(st, claim).Ok?
        && match Judge(st.u, st.policy, claim.text, ClaimItems(st, claim).value)
           case Accept(_) => false
           case Drop => reason == "unsupported_numeric_claim"
           case Abort(why) => reason == why)
  }

  /** The evidence of the last claim with that text. */
  ghost predicate LastClaim(st: Setting, claims: seq<LegacyClaim>, text: string, items: seq<Record>) {
    exists n: nat :: n < |claims| && claims[n].LegacyClaim? && claims[n].text == text
      && ClaimItems(st, claims[n]) == Ok(items)
      && forall m | n < m < |claims| :: !(claims[m].LegacyClaim? && claims[m].text == text)
  }

  predicate Claimed(claims: seq<LegacyClaim>, text: string) {
    exists claim | claim in claims :: claim.LegacyClaim? && claim.text == text
  }

  /** All claims stand, or the first that does not refuses the answer. */
  lemma {:induction false} LegacyScopesAre(st: Setting, claims: seq<LegacyClaim>, scopes: Scopes)
    ensures match LegacyScopes(st, claims, scopes)
      case Ok(found) =>
        && (forall claim | claim in claims :: Stands(st, claim))
        && (forall text :: text in found <==> text in scopes || Claimed(claims, text))
        && (forall text | text in found ::
              if Claimed(claims, text) then LastClaim(st, claims, text, found[text])
              else text in scopes && found[text] == scopes[text])
      case Refuse(reason) =>
        exists n: nat :: n < |claims| && Fault(st, claims[n], reason) && forall m | 0 <= m < n :: Stands(st, claims[m])
    decreases |claims|
  {
    hide Judge, ClaimItems;
    if claims != [] {
      var claim, rest := claims[0], claims[1..];
      assert claims == [claim] + rest;
      if claim.Malformed? { MalformedRefused(st, claim); }
      if Stands(st, claim) {
        var items := ClaimItems(st, claim).value;
        var next := scopes[claim.text := items];
        LegacyScopesAre(st, rest, next);
        match LegacyScopes(st, claims, scopes) {
          case Ok(found) =>
            ClaimedHead(claims);
            forall text | text in found
              ensures if Claimed(claims, text) then LastClaim(st, claims, text, found[text])
                      else text in scopes && found[text] == scopes[text]
            {
              LastOf(st, claims, scopes, found, text);
            }
          case Refuse(reason) =>
            var n: nat :| n < |rest| && Fault(st, rest[n], reason) && forall m | 0 <= m < n :: Stands(st, rest[m]);
            assert Fault(st, claims[n + 1], reason) && forall m | 0 <= m < n + 1 :: Stands(st, claims[m]);
        }
      } else {
        assert exists reason :: LegacyScopes(st, claims, scopes) == Refuse(reason) && Fault(st, claims[0], reason);
      }
    }
  }

  lemma ClaimedHead(claims: seq<LegacyClaim>)
    requires claims != [] && claims[0].LegacyClaim?
    ensures forall text :: Claimed(claims, text) <==> text == claims[0].text || Claimed(claims[1..], text)
  {
    assert forall claim :: claim in claims <==> claim == claims[0] || claim in claims[1..];
  }

  lemma MalformedRefused(st: Setting, claim: LegacyClaim)
    requires claim.Malformed?
    ensures ClaimItems(st, claim) == Refuse("malformed_claim")
  {}

  lemma LastOf(st: Setting, claims: seq<LegacyClaim>, scopes: Scopes, found: Scopes, text: string)
    requires claims != [] && Stands(st, claims[0]) && text in found
    requires var claim, rest := claims[0], claims[1..];
      var next := scopes[claim.text := ClaimItems(st, claim).value];
      if Claimed(rest, text) then LastClaim(st, rest, text, found[text]) else text in next && found[text] == next[text]
    ensures if Claimed(claims, text) then LastClaim(st, claims, text, found[text])
            else text in scopes && found[text] == scopes[text]
  {
    hide Judge, ClaimItems;
    var claim, rest := claims[0], claims[1..];
    assert claims == [claim] + rest;
    if Claimed(rest, text) {
      var n: nat :| n < |rest| && rest[n].LegacyClaim? && rest[n].text == text && ClaimItems(st, rest[n]) == Ok(found[text])
        && forall m | n < m < |rest| :: !(rest[m].LegacyClaim? && rest[m].text == text);
      assert claims[n + 1] == rest[n];
      forall m | n + 1 < m < |claims|
        ensures !(claims[m].LegacyClaim? && claims[m].text == text)
      {
        assert claims[m] == rest[m - 1];
      }
    } else if claim.text == text {
      forall m | 0 < m < |claims|
        ensures !(claims[m].LegacyClaim? && claims[m].text == text)
      {
        assert claims[m] == rest[m - 1] && rest[m - 1] in rest;
      }
      assert ClaimItems(st, claims[0]) == Ok(found[text]);
    }
  }

  // ---------- the sentences ----------

  /** The evidence of a sentence: that of the last claim with its text, and the scope of the sentence without one. */
  lemma ItemsForIs(st: Setting, claims: seq<LegacyClaim>, fragment: string)
    requires LegacyScopes(st, claims, map[]).Ok?
    ensures var items := ItemsFor(st, LegacyScopes(st, claims, map[]).value, fragment);
      if Claimed(claims, fragment) then LastClaim(st, claims, fragment, items)
      else items == Scope(st.u, st.policy, fragment, st.structured, st.rows, st.target)
  {
    hide Scope, LegacyScopes, ItemsById, Known, Latest;
    LegacyScopesAre(st, claims, map[]);
    var scopes := LegacyScopes(st, claims, map[]).value;
    if Claimed(claims, fragment) {
      var n: nat :| n < |claims| && claims[n].LegacyClaim? && ClaimItems(st, claims[n]) == Ok(scopes[fragment]);
      ClaimItemsAre(st, claims[n]);
    }
  }

  /** The sentence check of the answer is that of the sentence, and for the risk intent its shortage wording too. */
  lemma SentenceIs(st: Setting, scopes: Scopes, fragment: string)
    ensures var items := ItemsFor(st, scopes, fragment);
      var j, judged := JudgeSentence(st, scopes, fragment), Judge(st.u, st.policy, fragment, items);
      && (forall t :: j == Accept(t) <==> judged == Accept(t) && (st.risk ==> st.policy.shortage(t, items).None?))
      && (j == Drop <==> judged == Drop)
      && (forall reason :: j == Abort(reason) <==>
            judged == Abort(reason) || (judged.Accept? && st.risk && st.policy.shortage(judged.text, items) == Some(reason)))
  {
    hide Judge, ItemsFor;
  }

  /**
   The sentences that are kept are the accepted ones, with their final texts and evidence; the first sentence that must
   refuse the answer does.
   */
  lemma {:induction false} WalkIs(st: Setting, scopes: Scopes, fragments: seq<string>, i: nat)
    requires i <= |fragments|
    ensures match Walk(st, scopes, fragments, i)
      case Ok(kept) =>
        && InOrder(kept)
        && (forall j | i <= j < |fragments| :: !JudgeSentence(st, scopes, fragments[j]).Abort?)
        && forall k :: k in kept <==>
             && i <= k.index < |fragments| && JudgeSentence(st, scopes, fragments[k.index]) == Accept(k.text)
             && k.items == ItemsFor(st, scopes, fragments[k.index])
      case Refuse(reason) =>
        exists n :: i <= n < |fragments| && JudgeSentence(st, scopes, fragments[n]) == Abort(reason)
          && forall j | i <= j < n :: !JudgeSentence(st, scopes, fragments[j]).Abort?
    decreases |fragments| - i
  {
    hide JudgeSentence, ItemsFor;
    if i < |fragments| {
      WalkIs(st, scopes, fragments, i + 1);
      if JudgeSentence(st, scopes, fragments[i]).Abort? {
        assert i <= i < |fragments|;
      }
    }
  }

  // ---------- the response ----------

  /** The ids a record answers to: its list of sources if it has one, its own id if it has none. */
  predicate Cites(item: Record, id: string) {
    if Has(item, "evidence_ids") then Get(item, "evidence_ids").List? && Str(id) in Get(item, "evidence_ids").items
    else id == Show(Get(item, "evidence_id"))
  }

  lemma SourceIdsAre(items: seq<Record>, id: string)
    ensures id in SourceIds(items) <==> exists item :: item in items && Cites(item, id)
  {
    hide Get, SourceIds, Has;
    SourceIdsComplete(items);
    forall item | item in items
      ensures id in SourceIdsOf(item) <==> Cites(item, id)
    {
      if Get(item, "evidence_ids").List? { FieldAuthority.StringsMember(Get(item, "evidence_ids").items, id); }
    }
  }

  ghost predicate Sourced(k: Kept) {
    exists id :: id in SourceIds(k.items)
  }

  /** A kept sentence's claim has the type of the first record it was checked against. */
  predicate ClaimTyped(k: Kept, c: Claim) {
    && c.value == k.text
    && c.claimType == if k.items != [] && Has(k.items[0], "type") then Show(Get(k.items[0], "type")) else "FACT"
  }

  ghost predicate ClaimFor(k: Kept, c: Claim) {
    ClaimTyped(k, c) && Enumerates(c.evidenceIds, SourceIds(k.items), StrLeq)
  }

  lemma ClaimOfIs(k: Kept)
    ensures if Sourced(k) then |ClaimOf(k)| == 1 && ClaimFor(k, ClaimOf(k)[0]) else ClaimOf(k) == []
  {
    hide SourceIds, Get, Has;
    ClaimCitesItsEvidence(k);
  }

  /** Each kept sentence with sources makes one claim, in order. */
  ghost predicate Matches(kept: seq<Kept>, claims: seq<Claim>)
    decreases |kept|
  {
    if kept == [] then claims == []
    else if Sourced(kept[0]) then claims != [] && ClaimFor(kept[0], claims[0]) && Matches(kept[1..], claims[1..])
    else Matches(kept[1..], claims)
  }

  lemma {:induction false} ClaimsMatch(kept: seq<Kept>)
    ensures Matches(kept, ClaimsOf(kept))
    decreases |kept|
  {
    hide ClaimOf, Sourced, ClaimFor;
    if kept != [] {
      ClaimOfIs(kept[0]);
      ClaimsMatch(kept[1..]);
      assert ClaimsOf(kept) == ClaimOf(kept[0]) + ClaimsOf(kept[1..]);
      if Sourced(kept[0]) {
        assert ClaimsOf(kept)[1..] == ClaimsOf(kept[1..]);
      } else {
        assert ClaimsOf(kept) == ClaimsOf(kept[1..]);
      }
    }
  }

  // ---------- the answer ----------

  predicate Foreign(st: Setting, item: Record) {
    item in st.structured && Truthy(Get(item, "ingredient_id")) && Get(item, "ingredient_id") != Str(st.target)
  }

  lemma OffTargetIff(st: Setting)
    ensures OffTarget(st) <==> st.target != "" && exists item :: Foreign(st, item)
  {
    hide Get, Truthy;
    if st.target != "" && exists item :: Foreign(st, item) {
      var item :| Foreign(st, item);
      assert item in st.structured && Truthy(Get(item, "ingredient_id")) && Get(item, "ingredient_id") != Str(st.target);
    }
    if OffTarget(st) {
      var item :| item in st.structured && Truthy(Get(item, "ingredient_id")) && Get(item, "ingredient_id") != Str(st.target);
      assert Foreign(st, item);
    }
  }

  /** What the guard answers, over every draft: the first failing check's reason, or the kept sentences and their claims. */
  lemma GuardedIs(st: Setting, draft: Draft, evidence: seq<string>)
    ensures var r := Guarded(st, draft, evidence);
      if draft.answer.None? || Strip(st.u, draft.answer.value) == "" then r == Refuse("malformed_qwen_output")
      else if st.target != "" && exists item :: Foreign(st, item) then r == Refuse("target_evidence_entity_mismatch")
      else match LegacyScopes(st, draft.claims, map[])
        case Refuse(reason) => r == Refuse(reason)
        case Ok(scopes) =>
          match Walk(st, scopes, Fragments(st.u, draft.answer.value), 0)
          case Refuse(reason) => r == Refuse(reason)
          case Ok(kept) =>
            if Strip(st.u, Join(" ", Texts(kept))) == "" then r == Refuse("material_unsupported_numeric_answer")
            else r.Ok? && r.value.accepted == kept && Matches(kept, r.value.claims)
  {
    hide Get, Walk, LegacyScopes, Fragments, Strip, Join, Matches, Truthy, ClaimsOf, OffTarget;
    if draft.answer.Some? && LegacyScopes(st, draft.claims, map[]).Ok? {
      var walked := Walk(st, LegacyScopes(st, draft.claims, map[]).value, Fragments(st.u, draft.answer.value), 0);
      if walked.Ok? { ClaimsMatch(walked.value); }
    }
    OffTargetIff(st);
  }
}
