/**
 When a sentence's number is replaced and by what, said of the registry's facts: `_repair_numeric_text` of
 app/decision_intelligence/narrative.py.
 */
module RepairLaws {
  import opened Text
  import opened Records
  import opened Ordering
  import opened NumericAuthority
  import opened NumberCheck

  // ---------- the sole unauthorised mention ----------

  /** The mention at `i` is the only one that no fact strictly authorises. */
  ghost predicate Sole(ms: seq<Mention>, registry: seq<Fact>, i: nat) {
    && i < |ms| && !Authorized(ms[i].parsed, registry, false)
    && forall j | 0 <= j < |ms| && j != i :: Authorized(ms[j].parsed, registry, false)
  }

  lemma {:induction false} NoneBad(ms: seq<Mention>, bad: Mention -> bool)
    ensures Filter(ms, bad) == [] <==> forall j | 0 <= j < |ms| :: !bad(ms[j])
  {
    if ms != [] {
      NoneBad(ms[1..], bad);
      assert forall j | 0 <= j < |ms[1..]| :: ms[1..][j] == ms[j + 1];
      assert (forall j | 0 <= j < |ms| :: !bad(ms[j])) <==> !bad(ms[0]) && forall j | 0 <= j < |ms[1..]| :: !bad(ms[1..][j]);
    }
  }

  ghost predicate Only(ms: seq<Mention>, bad: Mention -> bool, i: nat) {
    i < |ms| && bad(ms[i]) && forall j | 0 <= j < |ms| && j != i :: !bad(ms[j])
  }

  lemma {:induction false} OneBad(ms: seq<Mention>, bad: Mention -> bool)
    ensures |Filter(ms, bad)| == 1 <==> exists i: nat :: Only(ms, bad, i)
    ensures forall i: nat | Only(ms, bad, i) :: Filter(ms, bad) == [ms[i]]
  {
    if ms != [] {
      OneBad(ms[1..], bad);
      NoneBad(ms[1..], bad);
      assert forall j | 0 <= j < |ms[1..]| :: ms[1..][j] == ms[j + 1];
      forall i: nat | Only(ms, bad, i)
        ensures Filter(ms, bad) == [ms[i]]
      {
        if i > 0 { assert Only(ms[1..], bad, i - 1); }
      }
      if |Filter(ms, bad)| == 1 {
        if bad(ms[0]) {
          assert Filter(ms[1..], bad) == [];
          assert Only(ms, bad, 0);
        } else {
          var i: nat :| Only(ms[1..], bad, i);
          assert Only(ms, bad, i + 1);
        }
      }
    }
  }

  lemma SoleIff(u: Unicode, text: string, registry: seq<Fact>)
    ensures |Bad(u, text, registry)| == 1 <==> exists i: nat :: Sole(Mentions(u, text), registry, i)
    ensures forall i: nat | Sole(Mentions(u, text), registry, i) :: Bad(u, text, registry) == [Mentions(u, text)[i]]
  {
    hide Mentions, Authorized, Filter;
    var ms := Mentions(u, text);
    var bad := (m: Mention) => !Authorized(m.parsed, registry, false);
    OneBad(ms, bad);
    forall i: nat
      ensures Only(ms, bad, i) <==> Sole(ms, registry, i)
    {
    }
  }

  // ---------- which facts may take its place ----------

  /** Of the mention's kind, if it has one, and of a quantity's unit, if both have one. */
  predicate Suits(m: Parsed, f: Fact) {
    && (m.kind.Some? ==> Some(f.kind) == m.kind)
    && (m.kind == Some(Quantity) && m.unit.Some? && f.unit.Some? ==> f.unit == m.unit)
  }

  predicate SaysOver(context: string) {
    ContainsAny(context, ["vượt", "over by", "overage"])
  }

  predicate SaysLeft(context: string) {
    ContainsAny(context, ["còn", "remaining", "left"])
  }

  predicate SaysSpend(context: string) {
    ContainsAny(context, ["dự kiến chi", "planned spend", "chi phí", "costs", "purchase cost"])
  }

  predicate SaysBudget(context: string) {
    ContainsAny(context, ["ngân sách", "budget limit", "budget cap"])
  }

  /** The keys that the first hint in the sentence points at. */
  predicate Pointed(context: string, key: string) {
    || (key == "over_by" && SaysOver(context))
    || (key == "remaining_budget" && SaysLeft(context) && !SaysOver(context))
    || ((key == "planned_spend" || key == "purchase_cost") && SaysSpend(context) && !SaysOver(context) && !SaysLeft(context))
    || (&& key == "budget_limit" && SaysBudget(context)
        && !SaysOver(context) && !SaysLeft(context) && !SaysSpend(context))
  }

  /** A suitable fact; if some suitable fact is pointed at, one that is. */
  ghost predicate Eligible(context: string, registry: seq<Fact>, m: Parsed, f: Fact) {
    && f in registry && Suits(m, f)
    && ((exists g :: g in registry && Suits(m, g) && Pointed(context, g.key)) ==> Pointed(context, f.key))
  }

  ghost predicate Alike(a: Fact, b: Fact) {
    a.value == b.value && a.kind == b.kind && a.unit == b.unit
  }

  // ---------- filters of facts ----------

  lemma {:induction false} FilterTwice(s: seq<Fact>, p: Fact -> bool, k: Fact -> bool)
    ensures Filter(Filter(s, p), k) == Filter(s, (f: Fact) => p(f) && k(f))
  {
    if s != [] {
      FilterTwice(s[1..], p, k);
      var kept := Filter(s, p);
      assert p(s[0]) ==> kept[0] == s[0] && kept[1..] == Filter(s[1..], p);
    }
  }

  lemma {:induction false} FilterAgree(s: seq<Fact>, p: Fact -> bool, r: Fact -> bool)
    requires forall f | f in s :: p(f) == r(f)
    ensures Filter(s, p) == Filter(s, r)
  {
    if s != [] {
      assert s[0] in s && forall f | f in s[1..] :: f in s;
      FilterAgree(s[1..], p, r);
    }
  }

  lemma SameKindIs(m: Parsed, registry: seq<Fact>)
    ensures SameKind(m, registry) == Filter(registry, (f: Fact) => Suits(m, f))
  {
    hide Filter;
    var kind := (f: Fact) => m.kind.None? || f.kind == m.kind.value;
    var unit := (f: Fact) => f.unit.None? || f.unit == m.unit;
    FilterTwice(registry, kind, unit);
    if m.kind == Some(Quantity) && m.unit.Some? {
      FilterAgree(registry, (f: Fact) => kind(f) && unit(f), (f: Fact) => Suits(m, f));
    } else {
      FilterAgree(registry, kind, (f: Fact) => Suits(m, f));
    }
  }

  lemma HintedIs(context: string, candidates: seq<Fact>)
    ensures var narrowed := Filter(candidates, (f: Fact) => Pointed(context, f.key));
      Hinted(context, candidates, KEY_HINTS) == if narrowed != [] then narrowed else candidates
  {
    hide Filter, ContainsAny;
    var point := (f: Fact) => Pointed(context, f.key);
    HintStep(context, candidates, 0);
    HintStep(context, candidates, 1);
    HintStep(context, candidates, 2);
    HintStep(context, candidates, 3);
    assert KEY_HINTS[4..] == [] && KEY_HINTS[0..] == KEY_HINTS;
    if SaysOver(context) {
      FilterAgree(candidates, (f: Fact) => f.key in KEY_HINTS[0].1, point);
    } else if SaysLeft(context) {
      FilterAgree(candidates, (f: Fact) => f.key in KEY_HINTS[1].1, point);
    } else if SaysSpend(context) {
      FilterAgree(candidates, (f: Fact) => f.key in KEY_HINTS[2].1, point);
    } else if SaysBudget(context) {
      FilterAgree(candidates, (f: Fact) => f.key in KEY_HINTS[3].1, point);
    } else {
      FilterMember(candidates, point);
      HeadIn(Filter(candidates, point));
    }
  }

  lemma HintStep(context: string, candidates: seq<Fact>, h: nat)
    requires h < |KEY_HINTS|
    ensures Hinted(context, candidates, KEY_HINTS[h..])
         == if ContainsAny(context, KEY_HINTS[h].0) then
              var narrowed := Filter(candidates, (f: Fact) => f.key in KEY_HINTS[h].1);
              if narrowed != [] then narrowed else candidates
            else Hinted(context, candidates, KEY_HINTS[h + 1..])
  {
    hide Filter, ContainsAny;
    Suffix(KEY_HINTS, h);
  }

  /** The candidates are the eligible facts of the registry, in order. */
  lemma CandidatesAre(u: Unicode, text: string, registry: seq<Fact>, m: Mention)
    ensures Candidates(u, text, registry, m) == Filter(registry, (f: Fact) => Eligible(Fold(u, text), registry, m.parsed, f))
  {
    hide Filter, Fold, Suits, Pointed, SameKind, Hinted, KEY_HINTS;
    var context, p := Fold(u, text), m.parsed;
    var suit, point := (f: Fact) => Suits(p, f), (f: Fact) => Pointed(context, f.key);
    var both, eligible := (f: Fact) => suit(f) && point(f), (f: Fact) => Eligible(context, registry, p, f);
    SameKindIs(p, registry);
    HintedIs(context, Filter(registry, suit));
    FilterTwice(registry, suit, point);
    FilterMember(registry, both);
    HeadIn(Filter(registry, both));
    if exists g :: g in registry && Suits(p, g) && Pointed(context, g.key) {
      var g :| g in registry && Suits(p, g) && Pointed(context, g.key);
      assert g in Filter(registry, both);
      FilterAgree(registry, both, eligible);
    } else {
      FilterAgree(registry, suit, eligible);
    }
  }

  // ---------- the repair ----------

  /** The eligible facts state one value. */
  ghost predicate Agreed(context: string, registry: seq<Fact>, m: Parsed) {
    && (exists f :: Eligible(context, registry, m, f))
    && forall f, g | Eligible(context, registry, m, f) && Eligible(context, registry, m, g) :: Alike(f, g)
  }

  lemma AgreedIff(u: Unicode, text: string, registry: seq<Fact>, m: Mention)
    ensures Unambiguous(Candidates(u, text, registry, m)) <==> Agreed(Fold(u, text), registry, m.parsed)
  {
    hide Filter, Fold, Eligible, Candidates;
    var context := Fold(u, text);
    CandidatesAre(u, text, registry, m);
    FilterMember(registry, (f: Fact) => Eligible(context, registry, m.parsed, f));
    var cs := Candidates(u, text, registry, m);
    assert forall f :: f in cs <==> Eligible(context, registry, m.parsed, f) by { EligibleIn(context, registry, m.parsed); }
    HeadIn(cs);
  }

  lemma EligibleIn(context: string, registry: seq<Fact>, m: Parsed)
    ensures forall f :: Eligible(context, registry, m, f) ==> f in registry
  {}

  /** The last eligible fact of the registry. */
  ghost predicate LastEligible(context: string, registry: seq<Fact>, m: Parsed, k: nat) {
    && k < |registry| && Eligible(context, registry, m, registry[k])
    && forall j | k < j < |registry| :: !Eligible(context, registry, m, registry[j])
  }

  lemma {:induction false} LastKept(s: seq<Fact>, keep: Fact -> bool, k: nat)
    requires k < |s| && keep(s[k]) && forall j | k < j < |s| :: !keep(s[j])
    ensures var kept := Filter(s, keep); kept != [] && kept[|kept| - 1] == s[k]
  {
    if k == 0 {
      NoneKept(s[1..], keep);
    } else {
      LastKept(s[1..], keep, k - 1);
    }
  }

  lemma {:induction false} NoneKept(s: seq<Fact>, keep: Fact -> bool)
    requires forall j | 0 <= j < |s| :: !keep(s[j])
    ensures Filter(s, keep) == []
  {
    if s != [] { NoneKept(s[1..], keep); }
  }

  lemma RepairedWhenSole(u: Unicode, text: string, payloads: seq<Record>, i: nat)
    requires Sole(Mentions(u, text), Authority(u, payloads), i)
    ensures var m, registry := Mentions(u, text)[i], Authority(u, payloads);
      Repaired(u, text, payloads).Some? <==> Agreed(Fold(u, text), registry, m.parsed)
  {
    hide Mentions, Authority, Bad, Authorized, Candidates, Unambiguous, Agreed, RenderFact, Fold, Spliced;
    var ms, registry := Mentions(u, text), Authority(u, payloads);
    SoleIff(u, text, registry);
    AgreedIff(u, text, registry, ms[i]);
  }

  /**
   A sentence is repaired exactly when one of its mentions is not strictly authorised and the facts that may take its place
   are not empty and state one value, kind and unit.
   */
  lemma RepairedIff(u: Unicode, text: string, payloads: seq<Record>)
    ensures var ms, registry := Mentions(u, text), Authority(u, payloads);
      Repaired(u, text, payloads).Some? <==>
        exists i: nat :: Sole(ms, registry, i) && Agreed(Fold(u, text), registry, ms[i].parsed)
  {
    hide Mentions, Authority, Bad, Authorized, Candidates, Unambiguous, Agreed, RenderFact, Fold, Spliced;
    var ms, registry := Mentions(u, text), Authority(u, payloads);
    SoleIff(u, text, registry);
    forall i: nat | Sole(ms, registry, i)
      ensures Repaired(u, text, payloads).Some? <==> Agreed(Fold(u, text), registry, ms[i].parsed)
    {
      RepairedWhenSole(u, text, payloads, i);
    }
  }

  /** Then the mention, and nothing else, is replaced by the rendering of the last fact that may take its place. */
  lemma RepairedIs(u: Unicode, text: string, payloads: seq<Record>, i: nat, k: nat)
    requires var ms, registry := Mentions(u, text), Authority(u, payloads);
      && Sole(ms, registry, i) && Agreed(Fold(u, text), registry, ms[i].parsed)
      && LastEligible(Fold(u, text), registry, ms[i].parsed, k)
    ensures var m, fact := Mentions(u, text)[i], Authority(u, payloads)[k];
      && m.start < m.end <= |text|
      && Repaired(u, text, payloads) == Some(text[..m.start] + RenderFact(u, fact) + text[m.end..])
  {
    hide Mentions, Authority, Bad, Candidates, Unambiguous, Agreed, RenderFact, Fold, Eligible, Filter, Authorized;
    var ms, registry := Mentions(u, text), Authority(u, payloads);
    var m := ms[i];
    SoleIff(u, text, registry);
    AgreedIff(u, text, registry, m);
    CandidatesAre(u, text, registry, m);
    LastKept(registry, (f: Fact) => Eligible(Fold(u, text), registry, m.parsed, f), k);
    assert m in ms;
    MentionInside(u, text, m);
    assert text[0..m.start] == text[..m.start] && text[m.end..|text|] == text[m.end..];
  }

  lemma MentionInside(u: Unicode, text: string, m: Mention)
    requires m in Mentions(u, text)
    ensures m.start < m.end <= |text|
  {
    hide Matches, ParsedMentions;
    MentionBounds(u, text, Matches(u, text, 0));
  }

  /** Without a fact of its kind and unit a number is never replaced. */
  lemma NothingSuits(u: Unicode, text: string, payloads: seq<Record>, i: nat)
    requires Sole(Mentions(u, text), Authority(u, payloads), i)
    requires forall f | f in Authority(u, payloads) :: !Suits(Mentions(u, text)[i].parsed, f)
    ensures Repaired(u, text, payloads) == None
  {
    hide Mentions, Authority, Authorized, Suits, Fold;
    RepairedWhenSole(u, text, payloads, i);
  }
}
