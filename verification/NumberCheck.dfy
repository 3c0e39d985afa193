/**
 Checking and repairing the numbers of one sentence: `_validate_numbers`, `_is_authorized_numeric` and
 `_repair_numeric_text` of app/decision_intelligence/narrative.py.
 */
module NumberCheck {
  import opened Text
  import opened Records
  import opened Ordering
  import opened NumericAuthority
  import Decimals
  import MatchReading

  datatype Verdict = Pass | Unsupported | Fatal(reason: string)

  // ---------- what is blanked before numbers are looked for ----------

  const EN_DASH := "–"

  /** str(value) of every display value of one item that contains an en dash */
  function RangesIn(fields: Record): seq<string> {
    if fields == [] then []
    else (if Contains(Show(fields[0].1), EN_DASH) then [Show(fields[0].1)] else []) + RangesIn(fields[1..])
  }

  function SuppliedRanges(payloads: seq<Record>): seq<string> {
    if payloads == [] then []
    else (match Get(payloads[0], "display_values") case Dict(fields) => RangesIn(fields) case _ => [])
         + SuppliedRanges(payloads[1..])
  }

  /** Each supplied range, in order, replaced by a space. */
  function BlankRanges(text: string, ranges: seq<string>): string
    decreases |ranges|
  {
    if ranges == [] then text
    else BlankRanges(if ranges[0] == "" then text else ReplaceFrom(text, ranges[0], " ", 0), ranges[1..])
  }

  predicate DigitsAt(u: Unicode, s: string, i: nat, n: nat) {
    i + n <= |s| && forall k | i <= k < i + n :: u.digit(s[k]) >= 0
  }

  /** \b\d{4}-\d{2}-\d{2}\b|\b\d{1,2}/\d{1,2}\b at `i`: where the match ends. */
  function DateEnd(u: Unicode, s: string, i: nat): (e: Option<nat>)
    requires i <= |s|
    ensures e.Some? ==> i < e.value <= |s|
  {
    if !Boundary(u, s, i) then None
    else if DigitsAt(u, s, i, 4) && At(s, i + 4, "-") && DigitsAt(u, s, i + 5, 2) && At(s, i + 7, "-")
            && DigitsAt(u, s, i + 8, 2) && Boundary(u, s, i + 10) then Some(i + 10)
    else if DigitsAt(u, s, i, 2) && At(s, i + 2, "/") then DayEnd(u, s, i + 3)
    else if DigitsAt(u, s, i, 1) && At(s, i + 1, "/") then DayEnd(u, s, i + 2)
    else None
  }

  /** \d{1,2}\b at `i` */
  function DayEnd(u: Unicode, s: string, i: nat): (e: Option<nat>)
    requires i <= |s|
    ensures e.Some? ==> i < e.value <= |s|
  {
    if DigitsAt(u, s, i, 2) && Boundary(u, s, i + 2) then Some(i + 2)
    else if DigitsAt(u, s, i, 1) && Boundary(u, s, i + 1) then Some(i + 1)
    else None
  }

  /** re.sub of the dates by a space, from position `i` on */
  function BlankDates(u: Unicode, s: string, i: nat): string
    requires i <= |s|
    decreases |s| - i
  {
    if i == |s| then ""
    else match DateEnd(u, s, i)
      case Some(e) => " " + BlankDates(u, s, e)
      case None => [s[i]] + BlankDates(u, s, i + 1)
  }

  /** protected_text */
  function Protected(u: Unicode, text: string, payloads: seq<Record>): string {
    BlankDates(u, BlankRanges(text, SuppliedRanges(payloads)), 0)
  }

  // ---------- the check ----------

  const APPROXIMATE_WORDS := ["khoảng", "xấp xỉ", "gần", "approximately", "about", "around"]
  const AVERAGE_WORDS := ["trung bình", "average", "mean"]

  predicate RangeContradicted(u: Unicode, text: string, payloads: seq<Record>) {
    ContainsAny(text, SuppliedRanges(payloads)) && ContainsAny(Lower(u, text), AVERAGE_WORDS)
  }

  /** A four-digit mention followed by a hyphen; the hyphen is looked up in `text` at the mention's offset in the protected text. */
  predicate YearDash(u: Unicode, text: string, m: Mention) {
    |m.text| == 4 && DigitsAt(u, m.text, 0, 4) && At(text, m.end, "-")
  }

  /** An approximating word in the sixteen characters of `text` before the mention's offset in the protected text. */
  predicate Approximated(u: Unicode, text: string, m: Mention) {
    ContainsAny(Lower(u, Slice(text, if m.start < 16 then 0 else m.start - 16, m.start)), APPROXIMATE_WORDS)
  }

  predicate MentionPasses(u: Unicode, text: string, registry: seq<Fact>, m: Mention) {
    YearDash(u, text, m) || Authorized(m.parsed, registry, Approximated(u, text, m))
  }

  predicate MentionsPass(u: Unicode, text: string, registry: seq<Fact>, ms: seq<Mention>) {
    forall m | m in ms :: MentionPasses(u, text, registry, m)
  }

  /** The outcome of _validate_numbers */
  function NumbersVerdict(u: Unicode, text: string, payloads: seq<Record>): Verdict {
    if RangeContradicted(u, text, payloads) then Fatal("range_semantics_contradicted")
    else if MentionsPass(u, text, Authority(u, payloads), Mentions(u, Protected(u, text, payloads))) then Pass
    else Unsupported
  }

  lemma Suffix<T>(s: seq<T>, i: nat)
    requires i < |s|
    ensures s[i..] != [] && s[i..][0] == s[i] && s[i..][1..] == s[i + 1..]
  {}

  method CollectFieldFact(u: Unicode, item: Record, field: (string, Value)) returns (facts: seq<Fact>)
    ensures facts == FieldFact(u, item, field)
  {
    hide FactKind, ItemUnit, EvidenceId, FieldDisplay;
    facts := [];
    if field.1.Num? {
      var unit := ItemUnit(u, item);
      var kind := FactKind(u, field.0, field.1.n, unit);
      if kind.Some? {
        var (k, value, approximate) := kind.value;
        facts := [Fact(value, k, field.0, EvidenceId(item), if k == Quantity then unit else None,
                       FieldDisplay(item, field.0), approximate)];
      }
    }
  }

  method CollectFieldFacts(u: Unicode, item: Record) returns (facts: seq<Fact>)
    ensures facts == FieldFacts(u, item, EffectiveValues(item))
  {
    hide FieldFact, EffectiveValues;
    var fields := EffectiveValues(item);
    facts := [];
    for j := 0 to |fields|
      invariant facts + FieldFacts(u, item, fields[j..]) == FieldFacts(u, item, fields)
    {
      Suffix(fields, j);
      var found := CollectFieldFact(u, item, fields[j]);
      facts := facts + found;
    }
    assert fields[|fields|..] == [];
  }

  method CollectDisplayFact(u: Unicode, item: Record, display: string) returns (facts: seq<Fact>)
    ensures facts == DisplayFact(u, item, display)
  {
    hide ParseMention, LegacyFact;
    var parsed := ParseMention(u, display);
    facts := if parsed.Some? then [LegacyFact(u, item, display, parsed.value)] else [];
  }

  method CollectDisplayFacts(u: Unicode, item: Record) returns (facts: seq<Fact>)
    ensures facts == LegacyFacts(u, item, AllowedMentions(item))
  {
    hide DisplayFact, AllowedMentions;
    var displays := AllowedMentions(item);
    facts := [];
    for j := 0 to |displays|
      invariant facts + LegacyFacts(u, item, displays[j..]) == LegacyFacts(u, item, displays)
    {
      Suffix(displays, j);
      var found := CollectDisplayFact(u, item, displays[j]);
      facts := facts + found;
    }
    assert displays[|displays|..] == [];
  }

  lemma AuthorityStep(u: Unicode, evidence: seq<Record>, i: nat)
    requires i < |evidence|
    ensures Authority(u, evidence[i..]) == ItemFacts(u, evidence[i]) + Authority(u, evidence[i + 1..])
  {
    hide ItemFacts;
    Suffix(evidence, i);
  }

  /** build_numeric_authority: facts appended item by item, numeric fields first, display mentions after them */
  method BuildNumericAuthority(u: Unicode, evidence: seq<Record>) returns (facts: seq<Fact>)
    ensures facts == Authority(u, evidence)
  {
    hide FieldFacts, LegacyFacts, Authority;
    facts := [];
    for i := 0 to |evidence|
      invariant facts + Authority(u, evidence[i..]) == Authority(u, evidence)
    {
      AuthorityStep(u, evidence, i);
      ghost var before := facts;
      var own := CollectFieldFacts(u, evidence[i]);
      var displayed := CollectDisplayFacts(u, evidence[i]);
      facts := facts + own + displayed;
      assert facts == before + ItemFacts(u, evidence[i]);
    }
    NoAuthority(u);
    assert evidence[|evidence|..] == [];
  }

  lemma NoAuthority(u: Unicode)
    ensures Authority(u, []) == []
  {}

  /** _validate_numbers */
  method ValidateNumbers(u: Unicode, text: string, payloads: seq<Record>) returns (verdict: Verdict)
    ensures verdict == NumbersVerdict(u, text, payloads)
  {
    hide Authority, Mentions, BlankDates, YearDash, Approximated, Authorized, ContainsAny, ReplaceFrom, SuppliedRanges;
    var registry := BuildNumericAuthority(u, payloads);
    var ranges := SuppliedRanges(payloads);
    var blanked := text;
    for i := 0 to |ranges|
      invariant BlankRanges(blanked, ranges[i..]) == BlankRanges(text, ranges)
    {
      Suffix(ranges, i);
      if ranges[i] != "" { blanked := ReplaceFrom(blanked, ranges[i], " ", 0); }
    }
    assert ranges[|ranges|..] == [];
    var protected_ := BlankDates(u, blanked, 0);
    if ContainsAny(text, ranges) && ContainsAny(Lower(u, text), AVERAGE_WORDS) {
      return Fatal("range_semantics_contradicted");
    }
    var mentions := Mentions(u, protected_);
    for i := 0 to |mentions|
      invariant MentionsPass(u, text, registry, mentions[..i])
    {
      var m := mentions[i];
      if YearDash(u, text, m) {
        continue;
      }
      if !Authorized(m.parsed, registry, Approximated(u, text, m)) {
        assert m in mentions && !MentionPasses(u, text, registry, m);
        return Unsupported;
      }
    }
    assert mentions[..|mentions|] == mentions;
    return Pass;
  }

  // ---------- soundness of the check ----------

  /** Every digit from `i` on lies in a match or is directly preceded by a word character or a hyphen. */
  lemma {:induction false} DigitsMatched(u: Unicode, s: string, i: nat, p: nat)
    requires i <= p < |s| && u.digit(s[p]) >= 0
    ensures Shielded(u, s, p) || exists m :: m in Matches(u, s, i) && m.start <= p < m.end
    decreases |s| - i
  {
    if Starts(u, s, i) {
      var e := MatchEnd(u, s, i);
      assert Span(i, e) in Matches(u, s, i);
      if p >= e {
        DigitsMatched(u, s, e, p);
        assert forall m | m in Matches(u, s, e) :: m in Matches(u, s, i);
      }
    } else if p > i {
      DigitsMatched(u, s, i + 1, p);
    }
  }

  /** Matches start where a number token starts. */
  lemma {:induction false} MatchesStart(u: Unicode, s: string, i: nat)
    requires i <= |s|
    ensures forall m | m in Matches(u, s, i) :: m.start < |s| && Starts(u, s, m.start) && m.end == MatchEnd(u, s, m.start)
    decreases |s| - i
  {
    if i < |s| {
      if Starts(u, s, i) { MatchesStart(u, s, MatchEnd(u, s, i)); } else { MatchesStart(u, s, i + 1); }
    }
  }

  /** Mentions are exactly the matches that parse. */
  lemma {:induction false} MentionsAreParsedMatches(u: Unicode, s: string, spans: seq<Span>)
    requires forall m | m in spans :: m.start < m.end <= |s|
    ensures forall m | m in spans ::
      var text := s[m.start..m.end];
      ParseMention(u, text).Some? ==> Mention(ParseMention(u, text).value, text, m.start, m.end) in ParsedMentions(u, s, spans)
  {
    hide ParseMention;
    if spans != [] {
      MentionsAreParsedMatches(u, s, spans[1..]);
      assert spans == [spans[0]] + spans[1..];
    }
  }

  /** Why a digit of a checked sentence may stand. */
  datatype Standing =
    | Glued                               // glued to a preceding word character or hyphen
    | Unparsed(span: Span)                // inside a match whose token mixes one point and one comma
    | Year(m: Mention)                    // inside a four-digit mention with a hyphen at its offset in the sentence
    | Backed(m: Mention, fact: Fact)      // inside a mention that a fact of the evidence authorises

  ghost predicate Justifies(u: Unicode, text: string, payloads: seq<Record>, p: nat, why: Standing) {
    var s := Protected(u, text, payloads);
    && p < |s|
    && match why
       case Glued => Shielded(u, s, p)
       case Unparsed(span) =>
         && span in Matches(u, s, 0) && span.start <= p < span.end <= |s| && u.digit(s[span.start]) >= 0
         && var token := s[span.start..TokenEnd(u, s, span.start)];
         && Decimals.Count(token, '.') == 1 && Decimals.Count(token, ',') == 1
       case Year(m) => m in Mentions(u, s) && m.start <= p < m.end && YearDash(u, text, m)
       case Backed(m, fact) =>
         && m in Mentions(u, s) && m.start <= p < m.end
         && fact in Authority(u, payloads)
         && EquivalentOrRounded(m.parsed, fact, Approximated(u, text, m))
  }

  /**
   Soundness of the number check over every text: when it passes, each digit that is left after the
   supplied ranges and dates are blanked has one of the four standings.
   */
  lemma NumbersSound(u: Unicode, text: string, payloads: seq<Record>, p: nat)
    requires u.Valid() && u.Matching() && NumbersVerdict(u, text, payloads) == Pass
    requires var s := Protected(u, text, payloads); p < |s| && u.digit(s[p]) >= 0
    ensures exists why :: Justifies(u, text, payloads, p, why)
  {
    hide ParseMention, Protected, Authority, YearDash, Approximated, EquivalentOrRounded, MatchEnd, TokenEnd;
    hide Decimals.Count, MentionsPass, Matches, Mentions;
    var s := Protected(u, text, payloads);
    DigitsMatched(u, s, 0, p);
    if Shielded(u, s, p) {
      assert Justifies(u, text, payloads, p, Glued);
    } else {
      var span :| span in Matches(u, s, 0) && span.start <= p < span.end;
      var token := s[span.start..span.end];
      MatchesStart(u, s, 0);
      MatchReading.MatchUnparsed(u, s, span.start);
      AllMentioned(u, s);
      if ParseMention(u, token).None? {
        assert Justifies(u, text, payloads, p, Unparsed(span));
      } else {
        var m := Mention(ParseMention(u, token).value, token, span.start, span.end);
        MentionJustified(u, text, payloads, p, m);
      }
    }
  }

  lemma AllMentioned(u: Unicode, s: string)
    ensures forall m | m in Matches(u, s, 0) :: m.start < m.end <= |s|
    ensures forall m | m in Matches(u, s, 0) ::
      var text := s[m.start..m.end];
      ParseMention(u, text).Some? ==> Mention(ParseMention(u, text).value, text, m.start, m.end) in Mentions(u, s)
  {
    hide ParseMention, Matches, ParsedMentions;
    MentionsAreParsedMatches(u, s, Matches(u, s, 0));
  }

  lemma MentionJustified(u: Unicode, text: string, payloads: seq<Record>, p: nat, m: Mention)
    requires NumbersVerdict(u, text, payloads) == Pass
    requires p < |Protected(u, text, payloads)|
    requires m in Mentions(u, Protected(u, text, payloads)) && m.start <= p < m.end
    ensures exists why :: Justifies(u, text, payloads, p, why)
  {
    hide ParseMention, Protected, Authority, YearDash, Approximated, EquivalentOrRounded, Mentions;
    assert MentionPasses(u, text, Authority(u, payloads), m);
    if YearDash(u, text, m) {
      assert Justifies(u, text, payloads, p, Year(m));
    } else {
      var fact :| fact in Authority(u, payloads) && EquivalentOrRounded(m.parsed, fact, Approximated(u, text, m));
      assert Justifies(u, text, payloads, p, Backed(m, fact));
    }
  }

  /** Every fact of the registry is a fact of one of the evidence items, under that item's id. */
  lemma {:induction false} FactsComeFromItems(u: Unicode, evidence: seq<Record>, fact: Fact)
    requires fact in Authority(u, evidence)
    ensures exists item :: item in evidence && fact in ItemFacts(u, item) && fact.evidenceId == EvidenceId(item)
  {
    hide FactKind, ItemUnit, ParseMention, EvidenceId, FieldDisplay;
    assert evidence == [evidence[0]] + evidence[1..];
    if fact in ItemFacts(u, evidence[0]) {
      FieldFactIds(u, evidence[0], EffectiveValues(evidence[0]));
      LegacyFactIds(u, evidence[0], AllowedMentions(evidence[0]));
    } else {
      FactsComeFromItems(u, evidence[1..], fact);
    }
  }

  lemma {:induction false} FieldFactIds(u: Unicode, item: Record, fields: Record)
    ensures forall fact | fact in FieldFacts(u, item, fields) :: fact.evidenceId == EvidenceId(item)
  {
    if fields != [] { FieldFactIds(u, item, fields[1..]); }
  }

  lemma {:induction false} LegacyFactIds(u: Unicode, item: Record, mentions: seq<string>)
    ensures forall fact | fact in LegacyFacts(u, item, mentions) :: fact.evidenceId == EvidenceId(item)
  {
    if mentions != [] { LegacyFactIds(u, item, mentions[1..]); }
  }

  // ---------- the repair ----------

  const KEY_HINTS: seq<(seq<string>, seq<string>)> := [
    (["vượt", "over by", "overage"], ["over_by"]),
    (["còn", "remaining", "left"], ["remaining_budget"]),
    (["dự kiến chi", "planned spend", "chi phí", "costs", "purchase cost"], ["planned_spend", "purchase_cost"]),
    (["ngân sách", "budget limit", "budget cap"], ["budget_limit"])]

  function Bad(u: Unicode, text: string, registry: seq<Fact>): seq<Mention> {
    Filter(Mentions(u, text), (m: Mention) => !Authorized(m.parsed, registry, false))
  }

  /** The facts of the mention's kind and, for a quantity with a unit, of its unit. */
  function SameKind(m: Parsed, registry: seq<Fact>): seq<Fact> {
    var kindred := Filter(registry, (f: Fact) => m.kind.None? || f.kind == m.kind.value);
    if m.kind == Some(Quantity) && m.unit.Some? then
      Filter(kindred, (f: Fact) => f.unit.None? || f.unit == m.unit)
    else kindred
  }

  /** The first hint whose marker occurs in the context narrows the candidates, unless nothing would be left. */
  function Hinted(context: string, candidates: seq<Fact>, hints: seq<(seq<string>, seq<string>)>): seq<Fact> {
    if hints == [] then candidates
    else if ContainsAny(context, hints[0].0) then
      var narrowed := Filter(candidates, (f: Fact) => f.key in hints[0].1);
      if narrowed != [] then narrowed else candidates
    else Hinted(context, candidates, hints[1..])
  }

  function Candidates(u: Unicode, text: string, registry: seq<Fact>, m: Mention): seq<Fact> {
    Hinted(Fold(u, text), SameKind(m.parsed, registry), KEY_HINTS)
  }

  predicate Unambiguous(candidates: seq<Fact>) {
    && candidates != []
    && forall f | f in candidates :: Same(f, candidates[0])
  }

  predicate Same(a: Fact, b: Fact) {
    a.value == b.value && a.kind == b.kind && a.unit == b.unit
  }

  /** text[:start] + replacement + text[end:] */
  function Spliced(text: string, m: Mention, replacement: string): string {
    Slice(text, 0, m.start) + replacement + Slice(text, m.end, |text|)
  }

  /** What _repair_numeric_text returns; None when it changes nothing. The last of equal facts is rendered. */
  function Repaired(u: Unicode, text: string, payloads: seq<Record>): Option<string> {
    var registry := Authority(u, payloads);
    var bad := Bad(u, text, registry);
    if |bad| != 1 then None
    else
      var candidates := Candidates(u, text, registry, bad[0]);
      if Unambiguous(candidates) then
        Some(Spliced(text, bad[0], RenderFact(u, candidates[|candidates| - 1])))
      else None
  }

  /** _repair_numeric_text */
  method RepairNumericText(u: Unicode, text: string, payloads: seq<Record>) returns (repaired: Option<string>)
    ensures repaired == Repaired(u, text, payloads)
  {
    hide Authority, Mentions, Authorized, ContainsAny, SameKind, RenderFact, Spliced;
    var registry := BuildNumericAuthority(u, payloads);
    var mentions := Mentions(u, text);
    var bad: seq<Mention> := [];
    var unauthorised := (m: Mention) => !Authorized(m.parsed, registry, false);
    for i := 0 to |mentions|
      invariant bad + Filter(mentions[i..], unauthorised) == Filter(mentions, unauthorised)
    {
      Suffix(mentions, i);
      if unauthorised(mentions[i]) { bad := bad + [mentions[i]]; }
    }
    assert mentions[|mentions|..] == [];
    assert Filter(mentions[|mentions|..], unauthorised) == [];
    assert bad == Bad(u, text, registry);
    if |bad| != 1 {
      return None;
    }
    var candidates := SameKind(bad[0].parsed, registry);
    var context := Fold(u, text);
    var h := 0;
    while h < |KEY_HINTS| && !ContainsAny(context, KEY_HINTS[h].0)
      invariant h <= |KEY_HINTS|
      invariant Hinted(context, candidates, KEY_HINTS[h..]) == Hinted(context, candidates, KEY_HINTS)
    {
      Suffix(KEY_HINTS, h);
      h := h + 1;
    }
    ghost var unhinted := candidates;
    if h < |KEY_HINTS| {
      var keys := KEY_HINTS[h].1;
      var narrowed := Filter(candidates, (f: Fact) => f.key in keys);
      if narrowed != [] { candidates := narrowed; }
      assert KEY_HINTS[h..][0] == KEY_HINTS[h];
    }
    assert candidates == Hinted(context, unhinted, KEY_HINTS[h..]);
    if !Unambiguous(candidates) {
      return None;
    }
    return Some(Spliced(text, bad[0], RenderFact(u, candidates[|candidates| - 1])));
  }

  /** Mentions lie inside their text. */
  lemma {:induction false} MentionBounds(u: Unicode, s: string, spans: seq<Span>)
    requires forall m | m in spans :: m.start < m.end <= |s|
    ensures forall m | m in ParsedMentions(u, s, spans) :: m.start < m.end <= |s| && m.text == s[m.start..m.end]
  {
    hide ParseMention;
    if spans != [] { MentionBounds(u, s, spans[1..]); }
  }

  lemma CandidatesFromRegistry(u: Unicode, text: string, registry: seq<Fact>, m: Mention)
    ensures forall f | f in Candidates(u, text, registry, m) ::
      && f in registry && (m.parsed.kind.Some? ==> m.parsed.kind == Some(f.kind))
      && (m.parsed.kind == Some(Quantity) && m.parsed.unit.Some? && f.unit.Some? ==> f.unit == m.parsed.unit)
  {
    hide ContainsAny;
    FilterMember(registry, (f: Fact) => m.parsed.kind.None? || f.kind == m.parsed.kind.value);
    var kindred := Filter(registry, (f: Fact) => m.parsed.kind.None? || f.kind == m.parsed.kind.value);
    FilterMember(kindred, (f: Fact) => f.unit.None? || f.unit == m.parsed.unit);
    HintedFromCandidates(Fold(u, text), SameKind(m.parsed, registry), KEY_HINTS);
  }

  lemma {:induction false} HintedFromCandidates(
      context: string, candidates: seq<Fact>, hints: seq<(seq<string>, seq<string>)>)
    ensures forall f | f in Hinted(context, candidates, hints) :: f in candidates
    decreases |hints|
  {
    hide ContainsAny;
    if hints != [] {
      FilterMember(candidates, (f: Fact) => f.key in hints[0].1);
      HintedFromCandidates(context, candidates, hints[1..]);
    }
  }

  /**
   A repair replaces one mention and nothing else: the only strictly unauthorised mention of the text,
   by the rendering of a fact of the registry of the mention's kind and unit, where every remaining candidate has the same
   value, kind and unit as that fact.
   */
  lemma RepairIsLocal(u: Unicode, text: string, payloads: seq<Record>)
    requires Repaired(u, text, payloads).Some?
    ensures var registry := Authority(u, payloads);
      exists m, fact ::
        && m in Mentions(u, text) && m.start < m.end <= |text|
        && !Authorized(m.parsed, registry, false)
        && (forall other | other in Mentions(u, text) && other != m :: Authorized(other.parsed, registry, false))
        && fact in registry
        && (m.parsed.kind.Some? ==> m.parsed.kind == Some(fact.kind))
        && (m.parsed.kind == Some(Quantity) && m.parsed.unit.Some? && fact.unit.Some? ==> fact.unit == m.parsed.unit)
        && (forall f | f in Candidates(u, text, registry, m) :: Same(f, fact))
        && Repaired(u, text, payloads).value == text[..m.start] + RenderFact(u, fact) + text[m.end..]
  {
    hide Authority, Authorized, Candidates, RenderFact, Matches, ParsedMentions;
    var registry := Authority(u, payloads);
    var bad := Bad(u, text, registry);
    FilterMember(Mentions(u, text), (m: Mention) => !Authorized(m.parsed, registry, false));
    var m := bad[0];
    assert bad == [m] && m in bad;
    forall other | other in Mentions(u, text) && other != m
      ensures Authorized(other.parsed, registry, false)
    {
      assert other !in bad;
    }
    MentionBounds(u, text, Matches(u, text, 0));
    CandidatesFromRegistry(u, text, registry, m);
    var candidates := Candidates(u, text, registry, m);
    var fact := candidates[|candidates| - 1];
    assert fact in candidates;
  }

  /** A display mention the backend supplies with an item is strictly authorised by that item. */
  lemma {:induction false} DisplaySelfAuthorised(u: Unicode, item: Record, mentions: seq<string>, display: string)
    requires display in mentions && ParseMention(u, display).Some?
    ensures Authorized(ParseMention(u, display).value, LegacyFacts(u, item, mentions), false)
  {
    hide ParseMention, ItemUnit, EvidenceId;
    var p := ParseMention(u, display).value;
    if mentions[0] == display {
      var fact := LegacyFact(u, item, display, p);
      KindHasUnit(u, display);
      assert fact in DisplayFact(u, item, display);
      assert EquivalentOrRounded(p, fact, false);
    } else {
      DisplaySelfAuthorised(u, item, mentions[1..], display);
      var fact :| fact in LegacyFacts(u, item, mentions[1..]) && EquivalentOrRounded(p, fact, false);
      assert fact in LegacyFacts(u, item, mentions);
    }
  }

  /** The parser names a unit for a quantity. */
  lemma KindHasUnit(u: Unicode, text: string)
    ensures var p := ParseMention(u, text); p.Some? && p.value.kind == Some(Quantity) ==> p.value.unit.Some?
  {
    hide ReadToken, NormalizeUnit, SaysMoney, MoneyScale, Contains;
  }
}
