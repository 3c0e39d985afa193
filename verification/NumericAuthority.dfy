/**
 Numeric authority: app/decision_intelligence/numeric_authority.py.

 The regular expressions are written out as scanners with the same leftmost, first-alternative
 matches: `TokenEnd` is \d{1,3}(?:[.,]\d{3})+|\d+(?:[.,]\d+)?, `MatchEnd` adds the optional unit word,
 and `Matches` is finditer under the lookbehind (?<![\w-]).
 */
module NumericAuthority {
  import opened Text
  import opened Decimals
  import opened Records

  datatype Kind = Money | Percent | Tally | Quantity | Days

  datatype Parsed = Parsed(value: real, kind: Option<Kind>, unit: Option<string>)

  datatype Mention = Mention(parsed: Parsed, text: string, start: nat, end: nat)

  datatype Fact = Fact(
    value: real, kind: Kind, key: string, evidenceId: string,
    unit: Option<string>, display: Option<string>, approximate: bool)

  // ---------- the number token ----------

  predicate IsSep(c: char) {
    c == '.' || c == ','
  }

  /** (?:[.,]\d{3})* from position `i`: where the greedy run of three-digit groups ends. */
  function GroupsEnd(u: Unicode, s: string, i: nat): (e: nat)
    requires i <= |s|
    ensures i <= e <= |s|
    decreases |s| - i
  {
    if i + 4 <= |s| && IsSep(s[i]) && u.digit(s[i + 1]) >= 0 && u.digit(s[i + 2]) >= 0 && u.digit(s[i + 3]) >= 0
    then GroupsEnd(u, s, i + 4) else i
  }

  /** Where the number token that starts at digit position `i` ends. */
  function TokenEnd(u: Unicode, s: string, i: nat): (e: nat)
    requires i < |s| && u.digit(s[i]) >= 0
    ensures i < e <= |s|
  {
    var j := i + DigitRun(u, s, i);
    if j - i <= 3 && GroupsEnd(u, s, j) > j then GroupsEnd(u, s, j)
    else if j + 1 < |s| && IsSep(s[j]) && u.digit(s[j + 1]) >= 0 then j + 1 + DigitRun(u, s, j + 1)
    else j
  }

  /** _parse_decimal; None where Decimal() raises InvalidOperation */
  function ParseDecimal(u: Unicode, raw: string): Option<real> {
    if Count(raw, '.') > 1 || Count(raw, ',') > 1 then DecimalOf(u, Remove(Remove(raw, '.'), ','))
    else if '.' in raw || ',' in raw then
      var k := IndexOf(raw, if '.' in raw then '.' else ',');
      var left, right := raw[..k], raw[k + 1..];
      if |right| == 3 && |left| <= 3 then DecimalOf(u, left + right) else DecimalOf(u, left + "." + right)
    else DecimalOf(u, raw)
  }

  // ---------- units ----------

  const UNIT_ALIASES: seq<(string, string)> := [
    ("kg", "kg"), ("liters", "l"), ("litres", "l"), ("lít", "l"), ("cái", "cái"), ("ngày", "ngày"), ("days", "day"),
    ("sku", "sku"), ("nguyên liệu", "nguyên liệu"), ("ingredients", "ingredient"), ("g", "g"), ("l", "l")]

  function FirstAlias(u: Unicode, text: string, aliases: seq<(string, string)>): Option<string> {
    if aliases == [] then None
    else if ContainsWord(u, text, aliases[0].0) then Some(aliases[0].1)
    else FirstAlias(u, text, aliases[1..])
  }

  /** _normalize_unit on a text */
  function NormalizeUnit(u: Unicode, value: string): Option<string> {
    FirstAlias(u, Fold(u, value), UNIT_ALIASES)
  }

  // ---------- one mention ----------

  const MONEY_WORDS := ["triệu", "nghìn", "ngàn", "đồng", "vnd"]

  predicate SaysMoney(u: Unicode, lowered: string) {
    ContainsAny(lowered, MONEY_WORDS) || ContainsWord(u, lowered, "tr") || ContainsWord(u, lowered, "k")
  }

  function MoneyScale(u: Unicode, lowered: string): real {
    if Contains(lowered, "triệu") || ContainsWord(u, lowered, "tr") then 1000000.0
    else if Contains(lowered, "nghìn") || Contains(lowered, "ngàn") || ContainsWord(u, lowered, "k") then 1000.0
    else 1.0
  }

  /** Kind, unit and scale of a folded mention text around the number `value`. */
  function Classify(u: Unicode, lowered: string, value: real): Parsed {
    var unit := NormalizeUnit(u, lowered);
    if SaysMoney(u, lowered) then Parsed(value * MoneyScale(u, lowered), Some(Money), None)
    else if Contains(lowered, "%") || Contains(lowered, "phần trăm") then Parsed(value, Some(Percent), None)
    else match unit
      case None => Parsed(value, None, None)
      case Some(name) =>
        if name in {"kg", "g", "l", "liter", "litre", "cái"} then Parsed(value, Some(Quantity), unit)
        else if name in {"ngày", "day"} then Parsed(value, Some(Days), unit)
        else if name in {"sku", "nguyên liệu", "ingredient"} then Parsed(value, Some(Tally), unit)
        else Parsed(value, None, None)
  }

  /** Position of the first decimal digit, or the length of the text. */
  function FirstDigit(u: Unicode, s: string): (i: nat)
    ensures i <= |s|
    ensures i < |s| ==> u.digit(s[i]) >= 0
    ensures forall k | 0 <= k < i :: u.digit(s[k]) < 0
  {
    if s == "" || u.digit(s[0]) >= 0 then 0
    else
      var i := FirstDigit(u, s[1..]);
      assert forall k | 0 < k <= i && k < |s| :: s[k] == s[1..][k - 1];
      1 + i
  }

  /** The number of the first token of a folded text, if there is one and it reads as a number. */
  function ReadToken(u: Unicode, lowered: string): Option<real> {
    var i := FirstDigit(u, lowered);
    if i == |lowered| then None else ParseDecimal(u, lowered[i..TokenEnd(u, lowered, i)])
  }

  /** parse_numeric_mention */
  function ParseMention(u: Unicode, text: string): Option<Parsed> {
    var lowered := Strip(u, Fold(u, text));
    match ReadToken(u, lowered)
    case None => None
    case Some(value) => Some(Classify(u, lowered, value))
  }

  // ---------- all mentions of a text ----------

  /** The unit words of the mention pattern in order; true where the pattern asks for \b after the word. */
  const SUFFIXES: seq<(string, bool)> := [
    ("triệu", false), ("tr", true), ("nghìn", false), ("ngàn", false), ("kg", false), ("g", true),
    ("litres", false), ("litre", false), ("liters", false), ("liter", false), ("l", true), ("cái", false),
    ("sku", false), ("nguyên liệu", false), ("ingredients", false), ("ingredient", false), ("ngày", false),
    ("days", false), ("day", false), ("vnd", false), ("đồng", false), ("k", true), ("%", false), ("phần trăm", false)]

  predicate AtAlike(u: Unicode, s: string, i: nat, p: string) {
    i + |p| <= |s| && forall k | 0 <= k < |p| :: u.alike(s[i + k], p[k])
  }

  function SpaceEnd(u: Unicode, s: string, i: nat): (e: nat)
    requires i <= |s|
    ensures i <= e <= |s|
    decreases |s| - i
  {
    if i < |s| && u.space(s[i]) then SpaceEnd(u, s, i + 1) else i
  }

  function SuffixEnd(u: Unicode, s: string, j: nat, suffixes: seq<(string, bool)>): (e: Option<nat>)
    ensures e.Some? ==> j <= e.value <= |s|
  {
    if suffixes == [] then None
    else
      var (p, bounded) := suffixes[0];
      if AtAlike(u, s, j, p) && (bounded ==> Boundary(u, s, j + |p|)) then Some(j + |p|)
      else SuffixEnd(u, s, j, suffixes[1..])
  }

  /** Where the match that starts at digit position `i` ends: the token and its optional unit word. */
  function MatchEnd(u: Unicode, s: string, i: nat): (e: nat)
    requires i < |s| && u.digit(s[i]) >= 0
    ensures TokenEnd(u, s, i) <= e <= |s|
  {
    var t := TokenEnd(u, s, i);
    match SuffixEnd(u, s, SpaceEnd(u, s, t), SUFFIXES)
    case None => t
    case Some(e) => e
  }

  /** A match may start at `i`: a digit not directly preceded by a word character or a hyphen. */
  predicate Starts(u: Unicode, s: string, i: nat)
    requires i < |s|
  {
    u.digit(s[i]) >= 0 && !Shielded(u, s, i)
  }

  predicate Shielded(u: Unicode, s: string, i: nat)
    requires i < |s|
  {
    i > 0 && (u.word(s[i - 1]) || s[i - 1] == '-')
  }

  datatype Span = Span(start: nat, end: nat)

  /** finditer from position `i` on */
  function Matches(u: Unicode, s: string, i: nat): (spans: seq<Span>)
    requires i <= |s|
    ensures forall m | m in spans :: i <= m.start < m.end <= |s|
    decreases |s| - i
  {
    if i == |s| then []
    else if Starts(u, s, i) then [Span(i, MatchEnd(u, s, i))] + Matches(u, s, MatchEnd(u, s, i))
    else Matches(u, s, i + 1)
  }

  function ParsedMentions(u: Unicode, s: string, spans: seq<Span>): (ms: seq<Mention>)
    requires forall m | m in spans :: m.start < m.end <= |s|
  {
    if spans == [] then []
    else
      var text := s[spans[0].start..spans[0].end];
      var rest := ParsedMentions(u, s, spans[1..]);
      match ParseMention(u, text)
      case None => rest
      case Some(p) => [Mention(p, text, spans[0].start, spans[0].end)] + rest
  }

  /** iter_numeric_mentions */
  function Mentions(u: Unicode, s: string): seq<Mention> {
    ParsedMentions(u, s, Matches(u, s, 0))
  }

  // ---------- facts ----------

  const MONEY_KEYS := ["cost", "budget", "spend", "over", "remaining", "purchase"]
  const PERCENT_KEYS := ["rate", "probability", "utilization", "pct", "percent"]
  const QUANTITY_KEYS := [
    "quantity", "demand", "inventory", "fulfilled", "shortage", "waste", "ending", "p25", "p50", "p75", "gap", "value"]
  const LEGACY_QUANTITY_TYPES := {
    "DEMAND_HORIZON_SUMMARY", "DEMAND_ORDER_ALIGNMENT", "PROCUREMENT_QUANTITY", "NO_PLANNED_PURCHASE_BASELINE",
    "INGREDIENT_OPERATIONAL_RISK"}

  /** _fact_kind: kind, value and whether an approximate mention may match */
  function FactKind(u: Unicode, key: string, raw: real, unit: Option<string>): Option<(Kind, real, bool)> {
    var lower := Fold(u, key);
    if ContainsAny(lower, MONEY_KEYS) then Some((Money, raw, true))
    else if ContainsAny(lower, PERCENT_KEYS) then
      Some((Percent, if Contains(lower, "pct") || Contains(lower, "percentage_point") then raw else raw * 100.0, true))
    else if ContainsAny(lower, ["day", "delay", "lead_time"]) then Some((Days, raw, false))
    else if unit.Some? && (ContainsAny(lower, QUANTITY_KEYS)
                           || lower !in {"scenario_count", "warning_count", "hard_violation_count"}) then
      Some((Quantity, raw, false))
    else if EndsWith(lower, "count") then Some((Tally, raw, false))
    else None
  }

  predicate EndsWith(s: string, p: string) {
    |p| <= |s| && s[|s| - |p|..] == p
  }

  /** dict(item), updated with item["values"] when that is a dictionary */
  function EffectiveValues(item: Record): Record {
    match Get(item, "values")
    case Dict(nested) => Update(item, nested)
    case _ => item
  }

  /** values.get("unit") or item.get("unit"), normalised; str(None) is a text without a unit. */
  function ItemUnit(u: Unicode, item: Record): Option<string> {
    var own := Get(EffectiveValues(item), "unit");
    NormalizeUnit(u, Show(if Truthy(own) then own else Get(item, "unit")))
  }

  function EvidenceId(item: Record): string {
    if Has(item, "evidence_id") then Show(Get(item, "evidence_id")) else "legacy"
  }

  function FieldDisplay(item: Record, key: string): Option<string> {
    match Get(item, "display_values")
    case Dict(fields) => (match Get(fields, key) case Str(text) => Some(text) case _ => None)
    case _ => None
  }

  /** The fact of one field, if it is a number with a known meaning. */
  function FieldFact(u: Unicode, item: Record, field: (string, Value)): seq<Fact> {
    match field.1
    case Num(raw) =>
      (match FactKind(u, field.0, raw, ItemUnit(u, item))
       case None => []
       case Some((kind, value, approximate)) =>
         [Fact(value, kind, field.0, EvidenceId(item), if kind == Quantity then ItemUnit(u, item) else None,
               FieldDisplay(item, field.0), approximate)])
    case _ => []
  }

  /** The facts of the numeric fields of one evidence item. */
  function FieldFacts(u: Unicode, item: Record, fields: Record): seq<Fact> {
    if fields == [] then [] else FieldFact(u, item, fields[0]) + FieldFacts(u, item, fields[1..])
  }

  /** The strings of item["allowed_numeric_mentions"] */
  function AllowedMentions(item: Record): seq<string> {
    match Get(item, "allowed_numeric_mentions")
    case List(vs) => Strings(vs)
    case _ => []
  }

  function LegacyFact(u: Unicode, item: Record, mention: string, p: Parsed): Fact {
    var kind := match p.kind
      case Some(k) => k
      case None => if Show(Get(item, "type")) in LEGACY_QUANTITY_TYPES then Quantity else Tally;
    Fact(p.value, kind, "legacy_display", EvidenceId(item),
         if kind != Quantity then None else if p.unit.Some? then p.unit else ItemUnit(u, item),
         Some(mention), false)
  }

  /** The fact of one display mention, if it parses. */
  function DisplayFact(u: Unicode, item: Record, mention: string): seq<Fact> {
    match ParseMention(u, mention)
    case None => []
    case Some(p) => [LegacyFact(u, item, mention, p)]
  }

  function LegacyFacts(u: Unicode, item: Record, mentions: seq<string>): seq<Fact> {
    if mentions == [] then [] else DisplayFact(u, item, mentions[0]) + LegacyFacts(u, item, mentions[1..])
  }

  function ItemFacts(u: Unicode, item: Record): seq<Fact> {
    FieldFacts(u, item, EffectiveValues(item)) + LegacyFacts(u, item, AllowedMentions(item))
  }

  /** What build_numeric_authority returns. */
  function Authority(u: Unicode, evidence: seq<Record>): seq<Fact> {
    if evidence == [] then [] else ItemFacts(u, evidence[0]) + Authority(u, evidence[1..])
  }

  // ---------- matching and rendering ----------

  /** equivalent_or_rounded */
  predicate EquivalentOrRounded(m: Parsed, fact: Fact, approximate: bool) {
    if m.kind.Some? && m.kind.value != fact.kind then false
    else if m.kind == Some(Quantity) && m.unit.Some? && fact.unit.Some? && m.unit != fact.unit then false
    else if m.value == fact.value then true
    else if !approximate || !fact.approximate then false
    else if fact.kind == Money && fact.value != 0.0 then
      Magnitude(m.value - fact.value) / Magnitude(fact.value) <= 0.03
    else if fact.kind == Percent then Magnitude(m.value - fact.value) <= 1.0
    else false
  }

  /** _is_authorized_numeric */
  predicate Authorized(m: Parsed, registry: seq<Fact>, approximate: bool) {
    exists fact | fact in registry :: EquivalentOrRounded(m, fact, approximate)
  }

  /** _vi: rounds half to even and strips trailing zeros even from an integer */
  function Vi(v: real, decimals: nat): string {
    Localised(RStripChar(RStripChar(Fixed(v < 0.0, HalfEven(v, decimals), decimals), '0'), '.'))
  }

  /** _render_without_display */
  function RenderPlain(fact: Fact): string {
    match fact.kind
    case Money =>
      if Magnitude(fact.value) >= 1000000.0 then Vi(fact.value / 1000000.0, 2) + " triệu đồng"
      else if Magnitude(fact.value) >= 1000.0 then Vi(fact.value / 1000.0, 0) + " nghìn đồng"
      else Vi(fact.value, 0) + " đồng"
    case Percent => Vi(fact.value, 2) + "%"
    case _ => Vi(fact.value, 2) + (match fact.unit case None => "" case Some(unit) => " " + unit)
  }

  /** render_fact */
  function RenderFact(u: Unicode, fact: Fact): string {
    match fact.display
    case None => RenderPlain(fact)
    case Some(shown) =>
      if shown == "" || (fact.kind == Money && !ContainsAny(Fold(u, shown), ["triệu", "nghìn", "đồng", "vnd"])) then
        RenderPlain(fact)
      else if fact.kind != Quantity || fact.unit.None? || Contains(Fold(u, shown), fact.unit.value) then shown
      else shown + " " + fact.unit.value
  }
}
