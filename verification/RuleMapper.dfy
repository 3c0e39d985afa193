/**
 Column mappings of an imported sheet: app/core/rule_mapper.py, lines 155 to 223.

 The schema table is a parameter, and so are the texts Python prints for a list and for a dictionary.
 A mapping is a list of entries in insertion order.
 */
module RuleMapper {
  import opened Text
  import opened Ordering
  import opened Grouping

  datatype Schema = Schema(fields: seq<string>, core: seq<string>)

  datatype Reprs = Reprs(list: seq<string> -> string, dict: seq<Group<string, string>> -> string)

  datatype Entry = Entry(source: string, field: Option<string>)

  datatype Suggestion = Suggestion(
    sheetType: string, confidence: real, mapping: seq<Entry>, warnings: seq<string>, errors: seq<string>,
    source: string, requiresReview: bool, rawResponse: string)

  // ---------- validation ----------

  /** `if field` */
  predicate IsMapped(e: Entry) {
    e.field.Some? && e.field.value != ""
  }

  function FieldOf(e: Entry): string {
    if e.field.Some? then e.field.value else ""
  }

  function Sources(mapping: seq<Entry>): set<string> {
    set e | e in mapping :: e.source
  }

  function MappedFields(mapping: seq<Entry>): set<string> {
    set e | e in mapping && IsMapped(e) :: e.field.value
  }

  function Elements(xs: seq<string>): set<string> {
    set x | x in xs
  }

  function UnknownSources(columns: seq<string>, mapping: seq<Entry>): set<string> {
    Sources(mapping) - Elements(columns)
  }

  function InvalidFields(schema: Schema, mapping: seq<Entry>): set<string> {
    set e | e in mapping && e.field.Some? && e.field.value !in schema.fields :: e.field.value
  }

  function MissingFields(schema: Schema, mapping: seq<Entry>): set<string> {
    Elements(schema.core) - MappedFields(mapping)
  }

  function SourceNames(g: Group<string, Entry>): Group<string, string> {
    Group(g.key, seq(|g.items|, i requires 0 <= i < |g.items| => g.items[i].source))
  }

  function Repeated(groups: seq<Group<string, Entry>>): seq<Group<string, string>> {
    if groups == [] then []
    else (if |groups[0].items| > 1 then [SourceNames(groups[0])] else []) + Repeated(groups[1..])
  }

  /** The fields that several columns map to, each with those columns. */
  function DuplicateFields(mapping: seq<Entry>): seq<Group<string, string>> {
    Repeated(Groups(Filter(mapping, IsMapped), FieldOf))
  }

  const MULTIPLE := "Multiple columns map to the same field"
  const MISSING := "Missing core fields"
  const NO_DATE := ": ['received_date_or_purchase_date']"

  predicate LacksDate(sheetType: string, mapping: seq<Entry>) {
    sheetType == "purchase_history"
    && "purchase_date" !in MappedFields(mapping) && "received_date" !in MappedFields(mapping)
  }

  function Errors(r: Reprs, schemas: map<string, Schema>, sheetType: string, columns: seq<string>,
      mapping: seq<Entry>): seq<string>
  {
    if sheetType !in schemas then ["Unknown sheet type: " + sheetType]
    else
      var unknown, invalid := UnknownSources(columns, mapping), InvalidFields(schemas[sheetType], mapping);
      (if unknown != {} then ["Mapping contains unknown source columns: " + r.list(SortedStrings(unknown))] else [])
      + (if invalid != {} then ["Fields outside schema '" + sheetType + "': " + r.list(SortedStrings(invalid))] else [])
  }

  function Warnings(r: Reprs, schemas: map<string, Schema>, sheetType: string, mapping: seq<Entry>): seq<string> {
    if sheetType !in schemas then []
    else
      var duplicates, missing := DuplicateFields(mapping), MissingFields(schemas[sheetType], mapping);
      (if duplicates != [] then [MULTIPLE + (": " + r.dict(duplicates))] else [])
      + (if missing != {} then [MISSING + (": " + r.list(SortedStrings(missing)))] else [])
      + (if LacksDate(sheetType, mapping) then [MISSING + NO_DATE] else [])
  }

  /** validate_mapping */
  method ValidateMapping(r: Reprs, schemas: map<string, Schema>, sheetType: string, columns: seq<string>,
      mapping: seq<Entry>)
    returns (warnings: seq<string>, errors: seq<string>)
    ensures warnings == Warnings(r, schemas, sheetType, mapping)
    ensures errors == Errors(r, schemas, sheetType, columns, mapping)
  {
    hide DuplicateFields, MissingFields, InvalidFields, UnknownSources, LacksDate, StrLeq;
    if sheetType !in schemas {
      return [], ["Unknown sheet type: " + sheetType];
    }
    errors, warnings := [], [];
    var unknown := SortedStrings(UnknownSources(columns, mapping));
    EmptyEnumeration(unknown, UnknownSources(columns, mapping));
    if unknown != [] {
      errors := errors + ["Mapping contains unknown source columns: " + r.list(unknown)];
    }
    var invalid := SortedStrings(InvalidFields(schemas[sheetType], mapping));
    EmptyEnumeration(invalid, InvalidFields(schemas[sheetType], mapping));
    if invalid != [] {
      errors := errors + ["Fields outside schema '" + sheetType + "': " + r.list(invalid)];
    }
    var duplicates := CollectDuplicates(mapping);
    if duplicates != [] {
      warnings := warnings + [MULTIPLE + (": " + r.dict(duplicates))];
    }
    var missing := SortedStrings(MissingFields(schemas[sheetType], mapping));
    EmptyEnumeration(missing, MissingFields(schemas[sheetType], mapping));
    if missing != [] {
      warnings := warnings + [MISSING + (": " + r.list(missing))];
    }
    if LacksDate(sheetType, mapping) {
      warnings := warnings + [MISSING + NO_DATE];
    }
  }

  lemma EmptyEnumeration(xs: seq<string>, s: set<string>)
    requires Enumerates(xs, s, StrLeq)
    ensures xs == [] <==> s == {}
  {
    HeadIn(xs);
  }

  method CollectDuplicates(mapping: seq<Entry>) returns (repeated: seq<Group<string, string>>)
    ensures repeated == DuplicateFields(mapping)
  {
    hide Groups, AddTo, Filter;
    var groups: seq<Group<string, Entry>> := [];
    NothingMapped();
    for i := 0 to |mapping|
      invariant groups == Groups(Filter(mapping[..i], IsMapped), FieldOf)
    {
      var e := mapping[i];
      assert mapping[..i + 1] == mapping[..i] + [e];
      FilterOne(mapping[..i], e);
      if IsMapped(e) {
        GroupsSnoc(Filter(mapping[..i], IsMapped), e, FieldOf);
        groups := AddTo(groups, FieldOf(e), e);
      }
    }
    assert mapping[..|mapping|] == mapping;
    repeated := [];
    for i := 0 to |groups|
      invariant repeated + Repeated(groups[i..]) == Repeated(groups)
    {
      assert groups[i..][0] == groups[i] && groups[i..][1..] == groups[i + 1..];
      if |groups[i].items| > 1 {
        repeated := repeated + [SourceNames(groups[i])];
      }
    }
    assert groups[|groups|..] == [];
  }

  lemma NothingMapped()
    ensures Groups(Filter([], IsMapped), FieldOf) == []
  {}

  lemma FilterOne(xs: seq<Entry>, e: Entry)
    ensures Filter(xs + [e], IsMapped) == if IsMapped(e) then Filter(xs, IsMapped) + [e] else Filter(xs, IsMapped)
  {
    FilterAppend(xs, [e], IsMapped);
    assert [e][1..] == [];
    assert Filter(xs, IsMapped) + [] == Filter(xs, IsMapped);
  }

  // ---------- what the messages say ----------

  /** There are errors exactly for an unknown sheet type, an unknown column or a field outside the schema. */
  lemma NoErrorsIff(r: Reprs, schemas: map<string, Schema>, sheetType: string, columns: seq<string>,
      mapping: seq<Entry>)
    ensures Errors(r, schemas, sheetType, columns, mapping) == [] <==>
      (&& sheetType in schemas
       && forall e | e in mapping ::
            e.source in columns && (e.field.Some? ==> e.field.value in schemas[sheetType].fields))
  {
    if sheetType in schemas {
      var unknown, invalid := UnknownSources(columns, mapping), InvalidFields(schemas[sheetType], mapping);
      forall e | e in mapping
        ensures e.source in columns <==> e.source !in unknown
        ensures e.field.Some? && e.field.value !in schemas[sheetType].fields ==> e.field.value in invalid
      {
        assert e.source in Sources(mapping);
      }
      assert forall x | x in unknown :: exists e :: e in mapping && e.source == x && e.source !in columns;
      assert forall x | x in invalid :: exists e :: e in mapping && e.field == Some(x) && x !in schemas[sheetType].fields;
    }
  }

  ghost predicate Share(a: Entry, b: Entry) {
    IsMapped(a) && IsMapped(b) && a.field == b.field
  }

  /** The duplicate report is empty exactly when no two columns share a field. */
  lemma NoDuplicatesIff(mapping: seq<Entry>)
    ensures DuplicateFields(mapping) == [] <==> forall i, j | 0 <= i < j < |mapping| :: !Share(mapping[i], mapping[j])
  {
    hide Groups, Members, Filter;
    var mapped := Filter(mapping, IsMapped);
    var groups := Groups(mapped, FieldOf);
    GroupsSound(mapped, FieldOf);
    RepeatedIff(groups);
    if i, j :| 0 <= i < j < |mapping| && Share(mapping[i], mapping[j]) {
      var f := FieldOf(mapping[i]);
      SharedTwice(mapping, i, j);
      FilterMember(mapping, IsMapped);
      assert mapping[i] in mapped;
      var k :| 0 <= k < |groups| && groups[k].key == f;
      assert |groups[k].items| > 1;
    } else {
      forall k | 0 <= k < |groups|
        ensures |groups[k].items| <= 1
      {
        LonelyOnce(mapping, groups[k].key);
      }
    }
  }

  lemma {:induction false} RepeatedIff(groups: seq<Group<string, Entry>>)
    ensures Repeated(groups) == [] <==> forall k | 0 <= k < |groups| :: |groups[k].items| <= 1
  {
    if groups != [] {
      RepeatedIff(groups[1..]);
      assert forall k | 0 < k < |groups| :: groups[k] == groups[1..][k - 1];
    }
  }

  /** The columns mapped to a field, straight from the mapping. */
  function MappedTo(mapping: seq<Entry>, f: string): seq<Entry> {
    Members(Filter(mapping, IsMapped), FieldOf, f)
  }

  lemma {:induction false} MappedToAppend(a: seq<Entry>, b: seq<Entry>, f: string)
    ensures MappedTo(a + b, f) == MappedTo(a, f) + MappedTo(b, f)
  {
    FilterAppend(a, b, IsMapped);
    MembersAppend(Filter(a, IsMapped), Filter(b, IsMapped), FieldOf, f);
  }

  lemma MappedToOne(e: Entry, f: string)
    ensures MappedTo([e], f) == if IsMapped(e) && FieldOf(e) == f then [e] else []
  {
    FilterOne([], e);
    assert [] + [e] == [e];
    OneMember(e, FieldOf, f);
  }

  lemma SharedTwice(mapping: seq<Entry>, i: nat, j: nat)
    requires i < j < |mapping| && Share(mapping[i], mapping[j])
    ensures |MappedTo(mapping, FieldOf(mapping[i]))| > 1
  {
    hide MappedTo;
    var f := FieldOf(mapping[i]);
    assert mapping == mapping[..i] + ([mapping[i]] + (mapping[i + 1..j] + ([mapping[j]] + mapping[j + 1..])));
    MappedToAppend(mapping[..i], [mapping[i]] + (mapping[i + 1..j] + ([mapping[j]] + mapping[j + 1..])), f);
    MappedToAppend([mapping[i]], mapping[i + 1..j] + ([mapping[j]] + mapping[j + 1..]), f);
    MappedToAppend(mapping[i + 1..j], [mapping[j]] + mapping[j + 1..], f);
    MappedToAppend([mapping[j]], mapping[j + 1..], f);
    MappedToOne(mapping[i], f);
    MappedToOne(mapping[j], f);
  }

  lemma {:induction false} LonelyOnce(mapping: seq<Entry>, f: string)
    requires forall i, j | 0 <= i < j < |mapping| :: !Share(mapping[i], mapping[j])
    ensures |MappedTo(mapping, f)| <= 1
  {
    hide MappedTo;
    if mapping == [] {
      NoneMapped(f);
    } else {
      var e := mapping[0];
      assert mapping == [e] + mapping[1..];
      LonelyOnce(mapping[1..], f);
      MappedToAppend([e], mapping[1..], f);
      MappedToOne(e, f);
      if IsMapped(e) && FieldOf(e) == f {
        forall x | x in mapping[1..]
          ensures !(IsMapped(x) && FieldOf(x) == f)
        {
          var j :| 0 <= j < |mapping[1..]| && mapping[1..][j] == x;
          assert !Share(mapping[0], mapping[j + 1]);
        }
        NobodyMapped(mapping[1..], f);
      }
    }
  }

  lemma NoneMapped(f: string)
    ensures MappedTo([], f) == []
  {}

  lemma NobodyMapped(mapping: seq<Entry>, f: string)
    requires forall x | x in mapping :: !(IsMapped(x) && FieldOf(x) == f)
    ensures MappedTo(mapping, f) == []
  {
    FilterMember(mapping, IsMapped);
    MembersSound(Filter(mapping, IsMapped), FieldOf, f);
    HeadIn(MappedTo(mapping, f));
  }

  // ---------- structural warnings ----------

  const STRUCTURAL_WARNING_PREFIXES := [
    "missing core fields", "multiple columns map to the same field", "fields outside schema",
    "mapping contains unknown source columns", "unknown source columns"]

  /** _is_structural_warning */
  predicate Structural(u: Unicode, message: string) {
    exists p | p in STRUCTURAL_WARNING_PREFIXES :: StartsWith(Lower(u, Strip(u, message)), p)
  }

  predicate SaysMissingCore(u: Unicode, warning: string) {
    StartsWith(Lower(u, warning), "missing core fields")
  }

  predicate AsciiLetter(c: char) {
    'a' <= c <= 'z' || 'A' <= c <= 'Z'
  }

  function LowerChar(c: char): char {
    if 'A' <= c <= 'Z' then (c as int + 32) as char else c
  }

  /** What str.lower does to ASCII letters and to white space, which are apart. */
  ghost predicate LowersAscii(u: Unicode) {
    forall c {:trigger u.lower(c)} {:trigger u.space(c)} ::
      && (AsciiLetter(c) ==> u.lower(c) == [LowerChar(c)] && !u.space(c))
      && (u.space(c) || c == ' ' ==> u.lower(c) == [c])
  }

  /** ASCII words and what lower-casing makes of them. */
  predicate LowersTo(p: string, low: string) {
    |p| == |low| && forall i | 0 <= i < |p| :: (AsciiLetter(p[i]) || p[i] == ' ') && LowerChar(p[i]) == low[i]
  }

  lemma {:induction false} LowerAscii(u: Unicode, s: string, low: string)
    requires LowersAscii(u) && LowersTo(s, low)
    ensures Lower(u, s) == low
  {
    if s != "" {
      LowerAscii(u, s[1..], low[1..]);
      assert u.lower(s[0]) == [low[0]] && low == [low[0]] + low[1..];
    }
  }

  lemma {:induction false} LowerAppend(u: Unicode, s: string, t: string)
    ensures Lower(u, s + t) == Lower(u, s) + Lower(u, t)
  {
    if s == "" {
      assert s + t == t;
    } else {
      LowerAppend(u, s[1..], t);
      var st := s + t;
      assert st[0] == s[0] && st[1..] == s[1..] + t;
    }
  }

  lemma PrefixSurvives(u: Unicode, p: string, rest: string, low: string)
    requires LowersAscii(u) && LowersTo(p, low) && p != "" && AsciiLetter(p[0]) && AsciiLetter(p[|p| - 1])
    ensures StartsWith(Lower(u, p + rest), low) && StartsWith(Lower(u, Strip(u, p + rest)), low)
  {
    hide Lower, RStrip, LowersTo;
    assert !u.space(p[0]) && !u.space(p[|p| - 1]);
    assert (p + rest)[0] == p[0];
    assert LStrip(u, p + rest) == p + rest;
    var n := RStripKeeps(u, p, rest);
    LowerAppend(u, p, rest);
    LowerAppend(u, p, rest[..n]);
    LowerAscii(u, p, low);
  }

  lemma LowersToAppend(p: string, low: string, q: string, rest: string)
    requires LowersTo(p, low) && LowersTo(q, rest)
    ensures LowersTo(p + q, low + rest)
  {}

  lemma MissingLowered()
    ensures LowersTo(MISSING, "missing core fields")
  {}

  lemma MultipleColumnsLowered()
    ensures LowersTo("Multiple columns map", "multiple columns map")
  {}

  lemma SameFieldLowered()
    ensures LowersTo(" to the same field", " to the same field")
  {}

  lemma MultipleLowered()
    ensures LowersTo(MULTIPLE, "multiple columns map to the same field")
  {
    hide LowersTo;
    MultipleColumnsLowered();
    SameFieldLowered();
    LowersToAppend("Multiple columns map", "multiple columns map", " to the same field", " to the same field");
    assert "Multiple columns map" + " to the same field" == MULTIPLE;
    assert "multiple columns map" + " to the same field" == "multiple columns map to the same field";
  }

  lemma MissingIsStructural(u: Unicode, rest: string)
    requires LowersAscii(u)
    ensures SaysMissingCore(u, MISSING + rest) && Structural(u, MISSING + rest)
  {
    hide Lower, Strip, LowersTo;
    MissingLowered();
    PrefixSurvives(u, MISSING, rest, "missing core fields");
    assert STRUCTURAL_WARNING_PREFIXES[0] == "missing core fields";
  }

  lemma MultipleIsStructural(u: Unicode, rest: string)
    requires LowersAscii(u)
    ensures !SaysMissingCore(u, MULTIPLE + rest) && Structural(u, MULTIPLE + rest)
  {
    hide Lower, Strip, LowersTo;
    MultipleLowered();
    PrefixSurvives(u, MULTIPLE, rest, "multiple columns map to the same field");
    assert STRUCTURAL_WARNING_PREFIXES[1] == "multiple columns map to the same field";
    var low := Lower(u, MULTIPLE + rest);
    assert low[1] == "multiple columns map to the same field"[1] == 'u';
    assert "missing core fields"[1] == 'i';
  }

  lemma WarningsAreStructural(u: Unicode, r: Reprs, schemas: map<string, Schema>, sheetType: string,
      mapping: seq<Entry>)
    requires LowersAscii(u)
    ensures forall w | w in Warnings(r, schemas, sheetType, mapping) :: Structural(u, w)
    ensures sheetType in schemas ==>
      ((exists w | w in Warnings(r, schemas, sheetType, mapping) :: SaysMissingCore(u, w)) <==>
       MissingFields(schemas[sheetType], mapping) != {} || LacksDate(sheetType, mapping))
  {
    hide Structural, SaysMissingCore, DuplicateFields, MissingFields, LacksDate;
    if sheetType in schemas {
      var missing := MissingFields(schemas[sheetType], mapping);
      MultipleIsStructural(u, ": " + r.dict(DuplicateFields(mapping)));
      MissingIsStructural(u, ": " + r.list(SortedStrings(missing)));
      MissingIsStructural(u, NO_DATE);
      var all := Warnings(r, schemas, sheetType, mapping);
      assert missing != {} ==> MISSING + (": " + r.list(SortedStrings(missing))) in all;
      assert LacksDate(sheetType, mapping) ==> MISSING + NO_DATE in all;
    }
  }

  /** A semantic warning never says that core fields are missing, even though that test does not strip. */
  lemma SemanticNeverMissing(u: Unicode, w: string)
    requires LowersAscii(u) && SaysMissingCore(u, w)
    ensures Structural(u, w)
  {
    hide Strip;
    var p := "missing core fields";
    assert p[0] == 'm' && p[|p| - 1] == 's' && Lower(u, w)[0] == 'm';
    assert w != "" && !u.space(w[0]) by { LowerFirst(u, w); }
    assert LStrip(u, w) == w;
    RStripLower(u, w, p);
    assert Strip(u, w) == RStrip(u, w) by { StripOf(u, w); }
    assert STRUCTURAL_WARNING_PREFIXES[0] == p;
  }

  lemma StripOf(u: Unicode, w: string)
    ensures Strip(u, w) == RStrip(u, LStrip(u, w))
  {}

  lemma LowerFirst(u: Unicode, w: string)
    requires LowersAscii(u) && Lower(u, w) != "" && AsciiLetter(Lower(u, w)[0])
    ensures w != "" && !u.space(w[0])
  {
    if w != "" { LowerHead(u, w); }
  }

  lemma LowerHead(u: Unicode, w: string)
    requires LowersAscii(u) && w != ""
    ensures u.space(w[0]) ==> Lower(u, w) == [w[0]] + Lower(u, w[1..])
  {
    if u.space(w[0]) { assert u.lower(w[0]) == [w[0]]; }
  }

  lemma CutEnd(v: string, c: char, p: string)
    requires p != "" && p[|p| - 1] != c && StartsWith(v + [c], p)
    ensures StartsWith(v, p)
  {
    var low := v + [c];
    assert low[..|p|] == p && p[|p| - 1] == low[|p| - 1];
    assert v[..|p|] == p;
  }

  lemma {:induction false} RStripLower(u: Unicode, w: string, p: string)
    requires LowersAscii(u) && p != "" && AsciiLetter(p[|p| - 1]) && StartsWith(Lower(u, w), p)
    ensures StartsWith(Lower(u, RStrip(u, w)), p)
  {
    if w != "" && u.space(w[|w| - 1]) {
      var v, c := w[..|w| - 1], w[|w| - 1];
      assert w == v + [c];
      LowerAppend(u, v, [c]);
      assert Lower(u, [c]) == [c] by { assert u.lower(c) == [c] && [c][1..] == ""; }
      CutEnd(Lower(u, v), c, p);
      RStripLower(u, v, p);
    }
  }

  // ---------- finalisation ----------

  /** mapping.get(column) */
  function Lookup(mapping: seq<Entry>, column: string): Option<string> {
    if mapping == [] then None
    else if mapping[0].source == column then mapping[0].field
    else Lookup(mapping[1..], column)
  }

  function Complete(columns: seq<string>, mapping: seq<Entry>): seq<Entry> {
    var cs := Dedup(columns);
    seq(|cs|, i requires 0 <= i < |cs| => Entry(cs[i], Lookup(mapping, cs[i])))
  }

  function Semantic(u: Unicode): string -> bool {
    w => !Structural(u, w)
  }

  function FinalWarnings(u: Unicode, r: Reprs, schemas: map<string, Schema>, sheetType: string, given: seq<string>,
      mapping: seq<Entry>)
    : seq<string>
  {
    Dedup(Filter(given, Semantic(u)) + Warnings(r, schemas, sheetType, mapping))
  }

  /** finalize_mapping; None when the result violates its own schema check and is not constructed. */
  function FinalizeMapping(
      u: Unicode, r: Reprs, schemas: map<string, Schema>, columns: seq<string>, s: Suggestion, threshold: real, manual: bool)
    : Option<Suggestion>
    requires s.sheetType in schemas
  {
    var mapping := Complete(columns, s.mapping);
    var warnings := FinalWarnings(u, r, schemas, s.sheetType, s.warnings, mapping);
    var errors := Dedup(Errors(r, schemas, s.sheetType, columns, mapping));
    var missingCore := exists w | w in warnings :: SaysMissingCore(u, w);
    var confidenceReview := if manual then false else s.confidence < threshold;
    if InvalidFields(schemas[s.sheetType], mapping) != {} then None
    else Some(Suggestion(s.sheetType, if manual then 1.0 else s.confidence, mapping, warnings, errors, s.source,
                         errors != [] || missingCore || confidenceReview, s.rawResponse))
  }

  lemma {:induction false} LookupAt(mapping: seq<Entry>, i: nat)
    requires i < |mapping| && forall a, b | 0 <= a < b < |mapping| :: mapping[a].source != mapping[b].source
    ensures Lookup(mapping, mapping[i].source) == mapping[i].field
  {
    if i > 0 { LookupAt(mapping[1..], i - 1); }
  }

  /** The final mapping has exactly the profile's columns, each once, with the suggested field if there was one. */
  lemma DomainIsColumns(columns: seq<string>, mapping: seq<Entry>)
    ensures var m := Complete(columns, mapping);
      && Sources(m) == Elements(columns)
      && (forall i, j | 0 <= i < j < |m| :: m[i].source != m[j].source)
      && (forall e | e in m :: e.field == Lookup(mapping, e.source))
      && (forall c | c in columns :: Lookup(m, c) == Lookup(mapping, c))
  {
    hide Dedup, Lookup;
    var m, cs := Complete(columns, mapping), Dedup(columns);
    DedupMembers(columns);
    forall c | c in columns
      ensures c in Sources(m) && Lookup(m, c) == Lookup(mapping, c)
    {
      var i :| 0 <= i < |cs| && cs[i] == c;
      assert m[i] in m && m[i].source == c;
      LookupAt(m, i);
    }
    assert forall x | x in Sources(m) :: x in columns;
  }

  lemma CompleteTwice(columns: seq<string>, mapping: seq<Entry>)
    ensures Complete(columns, Complete(columns, mapping)) == Complete(columns, mapping)
  {
    hide Dedup, Lookup;
    DomainIsColumns(columns, mapping);
    DedupMembers(columns);
    var m, cs := Complete(columns, mapping), Dedup(columns);
    forall i | 0 <= i < |cs|
      ensures Complete(columns, m)[i] == m[i]
    {
      assert cs[i] in columns;
    }
  }

  /** Structural warnings are dropped and regenerated, semantic ones kept once each in their order. */
  lemma WarningsTwice(
      u: Unicode, r: Reprs, schemas: map<string, Schema>, sheetType: string, given: seq<string>, mapping: seq<Entry>)
    requires LowersAscii(u)
    ensures var once := FinalWarnings(u, r, schemas, sheetType, given, mapping);
      && FinalWarnings(u, r, schemas, sheetType, once, mapping) == once
      && Filter(once, Semantic(u)) == Dedup(Filter(given, Semantic(u)))
  {
    hide Warnings, Dedup, Filter, Structural;
    var keep, regenerated := Semantic(u), Warnings(r, schemas, sheetType, mapping);
    var kept := Filter(given, keep);
    WarningsAreStructural(u, r, schemas, sheetType, mapping);
    FilterDedup(kept + regenerated, keep);
    FilterAppend(kept, regenerated, keep);
    FilterMember(regenerated, keep);
    HeadIn(Filter(regenerated, keep));
    FilterMember(given, keep);
    FilterFixed(kept, keep);
    assert kept + [] == kept;
    DedupTwice(kept, regenerated);
  }

  /**
   Finalising a final mapping changes nothing. A manual confirmation is also kept by a later automatic run,
   whatever its threshold, as long as that is at most 1.
   */
  lemma FinalizeIdempotent(
      u: Unicode, r: Reprs, schemas: map<string, Schema>, columns: seq<string>, s: Suggestion, threshold: real, manual: bool)
    requires LowersAscii(u) && s.sheetType in schemas
    requires FinalizeMapping(u, r, schemas, columns, s, threshold, manual).Some?
    ensures var once := FinalizeMapping(u, r, schemas, columns, s, threshold, manual);
      && FinalizeMapping(u, r, schemas, columns, once.value, threshold, manual) == once
      && (manual ==> forall t | t <= 1.0 :: FinalizeMapping(u, r, schemas, columns, once.value, t, false) == once)
  {
    hide FinalWarnings, Errors, Complete, InvalidFields, Dedup, SaysMissingCore;
    CompleteTwice(columns, s.mapping);
    WarningsTwice(u, r, schemas, s.sheetType, s.warnings, Complete(columns, s.mapping));
  }

  /**
   A suggestion is finalised exactly when every field it gives to a profile column is in the schema, and then
   there are no errors: neither of the two error branches of the validation can be taken.
   */
  lemma FinalizedIff(
      u: Unicode, r: Reprs, schemas: map<string, Schema>, columns: seq<string>, s: Suggestion, threshold: real, manual: bool)
    requires s.sheetType in schemas
    ensures var result := FinalizeMapping(u, r, schemas, columns, s, threshold, manual);
      && (result.Some? <==> forall c | c in columns ::
            Lookup(s.mapping, c).Some? ==> Lookup(s.mapping, c).value in schemas[s.sheetType].fields)
      && (result.Some? ==> result.value.errors == [])
  {
    hide FinalWarnings, Complete, Lookup, Dedup, Errors, SaysMissingCore;
    var m, schema := Complete(columns, s.mapping), schemas[s.sheetType];
    DomainIsColumns(columns, s.mapping);
    NoErrorsIff(r, schemas, s.sheetType, columns, m);
    forall c | c in columns
      ensures exists e :: e in m && e.source == c && e.field == Lookup(s.mapping, c)
    {
      assert c in Sources(m);
    }
    forall e | e in m
      ensures e.source in columns && e.field == Lookup(s.mapping, e.source)
    {
      assert e.source in Sources(m);
    }
    if InvalidFields(schema, m) == {} {
      forall e | e in m && e.field.Some?
        ensures e.field.value in schema.fields
      {
        assert e.field.value !in InvalidFields(schema, m);
      }
      NothingToDedup();
    }
  }

  lemma NothingToDedup()
    ensures Dedup<string>([]) == []
  {}

  /**
   A final mapping needs no review exactly when every core field of its sheet type is mapped, a purchase
   history has a purchase or a receipt date, and the confidence reaches the threshold or a person confirmed it.
   */
  lemma NoReviewIff(
      u: Unicode, r: Reprs, schemas: map<string, Schema>, columns: seq<string>, s: Suggestion, threshold: real, manual: bool)
    requires LowersAscii(u) && s.sheetType in schemas
    requires FinalizeMapping(u, r, schemas, columns, s, threshold, manual).Some?
    ensures var final := FinalizeMapping(u, r, schemas, columns, s, threshold, manual).value;
      !final.requiresReview <==>
        (&& (forall f | f in schemas[s.sheetType].core :: f in MappedFields(final.mapping))
         && (s.sheetType == "purchase_history" ==>
               "purchase_date" in MappedFields(final.mapping) || "received_date" in MappedFields(final.mapping))
         && (manual || s.confidence >= threshold))
  {
    hide Complete, Errors, Warnings, Filter, Structural, SaysMissingCore, Dedup, MappedFields, InvalidFields;
    var m := Complete(columns, s.mapping);
    FinalizedIff(u, r, schemas, columns, s, threshold, manual);
    WarningsAreStructural(u, r, schemas, s.sheetType, m);
    var kept, regenerated := Filter(s.warnings, Semantic(u)), Warnings(r, schemas, s.sheetType, m);
    DedupMembers(kept + regenerated);
    FilterMember(s.warnings, Semantic(u));
    forall w | w in kept
      ensures !SaysMissingCore(u, w)
    {
      KeptNotMissing(u, w);
    }
    assert forall w :: w in kept + regenerated <==> w in kept || w in regenerated;
    var missing := MissingFields(schemas[s.sheetType], m);
    assert missing == {} <==> forall f | f in schemas[s.sheetType].core :: f in MappedFields(m) by {
      assert forall f :: f in missing <==> f in schemas[s.sheetType].core && f !in MappedFields(m);
    }
  }

  lemma KeptNotMissing(u: Unicode, w: string)
    requires LowersAscii(u) && !Structural(u, w)
    ensures !SaysMissingCore(u, w)
  {
    hide Structural, SaysMissingCore;
    if SaysMissingCore(u, w) { SemanticNeverMissing(u, w); }
  }
}
