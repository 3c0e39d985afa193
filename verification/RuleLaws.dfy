/**
 What the messages of a column mapping say, word by word and column by column: `validate_mapping` of
 app/core/rule_mapper.py, lines 164 to 189.
 */
module RuleLaws {
  import opened Text
  import opened Ordering
  import opened Grouping
  import opened RuleMapper

  // ---------- the lists ----------

  /** A sorted list without repetitions. */
  ghost predicate InAlphabet(xs: seq<string>) {
    SortedBy(xs, StrLeq) && Distinct(xs)
  }

  ghost predicate UnknownColumns(columns: seq<string>, mapping: seq<Entry>, names: seq<string>) {
    InAlphabet(names) && forall x :: x in names <==> x !in columns && exists e :: e in mapping && e.source == x
  }

  ghost predicate ForeignFields(schema: Schema, mapping: seq<Entry>, names: seq<string>) {
    InAlphabet(names) && forall x :: x in names <==> x !in schema.fields && exists e :: e in mapping && e.field == Some(x)
  }

  /** The core fields that no column is mapped to; a column mapped to the empty text is mapped to nothing. */
  ghost predicate OpenCore(schema: Schema, mapping: seq<Entry>, names: seq<string>) {
    && InAlphabet(names)
    && forall x :: x in names <==> x in schema.core && !(x != "" && exists e :: e in mapping && e.field == Some(x))
  }

  ghost predicate Dated(mapping: seq<Entry>) {
    exists e :: e in mapping && (e.field == Some("purchase_date") || e.field == Some("received_date"))
  }

  function WhenAny(names: seq<string>, message: string): seq<string> {
    if names == [] then [] else [message]
  }

  // ---------- the messages ----------

  lemma MappedIff(mapping: seq<Entry>, x: string)
    ensures x in MappedFields(mapping) <==> x != "" && exists e :: e in mapping && e.field == Some(x)
  {
    if e :| e in mapping && e.field == Some(x) && x != "" { assert IsMapped(e) && e.field.value == x; }
  }

  /** The errors: the unknown sheet type alone, or the unknown columns and then the fields outside the schema. */
  lemma ErrorsAre(r: Reprs, schemas: map<string, Schema>, sheetType: string, columns: seq<string>, mapping: seq<Entry>)
    ensures var errors := Errors(r, schemas, sheetType, columns, mapping);
      if sheetType !in schemas then errors == ["Unknown sheet type: " + sheetType]
      else exists unknown, foreign ::
        && UnknownColumns(columns, mapping, unknown) && ForeignFields(schemas[sheetType], mapping, foreign)
        && errors == WhenAny(unknown, "Mapping contains unknown source columns: " + r.list(unknown))
             + WhenAny(foreign, "Fields outside schema '" + sheetType + "': " + r.list(foreign))
  {
    hide SortedBy, Distinct, StrLeq;
    if sheetType in schemas {
      var schema := schemas[sheetType];
      var unknown, foreign := SortedStrings(UnknownSources(columns, mapping)), SortedStrings(InvalidFields(schema, mapping));
      EmptyEnumeration(unknown, UnknownSources(columns, mapping));
      EmptyEnumeration(foreign, InvalidFields(schema, mapping));
      assert UnknownColumns(columns, mapping, unknown);
      assert ForeignFields(schema, mapping, foreign);
    }
  }

  lemma MissingIs(schema: Schema, mapping: seq<Entry>)
    ensures var missing := SortedStrings(MissingFields(schema, mapping));
      OpenCore(schema, mapping, missing) && (missing == [] <==> MissingFields(schema, mapping) == {})
  {
    hide SortedBy, Distinct, StrLeq, MappedFields;
    EmptyEnumeration(SortedStrings(MissingFields(schema, mapping)), MissingFields(schema, mapping));
    forall x
      ensures x in MappedFields(mapping) <==> x != "" && exists e :: e in mapping && e.field == Some(x)
    {
      MappedIff(mapping, x);
    }
  }

  lemma DatedIff(sheetType: string, mapping: seq<Entry>)
    ensures LacksDate(sheetType, mapping) <==> sheetType == "purchase_history" && !Dated(mapping)
  {
    hide MappedFields;
    MappedIff(mapping, "purchase_date");
    MappedIff(mapping, "received_date");
  }

  /** The warnings: the shared fields, the open core fields, and a purchase history's missing date, in this order. */
  lemma WarningsAre(r: Reprs, schemas: map<string, Schema>, sheetType: string, mapping: seq<Entry>)
    requires sheetType in schemas
    ensures exists missing ::
      && OpenCore(schemas[sheetType], mapping, missing)
      && Warnings(r, schemas, sheetType, mapping) ==
           (if DuplicateFields(mapping) == [] then []
            else ["Multiple columns map to the same field" + (": " + r.dict(DuplicateFields(mapping)))])
           + WhenAny(missing, "Missing core fields" + (": " + r.list(missing)))
           + (if sheetType == "purchase_history" && !Dated(mapping)
              then ["Missing core fields" + ": ['received_date_or_purchase_date']"] else [])
  {
    hide OpenCore, StrLeq, DuplicateFields, MissingFields, LacksDate, Dated;
    var missing := SortedStrings(MissingFields(schemas[sheetType], mapping));
    MissingIs(schemas[sheetType], mapping);
    DatedIff(sheetType, mapping);
  }

  // ---------- the shared fields ----------

  /** The columns mapped to a field, in the mapping's order. */
  function Columns(mapping: seq<Entry>, f: string): seq<string> {
    if mapping == [] then []
    else (if mapping[0].field == Some(f) && f != "" then [mapping[0].source] else []) + Columns(mapping[1..], f)
  }

  function Names(entries: seq<Entry>): seq<string> {
    seq(|entries|, i requires 0 <= i < |entries| => entries[i].source)
  }

  lemma {:induction false} MappedToNames(mapping: seq<Entry>, f: string)
    requires f != ""
    ensures Names(MappedTo(mapping, f)) == Columns(mapping, f)
  {
    if mapping != [] {
      MappedToNames(mapping[1..], f);
      assert mapping == [mapping[0]] + mapping[1..];
      MappedToAppend([mapping[0]], mapping[1..], f);
      MappedToOne(mapping[0], f);
    }
  }

  lemma {:induction false} RepeatedMembers(groups: seq<Group<string, Entry>>, g: Group<string, string>)
    ensures g in Repeated(groups) <==> exists k | 0 <= k < |groups| :: |groups[k].items| > 1 && g == SourceNames(groups[k])
  {
    if groups != [] {
      RepeatedMembers(groups[1..], g);
      var rest := groups[1..];
      assert forall k | 0 <= k < |rest| :: rest[k] == groups[k + 1];
      if k :| 0 <= k < |groups| && |groups[k].items| > 1 && g == SourceNames(groups[k]) {
        if k > 0 { assert |rest[k - 1].items| > 1 && g == SourceNames(rest[k - 1]); }
      }
      if k :| 0 <= k < |rest| && |rest[k].items| > 1 && g == SourceNames(rest[k]) {
        assert |groups[k + 1].items| > 1 && g == SourceNames(groups[k + 1]);
      }
    }
  }

  /** The report of shared fields: exactly the fields with two or more columns, each with those columns in order. */
  lemma DuplicatesAre(mapping: seq<Entry>, g: Group<string, string>)
    ensures g in DuplicateFields(mapping) <==> g.items == Columns(mapping, g.key) && |g.items| > 1
  {
    hide Groups, Members, Filter, Columns, Repeated;
    var mapped := Filter(mapping, IsMapped);
    var groups := Groups(mapped, FieldOf);
    GroupsSound(mapped, FieldOf);
    RepeatedMembers(groups, g);
    FilterMember(mapping, IsMapped);
    if k :| 0 <= k < |groups| && |groups[k].items| > 1 && g == SourceNames(groups[k]) {
      MembersSound(mapped, FieldOf, g.key);
      assert groups[k].items[0] in groups[k].items;
      MappedToNames(mapping, g.key);
      assert g.items == Names(MappedTo(mapping, g.key));
    }
    if g.items == Columns(mapping, g.key) && |g.items| > 1 {
      if g.key == "" { NoColumns(mapping); }
      MappedToNames(mapping, g.key);
      var first := MappedTo(mapping, g.key)[0];
      MembersSound(mapped, FieldOf, g.key);
      assert first in MappedTo(mapping, g.key);
      var k :| 0 <= k < |groups| && groups[k].key == FieldOf(first);
      assert groups[k].items == MappedTo(mapping, g.key);
      assert SourceNames(groups[k]) == g;
    }
  }

  lemma {:induction false} NoColumns(mapping: seq<Entry>)
    ensures Columns(mapping, "") == []
  {
    if mapping != [] { NoColumns(mapping[1..]); }
  }

  // ---------- structural messages ----------

  /** A message is regenerated rather than kept when, stripped and in lower case, it starts with one of five phrases. */
  lemma StructuralIff(u: Unicode, message: string)
    ensures var m := Lower(u, Strip(u, message));
      Structural(u, message) <==>
        || StartsWith(m, "missing core fields") || StartsWith(m, "multiple columns map to the same field")
        || StartsWith(m, "fields outside schema") || StartsWith(m, "mapping contains unknown source columns")
        || StartsWith(m, "unknown source columns")
  {
    hide StartsWith, Lower, Strip;
    var ps := STRUCTURAL_WARNING_PREFIXES;
    assert ps[0] in ps && ps[1] in ps && ps[2] in ps && ps[3] in ps && ps[4] in ps;
  }

  /** What finalising leaves alone and what it sets. */
  lemma FinalIs(
      u: Unicode, r: Reprs, schemas: map<string, Schema>, columns: seq<string>, s: Suggestion, threshold: real, manual: bool)
    requires s.sheetType in schemas && FinalizeMapping(u, r, schemas, columns, s, threshold, manual).Some?
    ensures var final := FinalizeMapping(u, r, schemas, columns, s, threshold, manual).value;
      && final.sheetType == s.sheetType && final.source == s.source && final.rawResponse == s.rawResponse
      && final.confidence == (if manual then 1.0 else s.confidence)
      && final.mapping == Complete(columns, s.mapping)
      && forall w :: w in final.warnings <==>
           (w in s.warnings && !Structural(u, w)) || w in Warnings(r, schemas, s.sheetType, final.mapping)
  {
    hide Complete, Errors, Warnings, Structural, SaysMissingCore, Dedup, Filter, InvalidFields;
    var regenerated := Warnings(r, schemas, s.sheetType, Complete(columns, s.mapping));
    FilterMember(s.warnings, Semantic(u));
    DedupMembers(Filter(s.warnings, Semantic(u)) + regenerated);
  }
}
