/** Every field of a risk detail and the order of the list, said of the facts and the metadata table. */
module RiskLaws {
  import opened Text
  import opened Ordering
  import opened RiskProjection
  import opened Grouping

  // ---------- which facts share a detail ----------

  /** The fact is shown to people at all, under this public classification. */
  predicate ShownAs(f: Fact, c: Public) {
    || (f.classification == RiskSignal && c == PublicRisk)
    || (f.classification == Limitation && c == PublicLimitation)
    || (f.classification == Unknown && c == PublicUnknown)
  }

  predicate IsShown(f: Fact) {
    ShownAs(f, PublicRisk) || ShownAs(f, PublicLimitation) || ShownAs(f, PublicUnknown)
  }

  predicate HasCode(f: Fact, code: string) {
    if f.code == "" then f.factType == code else f.code == code
  }

  /** Both name the entity alike, or neither names it. */
  predicate SameEntity(f: Fact, g: Fact, key: string) {
    (key in f.entities <==> key in g.entities) && (key in f.entities ==> f.entities[key] == g.entities[key])
  }

  /** Facts of one detail: same code, classification and scope, same ingredient, supplier and strategy. */
  predicate SameCard(f: Fact, g: Fact) {
    && f.classification == g.classification && f.scope == g.scope
    && (if g.code == "" then HasCode(f, g.factType) else HasCode(f, g.code))
    && SameEntity(f, g, "ingredient_id") && SameEntity(f, g, "supplier_id") && SameEntity(f, g, "strategy")
  }

  lemma LookupSame(f: Fact, g: Fact, key: string)
    ensures Lookup(f.entities, key) == Lookup(g.entities, key) <==> SameEntity(f, g, key)
  {}

  lemma CardIff(f: Fact, g: Fact)
    requires Relevant(f) && Relevant(g)
    ensures KeyOf(f) == KeyOf(g) <==> SameCard(f, g)
  {
    hide SameEntity, Lookup;
    LookupSame(f, g, "ingredient_id");
    LookupSame(f, g, "supplier_id");
    LookupSame(f, g, "strategy");
  }

  // ---------- what a detail shows ----------

  /** The table knows the code with the classification of the fact. */
  ghost predicate Known(table: map<string, Metadata>, f: Fact, m: Metadata) {
    exists code :: HasCode(f, code) && code in table && table[code] == m && ShownAs(f, m.classification)
  }

  ghost predicate Described(table: map<string, Metadata>, f: Fact, d: Detail) {
    && HasCode(f, d.code) && d.scope == f.scope
    && (forall m :: Known(table, f, m) ==>
          && d.classification == m.classification && d.category == m.category && d.severity == m.severity
          && d.title == m.title && d.meaning == m.meaning && d.action == m.action)
    && ((forall m :: !Known(table, f, m)) ==>
          && d.classification == PublicUnknown && d.category == "unknown" && d.severity == Warning
          && d.title == "Cảnh báo hệ thống" && d.meaning == None && d.action == None)
  }

  /** The ingredient of the fact, by id and, if the plan names it, by name. */
  ghost predicate Placed(names: map<string, string>, f: Fact, d: Detail) {
    && (d.ingredientId.Some? <==> "ingredient_id" in f.entities)
    && (d.ingredientId.Some? ==> d.ingredientId.value == f.entities["ingredient_id"])
    && (d.ingredientName.Some? <==> d.ingredientId.Some? && d.ingredientId.value != "" && d.ingredientId.value in names)
    && (d.ingredientName.Some? ==> d.ingredientName.value == names[d.ingredientId.value])
  }

  /** It counts the facts it stands for and cites what they cite, each once, in order. */
  ghost predicate Cites(facts: seq<Fact>, f: Fact, d: Detail) {
    && d.sourceCount == |Filter(facts, (g: Fact) => IsShown(g) && SameCard(g, f))|
    && SortedBy(d.evidenceIds, StrLeq) && Distinct(d.evidenceIds)
    && forall s :: s in d.evidenceIds <==> exists g :: g in facts && IsShown(g) && SameCard(g, f) && s in g.sources
  }

  ghost predicate Stands(table: map<string, Metadata>, names: map<string, string>, facts: seq<Fact>, f: Fact, d: Detail) {
    Described(table, f, d) && Placed(names, f, d) && Cites(facts, f, d)
  }

  lemma {:induction false} MembersFilter(facts: seq<Fact>, f: Fact)
    requires Relevant(f)
    ensures Members(Filter(facts, Relevant), KeyOf, KeyOf(f)) == Filter(facts, (g: Fact) => IsShown(g) && SameCard(g, f))
  {
    hide KeyOf, SameCard;
    if facts != [] {
      MembersFilter(facts[1..], f);
      var kept, g := Filter(facts, Relevant), facts[0];
      if Relevant(g) {
        CardIff(g, f);
        assert kept[0] == g && kept[1..] == Filter(facts[1..], Relevant);
      }
    }
  }

  lemma DescribedIs(table: map<string, Metadata>, names: map<string, string>, f: Fact, members: seq<Fact>)
    requires Relevant(f)
    ensures var d := DetailOf(table, names, KeyOf(f), members); Described(table, f, d) && Placed(names, f, d)
  {
    var key := KeyOf(f);
    assert HasCode(f, key.code) && forall code :: HasCode(f, code) <==> code == key.code;
    assert forall c :: ShownAs(f, c) <==> c == key.classification;
    if key.code in table && table[key.code].classification == key.classification {
      assert Known(table, f, table[key.code]);
    }
  }

  lemma CitesIs(table: map<string, Metadata>, names: map<string, string>, facts: seq<Fact>, f: Fact)
    requires Relevant(f)
    ensures Cites(facts, f, DetailOf(table, names, KeyOf(f), Members(Filter(facts, Relevant), KeyOf, KeyOf(f))))
  {
    hide KeyOf, SameCard, IsShown, Filter, Members, MetadataFor, NameOf;
    var card := (g: Fact) => IsShown(g) && SameCard(g, f);
    MembersFilter(facts, f);
    FilterMember(facts, card);
    var members := Filter(facts, card);
    assert forall s :: s in Sources(members) <==> exists g :: g in members && s in g.sources;
  }

  lemma {:induction false} DetailsOf(table: map<string, Metadata>, names: map<string, string>, keys: seq<Key>, relevant: seq<Fact>,
      d: Detail)
    ensures d in DetailsOfKeys(table, names, keys, relevant) <==>
      exists k :: k in keys && d == DetailOf(table, names, k, Members(relevant, KeyOf, k))
  {
    hide DetailOf, Members, KeyOf;
    if keys != [] {
      DetailsOf(table, names, keys[1..], relevant, d);
      assert keys == [keys[0]] + keys[1..];
      var first, rest := DetailOf(table, names, keys[0], Members(relevant, KeyOf, keys[0])), DetailsOfKeys(table, names, keys[1..], relevant);
      assert DetailsOfKeys(table, names, keys, relevant) == [first] + rest;
      if d in rest {
        var k :| k in keys[1..] && d == DetailOf(table, names, k, Members(relevant, KeyOf, k));
        assert k in keys;
      }
      if k :| k in keys && d == DetailOf(table, names, k, Members(relevant, KeyOf, k)) {
        assert k == keys[0] || k in keys[1..];
      }
    }
  }

  lemma InDetails(table: map<string, Metadata>, names: map<string, string>, facts: seq<Fact>, d: Detail)
    ensures d in RiskDetails(table, names, facts) <==>
      exists k :: k in Keys(facts) && d == DetailOf(table, names, k, Members(Filter(facts, Relevant), KeyOf, k))
  {
    hide KeyOf, Filter, Members, DetailOf, Keys, RiskDetails, DetailsOfKeys, Relevant;
    var r, all := RiskDetails(table, names, facts), DetailsOfKeys(table, names, Keys(facts), Filter(facts, Relevant));
    DetailsPartition(table, names, facts);
    DetailsOf(table, names, Keys(facts), Filter(facts, Relevant), d);
    assert d in r <==> d in multiset(r);
    assert d in all <==> d in multiset(all);
  }

  /** Every fact that is shown has a detail that stands for it, and every detail stands for such a fact. */
  lemma DetailsStand(table: map<string, Metadata>, names: map<string, string>, facts: seq<Fact>)
    ensures var r := RiskDetails(table, names, facts);
      && (forall f | f in facts && IsShown(f) :: exists d :: d in r && Stands(table, names, facts, f, d))
      && (forall d | d in r :: exists f :: f in facts && IsShown(f) && Stands(table, names, facts, f, d))
  {
    hide KeyOf, Filter, Members, DetailOf, Keys, RiskDetails, Stands, IsShown, Relevant;
    KeysCover(facts);
    forall f | f in facts && IsShown(f)
      ensures exists d :: d in RiskDetails(table, names, facts) && Stands(table, names, facts, f, d)
    {
      ShownIsRelevant(f);
      var d := DetailOf(table, names, KeyOf(f), Members(Filter(facts, Relevant), KeyOf, KeyOf(f)));
      InDetails(table, names, facts, d);
      ItsDetailStands(table, names, facts, f);
    }
    forall d | d in RiskDetails(table, names, facts)
      ensures exists f :: f in facts && IsShown(f) && Stands(table, names, facts, f, d)
    {
      InDetails(table, names, facts, d);
      var k :| k in Keys(facts) && d == DetailOf(table, names, k, Members(Filter(facts, Relevant), KeyOf, k));
      var f :| f in facts && Relevant(f) && KeyOf(f) == k;
      ShownIsRelevant(f);
      ItsDetailStands(table, names, facts, f);
    }
  }

  lemma ItsDetailStands(table: map<string, Metadata>, names: map<string, string>, facts: seq<Fact>, f: Fact)
    requires f in facts && Relevant(f)
    ensures Stands(table, names, facts, f, DetailOf(table, names, KeyOf(f), Members(Filter(facts, Relevant), KeyOf, KeyOf(f))))
  {
    hide KeyOf, Filter, Members, DetailOf, Described, Placed, Cites, IsShown, Relevant;
    ShownIsRelevant(f);
    DescribedIs(table, names, f, Members(Filter(facts, Relevant), KeyOf, KeyOf(f)));
    CitesIs(table, names, facts, f);
  }

  lemma ShownIsRelevant(f: Fact)
    ensures IsShown(f) <==> Relevant(f)
  {}

  // ---------- the order ----------

  /** Risks before limitations before what is unknown. */
  predicate ClassBefore(a: Public, b: Public) {
    (a == PublicRisk && b != PublicRisk) || (a == PublicLimitation && b == PublicUnknown)
  }

  predicate Graver(a: Severity, b: Severity) {
    (a == Critical && b != Critical) || (a == Warning && b == Info)
  }

  /** The ingredient ids in order, a detail without one first. */
  predicate IdBefore(a: Detail, b: Detail) {
    a.ingredientId.None? || (if b.ingredientId.None? then a.ingredientId.value == "" else StrLeq(a.ingredientId.value, b.ingredientId.value))
  }

  predicate NameBefore(a: Detail, b: Detail) {
    || (a.category != b.category && StrLeq(a.category, b.category))
    || (a.category == b.category && a.code != b.code && StrLeq(a.code, b.code))
    || (a.category == b.category && a.code == b.code && IdBefore(a, b))
  }

  /** By classification, then severity, then category, code and ingredient. */
  predicate InOrder(a: Detail, b: Detail) {
    || ClassBefore(a.classification, b.classification)
    || (a.classification == b.classification && Graver(a.severity, b.severity))
    || (a.classification == b.classification && a.severity == b.severity && NameBefore(a, b))
  }

  lemma InOrderIff(a: Detail, b: Detail)
    ensures KeyLeq(a, b) <==> InOrder(a, b)
  {
    hide StrLeq;
    EmptyFirst(IdText(a));
    EmptyFirst(IdText(b));
  }

  lemma EmptyFirst(s: string)
    ensures StrLeq("", s) && (StrLeq(s, "") <==> s == "")
  {}

  /** The details come in that order. */
  lemma DetailsInOrder(table: map<string, Metadata>, names: map<string, string>, facts: seq<Fact>)
    ensures var r := RiskDetails(table, names, facts); forall i, j | 0 <= i < j < |r| :: InOrder(r[i], r[j])
  {
    hide RiskDetails, InOrder, KeyLeq;
    DetailsPartition(table, names, facts);
    var r := RiskDetails(table, names, facts);
    forall i, j | 0 <= i < j < |r|
      ensures InOrder(r[i], r[j])
    {
      InOrderIff(r[i], r[j]);
    }
  }
}
