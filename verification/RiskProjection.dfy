/**
 Risk and limitation details for people: app/decision_intelligence/risk_metadata.py, lines 54 to 124.

 The metadata table and the ingredient names are parameters.
 */
module RiskProjection {
  import opened Text
  import opened Ordering
  import opened Grouping

  datatype Classification = Observation | Derived | Causal | RiskSignal | Limitation | Unknown

  datatype Public = PublicRisk | PublicLimitation | PublicUnknown

  datatype Severity = Critical | Warning | Info

  datatype Scope = Run | Ingredient | Supplier | Strategy

  /** `code` is the text of the value under "code", "" when that is absent or false. */
  datatype Fact = Fact(
    factType: string, code: string, classification: Classification, scope: Scope, entities: map<string, string>,
    sources: seq<string>)

  datatype Metadata = Metadata(
    classification: Public, category: string, severity: Severity, title: string, meaning: Option<string>,
    action: Option<string>)

  /** The entities that separate details; the others only say where a fact comes from. */
  datatype Entity = Entity(ingredientId: Option<string>, strategy: Option<string>, supplierId: Option<string>)

  datatype Key = Key(code: string, classification: Public, scope: Scope, entity: Entity)

  datatype Detail = Detail(
    code: string, classification: Public, category: string, severity: Severity, title: string, meaning: Option<string>,
    action: Option<string>, scope: Scope, ingredientId: Option<string>, ingredientName: Option<string>,
    evidenceIds: seq<string>, sourceCount: nat)

  // ---------- grouping ----------

  predicate Relevant(f: Fact) {
    f.classification == RiskSignal || f.classification == Limitation || f.classification == Unknown
  }

  /** _public_classification */
  function PublicOf(f: Fact): Public {
    match f.classification
    case RiskSignal => PublicRisk
    case Limitation => PublicLimitation
    case _ => PublicUnknown
  }

  function Lookup(m: map<string, string>, k: string): Option<string> {
    if k in m then Some(m[k]) else None
  }

  function KeyOf(f: Fact): Key {
    Key(if f.code != "" then f.code else f.factType, PublicOf(f), f.scope,
        Entity(Lookup(f.entities, "ingredient_id"), Lookup(f.entities, "strategy"), Lookup(f.entities, "supplier_id")))
  }

  // ---------- one detail ----------

  const SYSTEM_WARNING := Metadata(PublicUnknown, "unknown", Warning, "Cảnh báo hệ thống", None, None)

  /** A code without metadata, or with metadata of another classification, is shown as unknown. */
  function MetadataFor(table: map<string, Metadata>, key: Key): Metadata {
    if key.code in table && table[key.code].classification == key.classification then table[key.code] else SYSTEM_WARNING
  }

  function Sources(facts: seq<Fact>): set<string> {
    set f, s | f in facts && s in f.sources :: s
  }

  function NameOf(names: map<string, string>, id: Option<string>): Option<string> {
    if id.Some? && id.value != "" then Lookup(names, id.value) else None
  }

  function DetailOf(table: map<string, Metadata>, names: map<string, string>, key: Key, facts: seq<Fact>): Detail {
    var m := MetadataFor(table, key);
    Detail(key.code, m.classification, m.category, m.severity, m.title, m.meaning, m.action, key.scope,
           key.entity.ingredientId, NameOf(names, key.entity.ingredientId), SortedStrings(Sources(facts)), |facts|)
  }

  // ---------- order ----------

  function ClassRank(c: Public): int {
    match c
    case PublicRisk => 0
    case PublicLimitation => 1
    case PublicUnknown => 2
  }

  function SeverityRank(s: Severity): int {
    match s
    case Critical => 0
    case Warning => 1
    case Info => 2
  }

  function IdText(d: Detail): string {
    match d.ingredientId
    case None => ""
    case Some(id) => id
  }

  /** The two ranks as one number: severities are fewer than three. */
  function Rank(d: Detail): int {
    3 * ClassRank(d.classification) + SeverityRank(d.severity)
  }

  /** The sort key: classification, severity, category, code, ingredient. */
  predicate KeyLeq(a: Detail, b: Detail) {
    || Rank(a) < Rank(b)
    || (Rank(a) == Rank(b) && TextsLeq(a, b))
  }

  predicate TextsLeq(a: Detail, b: Detail) {
    if a.category != b.category then StrLeq(a.category, b.category)
    else if a.code != b.code then StrLeq(a.code, b.code)
    else StrLeq(IdText(a), IdText(b))
  }

  lemma TextsOrder(a: Detail, b: Detail, c: Detail)
    ensures TextsLeq(a, b) || TextsLeq(b, a)
    ensures TextsLeq(a, b) && TextsLeq(b, c) ==> TextsLeq(a, c)
  {
    hide StrLeq;
    StrOrder();
  }

  lemma KeyOrder()
    ensures TotalPreorder(KeyLeq)
  {
    hide TextsLeq, Rank;
    forall a: Detail, b: Detail
      ensures KeyLeq(a, b) || KeyLeq(b, a)
    {
      TextsOrder(a, b, a);
    }
    forall a: Detail, b: Detail, c: Detail | KeyLeq(a, b) && KeyLeq(b, c)
      ensures KeyLeq(a, c)
    {
      TextsOrder(a, b, c);
    }
  }

  // ---------- the projection ----------

  function Unsorted(table: map<string, Metadata>, names: map<string, string>,
      groups: seq<Group<Key, Fact>>): seq<Detail> {
    if groups == [] then []
    else [DetailOf(table, names, groups[0].key, groups[0].items)] + Unsorted(table, names, groups[1..])
  }

  function GroupsOf(facts: seq<Fact>): seq<Group<Key, Fact>> {
    Groups(Filter(facts, Relevant), KeyOf)
  }

  function RiskDetails(table: map<string, Metadata>, names: map<string, string>, facts: seq<Fact>): seq<Detail> {
    Sort(Unsorted(table, names, GroupsOf(facts)), KeyLeq)
  }

  /** project_risk_details */
  method ProjectRiskDetails(table: map<string, Metadata>, names: map<string, string>, facts: seq<Fact>)
    returns (sorted: seq<Detail>)
    ensures sorted == RiskDetails(table, names, facts)
  {
    hide Groups, AddTo, Filter, Sort, DetailOf, KeyOf;
    var groups: seq<Group<Key, Fact>> := [];
    NoGroups(KeyOf);
    FilterNone();
    for i := 0 to |facts|
      invariant groups == GroupsOf(facts[..i])
    {
      var f := facts[i];
      assert facts[..i + 1] == facts[..i] + [f];
      RelevantOne(facts[..i], f);
      if !Relevant(f) { continue; }
      GroupsSnoc(Filter(facts[..i], Relevant), f, KeyOf);
      groups := AddTo(groups, KeyOf(f), f);
    }
    assert facts[..|facts|] == facts;
    var details := [];
    for i := 0 to |groups|
      invariant details + Unsorted(table, names, groups[i..]) == Unsorted(table, names, groups)
    {
      assert groups[i..][0] == groups[i] && groups[i..][1..] == groups[i + 1..];
      details := details + [DetailOf(table, names, groups[i].key, groups[i].items)];
    }
    assert groups[|groups|..] == [];
    assert details == Unsorted(table, names, GroupsOf(facts));
    sorted := Sort(details, KeyLeq);
  }

  lemma FilterNone()
    ensures Filter([], Relevant) == []
  {}

  lemma RelevantOne(facts: seq<Fact>, f: Fact)
    ensures Filter(facts + [f], Relevant) == if Relevant(f) then Filter(facts, Relevant) + [f] else Filter(facts, Relevant)
  {
    FilterAppend(facts, [f], Relevant);
    assert [f][1..] == [];
    assert Filter(facts, Relevant) + [] == Filter(facts, Relevant);
  }

  // ---------- the details partition the facts ----------

  /** The details of the keys, each over all facts with the key. */
  function DetailsOfKeys(table: map<string, Metadata>, names: map<string, string>, keys: seq<Key>,
      relevant: seq<Fact>): seq<Detail> {
    if keys == [] then []
    else [DetailOf(table, names, keys[0], Members(relevant, KeyOf, keys[0]))]
         + DetailsOfKeys(table, names, keys[1..], relevant)
  }

  function Keys(facts: seq<Fact>): seq<Key> {
    Dedup(KeysOf(Filter(facts, Relevant), KeyOf))
  }

  lemma {:induction false} UnsortedByKey(
      table: map<string, Metadata>, names: map<string, string>, keys: seq<Key>, groups: seq<Group<Key, Fact>>, relevant: seq<Fact>)
    requires |keys| == |groups|
    requires forall i | 0 <= i < |keys| :: groups[i] == Group(keys[i], Members(relevant, KeyOf, keys[i]))
    ensures Unsorted(table, names, groups) == DetailsOfKeys(table, names, keys, relevant)
  {
    hide Members, KeyOf, DetailOf;
    if keys != [] {
      UnsortedByKey(table, names, keys[1..], groups[1..], relevant);
    }
  }

  lemma UnsortedIs(table: map<string, Metadata>, names: map<string, string>, facts: seq<Fact>)
    ensures Unsorted(table, names, GroupsOf(facts)) == DetailsOfKeys(table, names, Keys(facts), Filter(facts, Relevant))
  {
    hide Members, KeyOf, DetailOf, Dedup, Filter, Unsorted;
    UnsortedByKey(table, names, Keys(facts), GroupsOf(facts), Filter(facts, Relevant));
  }

  function CountOf(d: Detail): real {
    d.sourceCount as real
  }

  lemma {:induction false} CountsByKey(table: map<string, Metadata>, names: map<string, string>, keys: seq<Key>,
      relevant: seq<Fact>)
    ensures Total(DetailsOfKeys(table, names, keys, relevant), CountOf) == CountByKey(keys, relevant, KeyOf) as real
    ensures |DetailsOfKeys(table, names, keys, relevant)| == |keys|
  {
    hide Members, KeyOf, MetadataFor, NameOf, SortedStrings;
    if keys != [] {
      CountsByKey(table, names, keys[1..], relevant);
    }
  }

  lemma KeysCover(facts: seq<Fact>)
    ensures Distinct(Keys(facts))
    ensures forall k :: k in Keys(facts) <==> exists f :: f in facts && Relevant(f) && KeyOf(f) == k
  {
    hide KeyOf, Relevant, Dedup;
    var relevant := Filter(facts, Relevant);
    FilterMember(facts, Relevant);
    DedupMembers(KeysOf(relevant, KeyOf));
    forall k
      ensures k in Keys(facts) <==> exists f :: f in facts && Relevant(f) && KeyOf(f) == k
    {
      if k in Keys(facts) {
        var i :| 0 <= i < |relevant| && KeysOf(relevant, KeyOf)[i] == k;
        assert relevant[i] in relevant;
      }
      if f :| f in facts && Relevant(f) && KeyOf(f) == k {
        assert f in relevant;
        var i :| 0 <= i < |relevant| && relevant[i] == f;
        assert KeysOf(relevant, KeyOf)[i] == k;
      }
    }
  }

  /**
   The details are a partition: there is one per distinct key, they come in the stated order, and their source
   counts add up to the number of risk, limitation and unknown facts.
   */
  lemma DetailsPartition(table: map<string, Metadata>, names: map<string, string>, facts: seq<Fact>)
    ensures var r := RiskDetails(table, names, facts);
      && |r| == |Keys(facts)|
      && SortedBy(r, KeyLeq)
      && multiset(r) == multiset(DetailsOfKeys(table, names, Keys(facts), Filter(facts, Relevant)))
      && Total(r, CountOf) == |Filter(facts, Relevant)| as real
  {
    hide Members, KeyOf, DetailOf, Filter, Sort, Total, KeyLeq, Keys, Unsorted;
    var relevant, keys := Filter(facts, Relevant), Keys(facts);
    var details := Unsorted(table, names, GroupsOf(facts));
    UnsortedIs(table, names, facts);
    KeyOrder();
    SortSorted(details, KeyLeq);
    SortTotal(details, KeyLeq, CountOf);
    CountsByKey(table, names, keys, relevant);
    KeysCover(facts);
    FilterMember(facts, Relevant);
    Partition(keys, relevant, KeyOf, One);
  }

  function One(f: Fact): real {
    1.0
  }

  /**
   The evidence of a key's detail is the union of what its facts cite, sorted and without repetition, and the
   detail counts those facts.
   */
  lemma EvidenceIsUnion(table: map<string, Metadata>, names: map<string, string>, facts: seq<Fact>, k: Key)
    ensures var d := DetailOf(table, names, k, Members(Filter(facts, Relevant), KeyOf, k));
      && SortedBy(d.evidenceIds, StrLeq) && Distinct(d.evidenceIds)
      && (forall s :: s in d.evidenceIds <==> exists f :: f in facts && Relevant(f) && KeyOf(f) == k && s in f.sources)
      && (d.sourceCount > 0 <==> k in Keys(facts))
  {
    hide KeyOf, Filter, Members, StrLeq, Relevant, Keys;
    var relevant := Filter(facts, Relevant);
    var members := Members(relevant, KeyOf, k);
    FilterMember(facts, Relevant);
    MembersSound(relevant, KeyOf, k);
    KeysCover(facts);
    HeadIn(members);
    assert forall s :: s in Sources(members) <==> exists f :: f in members && s in f.sources;
  }

  // ---------- the order of the facts does not matter ----------

  lemma {:induction false} FilterCount<T(!new)>(s: seq<T>, keep: T -> bool, x: T)
    ensures multiset(Filter(s, keep))[x] == if keep(x) then multiset(s)[x] else 0
  {
    if s != [] {
      assert s == [s[0]] + s[1..];
      FilterCount(s[1..], keep, x);
    }
  }

  lemma {:induction false} MembersCount(s: seq<Fact>, k: Key, x: Fact)
    ensures multiset(Members(s, KeyOf, k))[x] == if KeyOf(x) == k then multiset(s)[x] else 0
  {
    hide KeyOf;
    if s != [] {
      assert s == [s[0]] + s[1..];
      MembersCount(s[1..], k, x);
    }
  }

  lemma SameMembers(a: seq<Fact>, b: seq<Fact>, k: Key)
    requires multiset(a) == multiset(b)
    ensures multiset(Members(Filter(a, Relevant), KeyOf, k)) == multiset(Members(Filter(b, Relevant), KeyOf, k))
  {
    hide KeyOf, Members, Filter, Relevant;
    forall x
      ensures multiset(Members(Filter(a, Relevant), KeyOf, k))[x] == multiset(Members(Filter(b, Relevant), KeyOf, k))[x]
    {
      FilterCount(a, Relevant, x);
      FilterCount(b, Relevant, x);
      MembersCount(Filter(a, Relevant), k, x);
      MembersCount(Filter(b, Relevant), k, x);
    }
  }

  lemma SameDetail(table: map<string, Metadata>, names: map<string, string>, k: Key, a: seq<Fact>, b: seq<Fact>)
    requires multiset(a) == multiset(b)
    ensures DetailOf(table, names, k, a) == DetailOf(table, names, k, b)
  {
    hide SortedStrings, MetadataFor;
    assert |a| == |multiset(a)| == |multiset(b)| == |b|;
    assert forall f :: f in a <==> f in multiset(a);
    assert forall f :: f in b <==> f in multiset(b);
    assert Sources(a) == Sources(b);
  }

  function AllOthers<T(==)>(s: seq<T>, x: T): seq<T> {
    if s == [] then [] else if s[0] == x then AllOthers(s[1..], x) else [s[0]] + AllOthers(s[1..], x)
  }

  lemma DistinctCons<T(!new)>(s: seq<T>)
    requires s != []
    ensures Distinct(s) <==> s[0] !in s[1..] && Distinct(s[1..])
  {
    if s[0] !in s[1..] && Distinct(s[1..]) {
      forall i, j | 0 <= i < j < |s|
        ensures s[i] != s[j]
      {
        assert s[j] == s[1..][j - 1] && (i > 0 ==> s[i] == s[1..][i - 1]);
      }
    }
  }

  lemma {:induction false} OthersSound<T(!new)>(s: seq<T>, x: T)
    requires Distinct(s)
    ensures Distinct(AllOthers(s, x)) && forall y :: y in AllOthers(s, x) <==> y in s && y != x
    ensures x !in s ==> AllOthers(s, x) == s
    ensures |AllOthers(s, x)| == if x in s then |s| - 1 else |s|
  {
    hide Distinct;
    if s != [] {
      DistinctCons(s);
      OthersSound(s[1..], x);
      assert s == [s[0]] + s[1..];
      var rest := AllOthers(s[1..], x);
      DistinctCons([s[0]] + rest);
      assert ([s[0]] + rest)[1..] == rest;
    } else {
      NothingDistinct<T>();
    }
  }

  lemma NothingDistinct<T>()
    ensures Distinct<T>([])
  {}

  /** Taking one key out of a list of distinct keys takes its detail out of theirs. */
  lemma {:induction false} TakeOut(table: map<string, Metadata>, names: map<string, string>, keys: seq<Key>, k: Key,
      relevant: seq<Fact>)
    requires Distinct(keys) && k in keys
    ensures multiset(DetailsOfKeys(table, names, keys, relevant))
         == multiset(DetailsOfKeys(table, names, AllOthers(keys, k), relevant))
            + multiset{DetailOf(table, names, k, Members(relevant, KeyOf, k))}
  {
    hide DetailOf, Members, KeyOf, Distinct, DetailsOfKeys;
    DistinctCons(keys);
    DetailsCons(table, names, keys[0], keys[1..], relevant);
    assert keys == [keys[0]] + keys[1..];
    if keys[0] == k {
      OthersSound(keys[1..], k);
    } else {
      TakeOut(table, names, keys[1..], k, relevant);
      DetailsCons(table, names, keys[0], AllOthers(keys[1..], k), relevant);
    }
  }

  lemma DetailsCons(table: map<string, Metadata>, names: map<string, string>, k: Key, rest: seq<Key>,
      relevant: seq<Fact>)
    ensures multiset(DetailsOfKeys(table, names, [k] + rest, relevant))
         == multiset(DetailsOfKeys(table, names, rest, relevant))
            + multiset{DetailOf(table, names, k, Members(relevant, KeyOf, k))}
  {
    hide DetailOf, Members, KeyOf;
    assert ([k] + rest)[1..] == rest;
  }

  ghost predicate SameElements<T(!new)>(a: seq<T>, b: seq<T>) {
    forall x :: x in a <==> x in b
  }

  ghost predicate SameByKey(a: seq<Fact>, b: seq<Fact>) {
    forall k :: multiset(Members(a, KeyOf, k)) == multiset(Members(b, KeyOf, k))
  }

  lemma NoDetails(table: map<string, Metadata>, names: map<string, string>, relevant: seq<Fact>)
    ensures DetailsOfKeys(table, names, [], relevant) == []
  {}

  lemma OthersSameElements<T(!new)>(a: seq<T>, b: seq<T>, x: T)
    requires Distinct(a) && Distinct(b) && SameElements(a, b) && x in a
    ensures var c, d := AllOthers(a, x), AllOthers(b, x);
      x in b && Distinct(c) && Distinct(d) && SameElements(c, d) && |c| < |a|
  {
    hide AllOthers, Distinct;
    OthersSound(a, x);
    OthersSound(b, x);
  }

  /** Details of the same keys over the same facts, whatever the order of either. */
  lemma {:induction false} SameDetails(
      table: map<string, Metadata>, names: map<string, string>, ks: seq<Key>, ls: seq<Key>, a: seq<Fact>, b: seq<Fact>)
    requires Distinct(ks) && Distinct(ls) && SameElements(ks, ls) && SameByKey(a, b)
    ensures multiset(DetailsOfKeys(table, names, ks, a)) == multiset(DetailsOfKeys(table, names, ls, b))
    decreases |ks|
  {
    hide DetailOf, Members, KeyOf, AllOthers, DetailsOfKeys, Distinct;
    if ks == [] {
      HeadIn(ls);
      NoDetails(table, names, a);
      NoDetails(table, names, b);
    } else {
      var k := ks[0];
      OthersSameElements(ks, ls, k);
      TakeOut(table, names, ks, k, a);
      TakeOut(table, names, ls, k, b);
      SameDetail(table, names, k, Members(a, KeyOf, k), Members(b, KeyOf, k));
      SameDetails(table, names, AllOthers(ks, k), AllOthers(ls, k), a, b);
    }
  }

  /** The same facts in another order give the same details, up to the order of those with equal sort keys. */
  lemma OrderIrrelevant(table: map<string, Metadata>, names: map<string, string>, a: seq<Fact>, b: seq<Fact>)
    requires multiset(a) == multiset(b)
    ensures multiset(RiskDetails(table, names, a)) == multiset(RiskDetails(table, names, b))
  {
    hide KeyOf, Relevant, Filter, Members, RiskDetails, DetailsOfKeys, Keys, DetailOf;
    DetailsPartition(table, names, a);
    DetailsPartition(table, names, b);
    KeysCover(a);
    KeysCover(b);
    assert forall f :: f in a <==> f in multiset(a);
    assert forall f :: f in b <==> f in multiset(b);
    forall k
      ensures multiset(Members(Filter(a, Relevant), KeyOf, k)) == multiset(Members(Filter(b, Relevant), KeyOf, k))
    {
      SameMembers(a, b, k);
    }
    SameDetails(table, names, Keys(a), Keys(b), Filter(a, Relevant), Filter(b, Relevant));
  }

  /** A detail keeps its classification exactly when the table has the code with that classification. */
  lemma ShownAsUnknownIff(table: map<string, Metadata>, names: map<string, string>, key: Key, facts: seq<Fact>)
    requires key.classification != PublicUnknown
    ensures DetailOf(table, names, key, facts).classification == PublicUnknown <==>
      !(key.code in table && table[key.code].classification == key.classification)
  {}
}
