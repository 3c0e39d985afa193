/** What a comparison of two plans reports, said of the rows: totals that add up, and every field of a change. */
module WhatIfLaws {
  import opened Text
  import opened Ordering
  import opened WhatIfDiff
  import Grouping

  function Amount(row: Row): real {
    row.quantity
  }

  // ---------- totals ----------

  lemma {:induction false} SumAppend(rows: seq<Row>, row: Row)
    ensures Sum(rows + [row]) == Sum(rows) + row.quantity
  {
    if rows == [] {
      assert [row][1..] == [] && rows + [row] == [row];
    } else {
      SumAppend(rows[1..], row);
      assert (rows + [row])[1..] == rows[1..] + [row];
    }
  }

  lemma {:induction false} SumIsTotal(rows: seq<Row>)
    ensures Sum(rows) == Grouping.Total(rows, Amount)
  {
    if rows != [] { SumIsTotal(rows[1..]); }
  }

  /** A plan without rows has no totals. */
  lemma TotalsEmpty()
    ensures Totals([]) == map[]
  {}

  /** One more row adds its quantity to the total of its own key and changes no other. */
  lemma TotalsAppend(rows: seq<Row>, row: Row)
    ensures var k, before := Key(row.ingredientId, row.unit), Totals(rows);
      Totals(rows + [row]) == before[k := (if k in before then before[k] else 0.0) + row.quantity]
  {
    hide Group, Sum, KeysOf;
    var k := Key(row.ingredientId, row.unit);
    var before, after := Totals(rows), Totals(rows + [row]);
    KeysAppend(rows, row);
    forall l | l in after
      ensures after[l] == (if l in before then before[l] else 0.0) + (if l == k then row.quantity else 0.0)
    {
      GroupAppend(rows, row, l);
      GroupEmpty(rows, l);
      SumAppend(Group(rows, l), row);
      NoSum();
      assert Group(rows, l) + [] == Group(rows, l);
    }
  }

  lemma NoSum()
    ensures Sum([]) == 0.0
  {}

  lemma KeysAppend(rows: seq<Row>, row: Row)
    ensures KeysOf(rows + [row]) == KeysOf(rows) + {Key(row.ingredientId, row.unit)}
  {
    assert forall r :: r in rows + [row] <==> r in rows || r == row;
    assert KeyOf(row) == Key(row.ingredientId, row.unit);
  }

  /** The total of a single row is its quantity. */
  lemma TotalsSingle(row: Row)
    ensures Totals([row]) == map[Key(row.ingredientId, row.unit) := row.quantity]
  {
    TotalsEmpty();
    TotalsAppend([], row);
    assert [] + [row] == [row];
  }

  function TotalOver(m: map<Key, real>, keys: seq<Key>): real {
    if keys == [] then 0.0 else (if keys[0] in m then m[keys[0]] else 0.0) + TotalOver(m, keys[1..])
  }

  lemma {:induction false} GroupIsMembers(rows: seq<Row>, k: Key)
    ensures Group(rows, k) == Grouping.Members(rows, KeyOf, k)
  {
    if rows != [] { GroupIsMembers(rows[1..], k); }
  }

  lemma {:induction false} ByKey(rows: seq<Row>, keys: seq<Key>)
    requires forall k | k in keys :: k in KeysOf(rows)
    ensures TotalOver(Totals(rows), keys) == Grouping.TotalByKey(keys, rows, KeyOf, Amount)
  {
    hide KeysOf, Group, Sum;
    if keys != [] {
      var k := keys[0];
      assert keys == [k] + keys[1..];
      GroupIsMembers(rows, k);
      SumIsTotal(Group(rows, k));
      ByKey(rows, keys[1..]);
    }
  }

  /** The totals of all keys, each taken once in any order, add up to the quantities of all rows. */
  lemma TotalsAddUp(rows: seq<Row>, keys: seq<Key>)
    requires Distinct(keys) && forall k :: k in keys <==> k in Totals(rows)
    ensures TotalOver(Totals(rows), keys) == Grouping.Total(rows, Amount)
  {
    hide Group, Sum;
    forall row | row in rows
      ensures KeyOf(row) in keys
    {
      assert KeyOf(row) in Totals(rows);
    }
    assert forall k | k in keys :: k in KeysOf(rows);
    ByKey(rows, keys);
    Grouping.Partition(keys, rows, KeyOf, Amount);
  }

  // ---------- changes ----------

  ghost predicate HasRow(rows: seq<Row>, k: Key, i: nat) {
    i < |rows| && rows[i].ingredientId == k.id && rows[i].unit == k.unit
  }

  /** All rows of the key have the supplier, and there is one. */
  ghost predicate SoleSupplier(rows: seq<Row>, k: Key, supplier: string) {
    && (exists i: nat :: HasRow(rows, k, i))
    && forall i: nat | HasRow(rows, k, i) :: rows[i].supplierId == Some(supplier)
  }

  ghost predicate SoleArrival(rows: seq<Row>, k: Key, date: int) {
    && (exists i: nat :: HasRow(rows, k, i))
    && forall i: nat | HasRow(rows, k, i) :: rows[i].arrivalDate == Some(date)
  }

  ghost predicate NamedRow(rows: seq<Row>, k: Key, i: nat) {
    HasRow(rows, k, i) && rows[i].ingredientName.Some? && rows[i].ingredientName.value != ""
  }

  /** The name of the first row of the key that has one. */
  ghost predicate FirstNamed(rows: seq<Row>, k: Key, name: string, i: nat) {
    && NamedRow(rows, k, i) && rows[i].ingredientName == Some(name)
    && forall j | 0 <= j < i :: !NamedRow(rows, k, j)
  }

  ghost function TotalAt(rows: seq<Row>, k: Key): Option<real> {
    if k in Totals(rows) then Some(Totals(rows)[k]) else None
  }

  /** Every field of a change between plans `a` and `b`. */
  ghost predicate Reports(c: Change, a: seq<Row>, b: seq<Row>) {
    var left, right := TotalAt(a, c.key), TotalAt(b, c.key);
    && c.baseline == left && c.hypothetical == right && left != right
    && c.delta == (if left.Some? && right.Some? then Some(right.value - left.value) else None)
    && (c.change == Added <==> left.None?)
    && (c.change == Removed <==> right.None?)
    && (c.change == Increased <==> left.Some? && right.Some? && right.value > left.value)
    && (c.change == Decreased <==> left.Some? && right.Some? && right.value < left.value)
    && (forall s :: c.baselineSupplier == Some(s) <==> SoleSupplier(a, c.key, s))
    && (forall s :: c.hypotheticalSupplier == Some(s) <==> SoleSupplier(b, c.key, s))
    && (forall d :: c.baselineArrival == Some(d) <==> SoleArrival(a, c.key, d))
    && (forall d :: c.hypotheticalArrival == Some(d) <==> SoleArrival(b, c.key, d))
    && (forall name :: c.name == Some(name) <==> exists i: nat :: FirstNamed(a + b, c.key, name, i))
  }

  lemma GroupRows(rows: seq<Row>, k: Key)
    ensures forall r :: r in Group(rows, k) <==> r in rows && r.ingredientId == k.id && r.unit == k.unit
    ensures forall i: nat | HasRow(rows, k, i) :: rows[i] in Group(rows, k)
    ensures forall r | r in Group(rows, k) :: exists i: nat :: HasRow(rows, k, i) && rows[i] == r
  {
    FilterMember(rows, (row: Row) => KeyOf(row) == k);
    forall r | r in Group(rows, k)
      ensures exists i: nat :: HasRow(rows, k, i) && rows[i] == r
    {
      var i: nat :| i < |rows| && rows[i] == r;
      assert HasRow(rows, k, i);
    }
  }

  lemma OnlyElement<T>(s: set<T>, x: T)
    requires x in s
    ensures |s| == 1 <==> forall y | y in s :: y == x
  {
    if |s| == 1 {
      assert |s - {x}| == 0;
    } else {
      assert s != {x};
    }
  }

  lemma SupplierIff(rows: seq<Row>, k: Key, supplier: string)
    ensures Supplier(Group(rows, k)) == Some(supplier) <==> SoleSupplier(rows, k, supplier)
  {
    hide Group;
    var group := Group(rows, k);
    GroupRows(rows, k);
    HeadIn(group);
    if group != [] {
      var all := set row | row in group :: row.supplierId;
      assert group[0].supplierId in all;
      OnlyElement(all, group[0].supplierId);
      assert forall row | row in group :: row.supplierId in all;
    }
  }

  lemma ArrivalIff(rows: seq<Row>, k: Key, date: int)
    ensures Arrival(Group(rows, k)) == Some(date) <==> SoleArrival(rows, k, date)
  {
    hide Group;
    var group := Group(rows, k);
    GroupRows(rows, k);
    HeadIn(group);
    if group != [] {
      var all := set row | row in group :: row.arrivalDate;
      assert group[0].arrivalDate in all;
      OnlyElement(all, group[0].arrivalDate);
      assert forall row | row in group :: row.arrivalDate in all;
    }
  }

  lemma {:induction false} FirstNameIff(rows: seq<Row>, k: Key, name: string)
    ensures FirstName(Group(rows, k)) == Some(name) <==> exists i: nat :: FirstNamed(rows, k, name, i)
  {
    if rows != [] {
      var rest := rows[1..];
      FirstNameIff(rest, k, name);
      assert forall i | 0 <= i < |rest| :: rest[i] == rows[i + 1];
      forall i: nat
        ensures NamedRow(rows, k, i + 1) <==> NamedRow(rest, k, i)
      {
      }
      if NamedRow(rows, k, 0) {
        assert FirstNamed(rows, k, rows[0].ingredientName.value, 0);
      } else {
        ShiftNamed(rows, k, name);
      }
    }
  }

  lemma ShiftNamed(rows: seq<Row>, k: Key, name: string)
    requires rows != [] && !NamedRow(rows, k, 0)
    ensures (exists i: nat :: FirstNamed(rows, k, name, i)) <==> exists i: nat :: FirstNamed(rows[1..], k, name, i)
  {
    var rest := rows[1..];
    assert forall i | 0 <= i < |rest| :: rest[i] == rows[i + 1];
    forall i: nat
      ensures NamedRow(rows, k, i + 1) <==> NamedRow(rest, k, i)
    {
    }
    if i: nat :| FirstNamed(rows, k, name, i) {
      assert i > 0;
      forall j: nat | j < i - 1
        ensures !NamedRow(rest, k, j)
      {
        assert NamedRow(rows, k, j + 1) <==> NamedRow(rest, k, j);
      }
      assert FirstNamed(rest, k, name, i - 1);
    }
    if i: nat :| FirstNamed(rest, k, name, i) {
      forall j | 0 <= j < i + 1
        ensures !NamedRow(rows, k, j)
      {
        if j > 0 { assert !NamedRow(rest, k, j - 1); }
      }
      assert FirstNamed(rows, k, name, i + 1);
    }
  }

  lemma TotalAtIs(rows: seq<Row>, k: Key)
    ensures TotalAt(rows, k) == if Group(rows, k) == [] then None else Some(Sum(Group(rows, k)))
  {
    hide Group, Sum;
    GroupEmpty(rows, k);
  }

  lemma ChangeReports(a: seq<Row>, b: seq<Row>, k: Key)
    ensures var cs := ChangeOf(k, Group(a, k), Group(b, k));
      if TotalAt(a, k) == TotalAt(b, k) then cs == [] else |cs| == 1 && cs[0].key == k && Reports(cs[0], a, b)
  {
    hide Group, Sum, FirstName, Supplier, Arrival, SoleSupplier, SoleArrival, FirstNamed, TotalAt;
    TotalAtIs(a, k);
    TotalAtIs(b, k);
    FilterAppend(a, b, (row: Row) => KeyOf(row) == k);
    GroupsJoin(a, b, k);
    forall s
      ensures Supplier(Group(a, k)) == Some(s) <==> SoleSupplier(a, k, s)
      ensures Supplier(Group(b, k)) == Some(s) <==> SoleSupplier(b, k, s)
    {
      SupplierIff(a, k, s);
      SupplierIff(b, k, s);
    }
    forall d
      ensures Arrival(Group(a, k)) == Some(d) <==> SoleArrival(a, k, d)
      ensures Arrival(Group(b, k)) == Some(d) <==> SoleArrival(b, k, d)
    {
      ArrivalIff(a, k, d);
      ArrivalIff(b, k, d);
    }
    forall name
      ensures FirstName(Group(a, k) + Group(b, k)) == Some(name) <==> exists i: nat :: FirstNamed(a + b, k, name, i)
    {
      FirstNameIff(a + b, k, name);
    }
  }

  lemma GroupsJoin(a: seq<Row>, b: seq<Row>, k: Key)
    ensures Group(a + b, k) == Group(a, k) + Group(b, k)
  {
    FilterAppend(a, b, (row: Row) => KeyOf(row) == k);
  }

  lemma {:induction false} ChangesReport(a: seq<Row>, b: seq<Row>, keys: seq<Key>)
    ensures forall c | c in ChangesOf(a, b, keys) :: Reports(c, a, b)
    ensures forall k :: (exists c :: c in ChangesOf(a, b, keys) && c.key == k) <==> k in keys && TotalAt(a, k) != TotalAt(b, k)
  {
    hide ChangeOf, Group, Reports, TotalAt;
    if keys != [] {
      var first := ChangeOf(keys[0], Group(a, keys[0]), Group(b, keys[0]));
      ChangeReports(a, b, keys[0]);
      ChangesReport(a, b, keys[1..]);
      assert keys == [keys[0]] + keys[1..];
      assert forall c :: c in ChangesOf(a, b, keys) <==> c in first || c in ChangesOf(a, b, keys[1..]);
      assert TotalAt(a, keys[0]) != TotalAt(b, keys[0]) ==> first[0] in first;
    }
  }

  /** A key has a change exactly when its totals differ, and every field of the change is what the rows say. */
  lemma ChangesAre(a: seq<Row>, b: seq<Row>)
    requires OrderChanges(a, b).Ok?
    ensures var cs := OrderChanges(a, b).value;
      && (forall c | c in cs :: Reports(c, a, b))
      && forall k :: (exists c :: c in cs && c.key == k) <==> TotalAt(a, k) != TotalAt(b, k)
  {
    hide ChangesOf, Reports;
    var keys := SortedKeys(AllKeys(a, b));
    ChangesReport(a, b, keys);
    assert forall k | k !in keys :: TotalAt(a, k) == None && TotalAt(b, k) == None;
  }

  /** Two lines of 3 kg and 2 kg against one of 3 kg: five kilograms become three. */
  lemma TwoLinesAgainstOne(name: Option<string>, supplier: Option<string>, date: Option<int>)
    ensures var a := [Row("flour", name, supplier, 3.0, Some("kg"), date), Row("flour", name, supplier, 2.0, Some("kg"), date)];
      var b := [Row("flour", name, supplier, 3.0, Some("kg"), date)];
      var changes := OrderChanges(a, b);
      && changes.Ok? && |changes.value| == 1
      && var c := changes.value[0];
      c.key == Key("flour", Some("kg")) && c.change == Decreased
      && c.baseline == Some(5.0) && c.hypothetical == Some(3.0) && c.delta == Some(-2.0)
  {
    hide Supplier, Arrival, FirstName, ChangeOf, Reports, Totals, SortedKeys, Group, KeysOf;
    var first, second := Row("flour", name, supplier, 3.0, Some("kg"), date), Row("flour", name, supplier, 2.0, Some("kg"), date);
    var a, b, k := [first, second], [first], Key("flour", Some("kg"));
    TotalsSingle(first);
    TotalsAppend([first], second);
    assert a == [first] + [second];
    assert Totals(a) == map[k := 5.0] && Totals(b) == map[k := 3.0];
    OneKey(a, b, k);
    ChangeReports(a, b, k);
    var c := ChangeOf(k, Group(a, k), Group(b, k))[0];
    ReportedTotals(c, a, b);
    assert [k][1..] == [] && ChangesOf(a, b, []) == [];
  }

  lemma OneKey(a: seq<Row>, b: seq<Row>, k: Key)
    requires a != [] && forall row | row in a + b :: row.ingredientId == k.id && row.unit == k.unit
    ensures OrderChanges(a, b) == Ok(ChangesOf(a, b, [k]))
  {
    hide ChangesOf, SortedKeys;
    assert forall row | row in a :: row in a + b;
    assert forall row | row in b :: row in a + b;
    assert a[0] in a && KeyOf(a[0]) == k;
    assert AllKeys(a, b) == {k};
    KeyOrder();
    EnumerationUnique(SortedKeys({k}), [k], {k}, KeyLeq);
  }

  lemma ReportedTotals(c: Change, a: seq<Row>, b: seq<Row>)
    requires Reports(c, a, b)
    ensures c.baseline == TotalAt(a, c.key) && c.hypothetical == TotalAt(b, c.key)
    ensures c.baseline.Some? && c.hypothetical.Some? ==> c.delta == Some(c.hypothetical.value - c.baseline.value)
    ensures c.baseline.Some? && c.hypothetical.Some? && c.hypothetical.value < c.baseline.value ==> c.change == Decreased
  {}

  // ---------- risks ----------

  /** The risk stands on the one side only that is asked for. */
  predicate OneSided(left: set<Risk>, right: set<Risk>, added: bool, r: Risk) {
    if added then r in right && r !in left else r in left && r !in right
  }

  /** The same but for one having no ingredient. */
  predicate Unnamed(r: Risk, s: Risk) {
    r.code == s.code && r.classification == s.classification && r.scope == s.scope && r.ingredientId == None && s.ingredientId != None
  }

  /** The changed risks are exactly the one-sided ones, in order; they raise exactly when two differ only in one having no ingredient. */
  lemma RiskChangesAre(left: set<Risk>, right: set<Risk>, added: bool)
    ensures match RiskChanges(left, right, added)
      case TypeError =>
        exists r, s :: OneSided(left, right, added, r) && OneSided(left, right, added, s) && Unnamed(r, s)
      case Ok(changes) =>
        && (forall r, s | OneSided(left, right, added, r) && OneSided(left, right, added, s) :: !Unnamed(r, s))
        && SortedBy(changes, RiskLeq) && Distinct(changes)
        && forall r :: r in changes <==> OneSided(left, right, added, r)
  {
    hide RiskLeq, StrLeq;
    var changes := if added then right - left else left - right;
    assert forall r :: r in changes <==> OneSided(left, right, added, r);
    if MixedRisks(changes) {
      var r, s :| r in changes && s in changes && r.code == s.code && r.classification == s.classification
        && r.scope == s.scope && r.ingredientId.None? && s.ingredientId.Some?;
      assert OneSided(left, right, added, r) && OneSided(left, right, added, s) && Unnamed(r, s);
    }
    if r, s :| OneSided(left, right, added, r) && OneSided(left, right, added, s) && Unnamed(r, s) {
      assert r in changes && s in changes && r.ingredientId.None? && s.ingredientId.Some?;
    }
  }
}
