/** What changed between two plans: `_order_changes` and `_risk_changes` of app/decision_intelligence/what_if_evidence.py. */
module WhatIfDiff {
  import opened Text
  import opened Ordering
  import opened RaisingSort

  datatype Row = Row(
    ingredientId: string, ingredientName: Option<string>, supplierId: Option<string>, quantity: real,
    unit: Option<string>, arrivalDate: Option<int>)

  datatype Key = Key(id: string, unit: Option<string>)

  datatype ChangeType = Added | Removed | Increased | Decreased

  datatype Change = Change(
    key: Key, name: Option<string>, baseline: Option<real>, hypothetical: Option<real>, delta: Option<real>,
    baselineSupplier: Option<string>, hypotheticalSupplier: Option<string>,
    baselineArrival: Option<int>, hypotheticalArrival: Option<int>, change: ChangeType)

  /** TypeError is what Python raises when it compares None with a text. */
  datatype Result<+T> = Ok(value: T) | TypeError

  // ---------- the order of keys ----------

  /** None before texts; a comparison that gets there raises instead, see `KeyLess`. */
  predicate OptLeq(a: Option<string>, b: Option<string>) {
    a.None? || (b.Some? && StrLeq(a.value, b.value))
  }

  predicate KeyLeq(a: Key, b: Key) {
    if a.id == b.id then OptLeq(a.unit, b.unit) else StrLeq(a.id, b.id)
  }

  lemma KeyOrder()
    ensures TotalOrder(KeyLeq)
  {
    forall a, b
      ensures KeyLeq(a, b) || KeyLeq(b, a)
      ensures KeyLeq(a, b) && KeyLeq(b, a) ==> a == b
    {
      StrTotal(a.id, b.id);
      if a.unit.Some? && b.unit.Some? { StrTotal(a.unit.value, b.unit.value); }
    }
    forall a, b, c | KeyLeq(a, b) && KeyLeq(b, c)
      ensures KeyLeq(a, c)
    {
      KeyTransitive(a, b, c);
    }
  }

  lemma KeyTransitive(a: Key, b: Key, c: Key)
    requires KeyLeq(a, b) && KeyLeq(b, c)
    ensures KeyLeq(a, c)
  {
    if StrLeq(a.id, b.id) && StrLeq(b.id, c.id) { StrTransitive(a.id, b.id, c.id); }
    StrTotal(a.id, b.id);
    StrTotal(b.id, c.id);
    if a.unit.Some? && b.unit.Some? && c.unit.Some? && StrLeq(a.unit.value, b.unit.value) && StrLeq(b.unit.value, c.unit.value) {
      StrTransitive(a.unit.value, b.unit.value, c.unit.value);
    }
  }

  /** `<` on optional texts: None compared with a text raises, and None is never compared with itself. */
  function OptLess(a: Option<string>, b: Option<string>): Option<bool> {
    if a == b then Some(false)
    else if a.None? || b.None? then None
    else Some(StrLeq(a.value, b.value))
  }

  /** `<` on (id, unit) tuples: the first elements that differ decide. */
  function KeyLess(a: Key, b: Key): Option<bool> {
    if a.id != b.id then Some(StrLeq(a.id, b.id)) else OptLess(a.unit, b.unit)
  }

  predicate KeyClash(a: Key, b: Key) {
    a.id == b.id && a.unit != b.unit && (a.unit.None? || b.unit.None?)
  }

  /** Some id occurs both with and without a unit. */
  predicate Mixed(keys: set<Key>) {
    exists k, l | k in keys && l in keys :: k.id == l.id && k.unit.None? && l.unit.Some?
  }

  lemma KeysRaise()
    ensures RaisingOrder(KeyLess, KeyLeq, KeyClash)
  {
    hide StrLeq;
    KeyOrder();
    forall x: Key, y: Key
      ensures KeyLess(x, y) == if KeyClash(x, y) then None else Some(KeyLeq(x, y) && x != y)
    {
      StrOrder();
    }
    forall x: Key, y: Key, z: Key | KeyClash(x, y) && KeyLeq(x, z) && KeyLeq(z, y)
      ensures KeyClash(x, z) || KeyClash(z, y)
    {
      StrOrder();
    }
  }

  /** The order in which a set is walked. */
  ghost predicate Lists<T(!new)>(order: seq<T>, s: set<T>) {
    Distinct(order) && forall x :: x in order <==> x in s
  }

  /**
   Sorting the keys of two plans raises TypeError exactly when some ingredient occurs both with and without a unit,
   in whatever order the set hands its keys to the sort; otherwise it gives their increasing enumeration.
   */
  lemma KeySortRaisesIff(order: seq<Key>, keys: set<Key>)
    requires Lists(order, keys)
    ensures TrySort(order, KeyLess) == if Mixed(keys) then None else Some(SortedKeys(keys))
  {
    hide StrLeq, KeyLeq, SortedKeys, TrySort, RaisingOrder;
    KeysRaise();
    SortRaisesIff(order, KeyLess, KeyLeq, KeyClash);
    KeyOrder();
    ClashIsMixed(order, keys);
    if !Mixed(keys) {
      EnumerationUnique(TrySort(order, KeyLess).value, SortedKeys(keys), keys, KeyLeq);
    }
  }

  lemma ClashIsMixed(order: seq<Key>, keys: set<Key>)
    requires Lists(order, keys)
    ensures Clashing(order, KeyClash) <==> Mixed(keys)
  {
    if x, y :| x in order && y in order && KeyClash(x, y) {
      var k, l := if x.unit.None? then x else y, if x.unit.None? then y else x;
      assert k in keys && l in keys && k.id == l.id && k.unit.None? && l.unit.Some?;
    }
    if Mixed(keys) {
      var k, l :| k in keys && l in keys && k.id == l.id && k.unit.None? && l.unit.Some?;
      assert k in order && l in order && KeyClash(k, l);
    }
  }

  /** The order of keys with None after texts. */
  predicate KeyLeqLast(a: Key, b: Key) {
    if a.id != b.id then StrLeq(a.id, b.id)
    else b.unit.None? || (a.unit.Some? && StrLeq(a.unit.value, b.unit.value))
  }

  /**
   No other way of sorting gets around it: every comparison that does not raise is answered alike by the order with
   None first and the order with None last, and those put clashing keys in opposite order.
   */
  lemma AnswersDoNotDecide(a: Key, b: Key)
    ensures KeyLess(a, b).Some? ==>
      KeyLess(a, b).value == (KeyLeq(a, b) && a != b) == (KeyLeqLast(a, b) && a != b)
    ensures KeyClash(a, b) ==> (KeyLeq(a, b) <==> !KeyLeqLast(a, b))
    ensures KeyClash(a, b) <==> KeyLess(a, b).None?
  {
    hide StrLeq;
    StrOrder();
  }

  function SortedKeys(keys: set<Key>): (r: seq<Key>)
    ensures Enumerates(r, keys, KeyLeq)
  {
    KeyOrder();
    SortedSet(keys, KeyLeq)
  }

  // ---------- totals per key ----------

  function KeyOf(row: Row): Key {
    Key(row.ingredientId, row.unit)
  }

  function Group(rows: seq<Row>, k: Key): seq<Row> {
    Filter(rows, (row: Row) => KeyOf(row) == k)
  }

  function KeysOf(rows: seq<Row>): set<Key> {
    set row | row in rows :: KeyOf(row)
  }

  function Sum(rows: seq<Row>): real {
    if rows == [] then 0.0 else rows[0].quantity + Sum(rows[1..])
  }

  /** The ordered quantity of a key, None when it has no row. */
  function Quantity(rows: seq<Row>, k: Key): Option<real> {
    var group := Group(rows, k);
    if group == [] then None else Some(Sum(group))
  }

  /** The totals of a plan per ingredient and unit. */
  ghost function Totals(rows: seq<Row>): map<Key, real> {
    map k | k in KeysOf(rows) :: Sum(Group(rows, k))
  }

  // ---------- the changes ----------

  function Supplier(rows: seq<Row>): Option<string> {
    if rows != [] && |set row | row in rows :: row.supplierId| == 1 then rows[0].supplierId else None
  }

  function Arrival(rows: seq<Row>): Option<int> {
    if rows != [] && |set row | row in rows :: row.arrivalDate| == 1 then rows[0].arrivalDate else None
  }

  function FirstName(rows: seq<Row>): Option<string> {
    if rows == [] then None
    else if rows[0].ingredientName.Some? && rows[0].ingredientName.value != "" then rows[0].ingredientName
    else FirstName(rows[1..])
  }

  function ChangeTypeOf(left: Option<real>, right: Option<real>): ChangeType {
    if left.None? then Added
    else if right.None? then Removed
    else if right.value > left.value then Increased else Decreased
  }

  /** The change of one key from its rows on both sides, if the quantities differ. */
  function ChangeOf(k: Key, left: seq<Row>, right: seq<Row>): seq<Change> {
    var a := if left == [] then None else Some(Sum(left));
    var b := if right == [] then None else Some(Sum(right));
    if a == b then []
    else [Change(k, FirstName(left + right), a, b, if a.None? || b.None? then None else Some(b.value - a.value),
                 Supplier(left), Supplier(right), Arrival(left), Arrival(right), ChangeTypeOf(a, b))]
  }

  function ChangesOf(a: seq<Row>, b: seq<Row>, keys: seq<Key>): seq<Change> {
    if keys == [] then []
    else ChangeOf(keys[0], Group(a, keys[0]), Group(b, keys[0])) + ChangesOf(a, b, keys[1..])
  }

  function AllKeys(a: seq<Row>, b: seq<Row>): set<Key> {
    KeysOf(a) + KeysOf(b)
  }

  /** What _order_changes returns. */
  function OrderChanges(a: seq<Row>, b: seq<Row>): Result<seq<Change>> {
    if Mixed(AllKeys(a, b)) then TypeError else Ok(ChangesOf(a, b, SortedKeys(AllKeys(a, b))))
  }

  ghost predicate IsGrouping(groups: map<Key, seq<Row>>, rows: seq<Row>) {
    groups.Keys == KeysOf(rows) && forall k | k in groups :: groups[k] == Group(rows, k)
  }

  lemma GroupAppend(rows: seq<Row>, row: Row, k: Key)
    ensures Group(rows + [row], k) == Group(rows, k) + (if KeyOf(row) == k then [row] else [])
  {
    var keep := (r: Row) => KeyOf(r) == k;
    FilterAppend(rows, [row], keep);
    assert Filter([row][1..], keep) == [];
  }

  lemma {:induction false} GroupEmpty(rows: seq<Row>, k: Key)
    ensures Group(rows, k) == [] <==> k !in KeysOf(rows)
  {
    FilterMember(rows, (row: Row) => KeyOf(row) == k);
    HeadIn(Group(rows, k));
    if k in KeysOf(rows) {
      var row :| row in rows && KeyOf(row) == k;
      assert row in Group(rows, k);
    }
  }

  /** grouped(rows): setdefault(key, []).append(row) */
  method Grouped(rows: seq<Row>) returns (groups: map<Key, seq<Row>>)
    ensures IsGrouping(groups, rows)
  {
    groups := map[];
    for i := 0 to |rows|
      invariant IsGrouping(groups, rows[..i])
    {
      var row := rows[i];
      var k := KeyOf(row);
      assert rows[..i + 1] == rows[..i] + [row];
      forall l
        ensures Group(rows[..i + 1], l) == Group(rows[..i], l) + (if k == l then [row] else [])
      {
        GroupAppend(rows[..i], row, l);
      }
      GroupEmpty(rows[..i], k);
      assert KeysOf(rows[..i + 1]) == KeysOf(rows[..i]) + {k};
      groups := groups[k := (if k in groups then groups[k] else []) + [row]];
    }
    assert rows[..|rows|] == rows;
  }

  /** _order_changes; `order` is how the set of all keys is walked */
  method CompareOrders(a: seq<Row>, b: seq<Row>, order: seq<Key>) returns (r: Result<seq<Change>>)
    requires Lists(order, AllKeys(a, b))
    ensures r == OrderChanges(a, b)
  {
    hide Mixed, ChangesOf, KeysOf, Group, TrySort;
    var left := Grouped(a);
    var right := Grouped(b);
    KeySortRaisesIff(order, AllKeys(a, b));
    var keys := TrySort(order, KeyLess);
    if keys.None? {
      return TypeError;
    }
    var changes := CompareKeys(a, b, left, right, keys.value);
    return Ok(changes);
  }

  /** One line with a unit against one line of the same ingredient without: the comparison raises. */
  lemma UnitAgainstNone(order: seq<Key>)
    requires Lists(order, {Key("i", None), Key("i", Some("kg"))})
    ensures TrySort(order, KeyLess) == None
    ensures OrderChanges([Row("i", None, None, 1.0, None, None)], [Row("i", None, None, 1.0, Some("kg"), None)]) == TypeError
  {
    var k, l := Key("i", None), Key("i", Some("kg"));
    var a, b := [Row("i", None, None, 1.0, None, None)], [Row("i", None, None, 1.0, Some("kg"), None)];
    assert a[0] in a && b[0] in b && KeyOf(a[0]) == k && KeyOf(b[0]) == l;
    assert AllKeys(a, b) == {k, l};
    assert Mixed({k, l}) by { assert k in {k, l} && l in {k, l}; }
    KeySortRaisesIff(order, {k, l});
  }

  /** The loop over the sorted keys. */
  method CompareKeys(
      a: seq<Row>, b: seq<Row>, left: map<Key, seq<Row>>, right: map<Key, seq<Row>>, keys: seq<Key>)
    returns (changes: seq<Change>)
    requires IsGrouping(left, a) && IsGrouping(right, b)
    ensures changes == ChangesOf(a, b, keys)
  {
    hide ChangeOf, Group, KeysOf;
    changes := [];
    for i := 0 to |keys|
      invariant changes + ChangesOf(a, b, keys[i..]) == ChangesOf(a, b, keys)
    {
      var k := keys[i];
      assert keys[i..][0] == k && keys[i..][1..] == keys[i + 1..];
      GroupEmpty(a, k);
      GroupEmpty(b, k);
      changes := changes + ChangeOf(k, if k in left then left[k] else [], if k in right then right[k] else []);
    }
    assert keys[|keys|..] == [];
  }

  // ---------- the changes are a patch ----------

  /** Apply one change to a map of totals: the delta where there is one, the new quantity or removal otherwise. */
  ghost function Applied(m: map<Key, real>, c: Change): map<Key, real> {
    match c.change
    case Added => if c.hypothetical.Some? then m[c.key := c.hypothetical.value] else m
    case Removed => m - {c.key}
    case _ => if c.key in m && c.delta.Some? then m[c.key := m[c.key] + c.delta.value] else m
  }

  ghost function ApplyAll(m: map<Key, real>, changes: seq<Change>): map<Key, real>
    decreases |changes|
  {
    if changes == [] then m else ApplyAll(Applied(m, changes[0]), changes[1..])
  }

  ghost predicate AgreesAt(m: map<Key, real>, rows: seq<Row>, k: Key) {
    (k in m <==> Quantity(rows, k).Some?) && (k in m ==> Some(m[k]) == Quantity(rows, k))
  }

  lemma {:induction false} ApplyAppend(m: map<Key, real>, x: seq<Change>, y: seq<Change>)
    ensures ApplyAll(m, x + y) == ApplyAll(ApplyAll(m, x), y)
    decreases |x|
  {
    if x == [] {
      assert x + y == y;
    } else {
      ApplyAppend(Applied(m, x[0]), x[1..], y);
      assert (x + y)[1..] == x[1..] + y;
    }
  }

  /** One key: the change moves the total to the hypothetical one and touches nothing else. */
  lemma ApplyOne(m: map<Key, real>, a: seq<Row>, b: seq<Row>, k: Key)
    requires AgreesAt(m, a, k)
    ensures var n := ApplyAll(m, ChangeOf(k, Group(a, k), Group(b, k)));
      AgreesAt(n, b, k) && forall l | l != k :: (l in n <==> l in m) && (l in m ==> n[l] == m[l])
  {
    hide FirstName, Supplier, Arrival, Group, Sum;
    var cs := ChangeOf(k, Group(a, k), Group(b, k));
    if cs != [] {
      assert cs[1..] == [];
      assert ApplyAll(m, cs) == Applied(m, cs[0]);
    }
  }

  lemma {:induction false} ApplyKeys(m: map<Key, real>, a: seq<Row>, b: seq<Row>, keys: seq<Key>)
    requires Distinct(keys) && forall k | k in keys :: AgreesAt(m, a, k)
    ensures var n := ApplyAll(m, ChangesOf(a, b, keys));
      && (forall k | k in keys :: AgreesAt(n, b, k))
      && (forall l | l !in keys :: (l in n <==> l in m) && (l in m ==> n[l] == m[l]))
    decreases |keys|
  {
    hide ChangeOf, Quantity;
    if keys != [] {
      var k := keys[0];
      var first := ChangeOf(k, Group(a, k), Group(b, k));
      ApplyOne(m, a, b, k);
      var m1 := ApplyAll(m, first);
      assert keys == [k] + keys[1..];
      assert k !in keys[1..];
      forall l | l in keys[1..]
        ensures AgreesAt(m1, a, l)
      {
        assert l != k && AgreesAt(m, a, l);
      }
      ApplyKeys(m1, a, b, keys[1..]);
      ApplyAppend(m, first, ChangesOf(a, b, keys[1..]));
    }
  }

  lemma TotalsAgree(rows: seq<Row>, k: Key)
    ensures AgreesAt(Totals(rows), rows, k)
  {
    GroupEmpty(rows, k);
  }

  lemma AgreeingMapsEqual(m: map<Key, real>, rows: seq<Row>)
    requires forall k :: AgreesAt(m, rows, k)
    ensures m == Totals(rows)
  {
    hide Totals, Quantity;
    forall k
      ensures (k in m <==> k in Totals(rows)) && (k in m ==> m[k] == Totals(rows)[k])
    {
      TotalsAgree(rows, k);
      assert AgreesAt(m, rows, k);
    }
    assert m.Keys == Totals(rows).Keys;
  }

  /** Applying the changes from a to b to the totals of a gives exactly the totals of b. */
  lemma ChangesPatch(a: seq<Row>, b: seq<Row>)
    requires OrderChanges(a, b).Ok?
    ensures ApplyAll(Totals(a), OrderChanges(a, b).value) == Totals(b)
  {
    hide Totals, ChangesOf, Quantity, Applied;
    var keys := SortedKeys(AllKeys(a, b));
    var n := ApplyAll(Totals(a), ChangesOf(a, b, keys));
    forall k
      ensures AgreesAt(Totals(a), a, k)
    {
      TotalsAgree(a, k);
    }
    ApplyKeys(Totals(a), a, b, keys);
    forall k
      ensures AgreesAt(n, b, k)
    {
      if k !in keys {
        OutsideAgrees(a, b, k);
        assert AgreesAt(Totals(a), a, k);
        assert k in n <==> k in Totals(a);
      }
    }
    AgreeingMapsEqual(n, b);
  }

  lemma OutsideAgrees(a: seq<Row>, b: seq<Row>, k: Key)
    requires k !in AllKeys(a, b)
    ensures Quantity(a, k).None? && Quantity(b, k).None?
  {
    GroupEmpty(a, k);
    GroupEmpty(b, k);
  }

  // ---------- one change per key, in order, none when nothing changed ----------

  lemma {:induction false} ChangeKeys(a: seq<Row>, b: seq<Row>, keys: seq<Key>)
    requires Distinct(keys) && SortedBy(keys, KeyLeq)
    ensures var cs := ChangesOf(a, b, keys);
      && (forall c | c in cs :: c.key in keys)
      && (forall i, j | 0 <= i < j < |cs| :: KeyLeq(cs[i].key, cs[j].key) && cs[i].key != cs[j].key)
      && (cs == [] <==> forall k | k in keys :: Quantity(a, k) == Quantity(b, k))
  {
    hide Sum, FirstName, Supplier, Arrival, ChangeTypeOf, Group;
    if keys != [] {
      ChangeKeys(a, b, keys[1..]);
      assert keys == [keys[0]] + keys[1..];
      var first := ChangeOf(keys[0], Group(a, keys[0]), Group(b, keys[0]));
      assert |first| <= 1 && (first == [] <==> Quantity(a, keys[0]) == Quantity(b, keys[0]));
      assert forall k | k in keys[1..] :: KeyLeq(keys[0], k) && keys[0] != k;
    }
  }

  /** Each key changes at most once, keys are in increasing order, and the list is empty exactly when all totals agree. */
  lemma ChangesSortedAndMinimal(a: seq<Row>, b: seq<Row>)
    requires OrderChanges(a, b).Ok?
    ensures var cs := OrderChanges(a, b).value;
      && (forall i, j | 0 <= i < j < |cs| :: KeyLeq(cs[i].key, cs[j].key) && cs[i].key != cs[j].key)
      && (cs == [] <==> Totals(a) == Totals(b))
  {
    hide ChangesOf, Totals, Quantity;
    var keys := SortedKeys(AllKeys(a, b));
    ChangeKeys(a, b, keys);
    ChangesPatch(a, b);
    if Totals(a) == Totals(b) {
      forall k | k in keys
        ensures Quantity(a, k) == Quantity(b, k)
      {
        TotalsAgree(a, k);
        TotalsAgree(b, k);
      }
    }
  }

  // ---------- swapping the plans ----------

  function Opposite(t: ChangeType): ChangeType {
    match t case Added => Removed case Removed => Added case Increased => Decreased case Decreased => Increased
  }

  /** The same change seen from the other side; the name is not looked at, it comes from the first side that has one. */
  predicate Mirrors(c: Change, d: Change) {
    && d.key == c.key && d.baseline == c.hypothetical && d.hypothetical == c.baseline
    && d.delta == (if c.delta.None? then None else Some(-c.delta.value))
    && d.baselineSupplier == c.hypotheticalSupplier && d.hypotheticalSupplier == c.baselineSupplier
    && d.baselineArrival == c.hypotheticalArrival && d.hypotheticalArrival == c.baselineArrival
    && d.change == Opposite(c.change)
  }

  ghost predicate AllMirror(cs: seq<Change>, ds: seq<Change>) {
    |cs| == |ds| && forall i | 0 <= i < |cs| :: Mirrors(cs[i], ds[i])
  }

  lemma {:induction false} ChangesMirror(a: seq<Row>, b: seq<Row>, keys: seq<Key>)
    ensures AllMirror(ChangesOf(a, b, keys), ChangesOf(b, a, keys))
  {
    hide Sum, FirstName, Supplier, Arrival, Group;
    if keys != [] {
      ChangesMirror(a, b, keys[1..]);
      var k := keys[0];
      assert AllMirror(ChangeOf(k, Group(a, k), Group(b, k)), ChangeOf(k, Group(b, k), Group(a, k)));
    }
  }

  /** Comparing the other way round swaps added with removed and increased with decreased, and negates the deltas. */
  lemma SwapMirrors(a: seq<Row>, b: seq<Row>)
    ensures OrderChanges(a, b).TypeError? <==> OrderChanges(b, a).TypeError?
    ensures OrderChanges(a, b).Ok? ==> AllMirror(OrderChanges(a, b).value, OrderChanges(b, a).value)
  {
    assert AllKeys(a, b) == AllKeys(b, a);
    ChangesMirror(a, b, SortedKeys(AllKeys(a, b)));
  }

  // ---------- risks ----------

  datatype Risk = Risk(code: string, classification: string, scope: string, ingredientId: Option<string>)

  predicate RiskLeq(a: Risk, b: Risk) {
    if a.code != b.code then StrLeq(a.code, b.code)
    else if a.classification != b.classification then StrLeq(a.classification, b.classification)
    else if a.scope != b.scope then StrLeq(a.scope, b.scope)
    else OptLeq(a.ingredientId, b.ingredientId)
  }

  lemma RiskOrder()
    ensures TotalOrder(RiskLeq)
  {
    StrOrder();
  }

  /** `<` on the four-tuples of risk keys */
  function RiskLess(a: Risk, b: Risk): Option<bool> {
    if a.code != b.code then Some(StrLeq(a.code, b.code))
    else if a.classification != b.classification then Some(StrLeq(a.classification, b.classification))
    else if a.scope != b.scope then Some(StrLeq(a.scope, b.scope))
    else OptLess(a.ingredientId, b.ingredientId)
  }

  predicate RiskClash(a: Risk, b: Risk) {
    && a.code == b.code && a.classification == b.classification && a.scope == b.scope
    && a.ingredientId != b.ingredientId && (a.ingredientId.None? || b.ingredientId.None?)
  }

  lemma RisksRaise()
    ensures RaisingOrder(RiskLess, RiskLeq, RiskClash)
  {
    hide StrLeq;
    RiskOrder();
    forall x: Risk, y: Risk
      ensures RiskLess(x, y) == if RiskClash(x, y) then None else Some(RiskLeq(x, y) && x != y)
    {
      StrOrder();
    }
    forall x: Risk, y: Risk, z: Risk | RiskClash(x, y) && RiskLeq(x, z) && RiskLeq(z, y)
      ensures RiskClash(x, z) || RiskClash(z, y)
    {
      StrOrder();
    }
  }

  /** Two risks differ only in one having no ingredient. */
  predicate MixedRisks(risks: set<Risk>) {
    exists r, s | r in risks && s in risks ::
      r.code == s.code && r.classification == s.classification && r.scope == s.scope
      && r.ingredientId.None? && s.ingredientId.Some?
  }

  function SortedRisks(risks: set<Risk>): (r: seq<Risk>)
    ensures Enumerates(r, risks, RiskLeq)
  {
    RiskOrder();
    SortedSet(risks, RiskLeq)
  }

  /** Sorting risk keys raises exactly when two differ only in one having no ingredient. */
  lemma RiskSortRaisesIff(order: seq<Risk>, risks: set<Risk>)
    requires Lists(order, risks)
    ensures TrySort(order, RiskLess) == if MixedRisks(risks) then None else Some(SortedRisks(risks))
  {
    hide StrLeq, RiskLeq, TrySort, RaisingOrder, SortedRisks;
    RisksRaise();
    SortRaisesIff(order, RiskLess, RiskLeq, RiskClash);
    RiskOrder();
    RiskClashIsMixed(order, risks);
    if !MixedRisks(risks) {
      EnumerationUnique(TrySort(order, RiskLess).value, SortedRisks(risks), risks, RiskLeq);
    }
  }

  lemma RiskClashIsMixed(order: seq<Risk>, risks: set<Risk>)
    requires Lists(order, risks)
    ensures Clashing(order, RiskClash) <==> MixedRisks(risks)
  {
    if x, y :| x in order && y in order && RiskClash(x, y) {
      var r, s := if x.ingredientId.None? then x else y, if x.ingredientId.None? then y else x;
      assert r in risks && s in risks && r.ingredientId.None? && s.ingredientId.Some?;
      assert r.code == s.code && r.classification == s.classification && r.scope == s.scope;
    }
    if MixedRisks(risks) {
      var r, s :| r in risks && s in risks && r.code == s.code && r.classification == s.classification
        && r.scope == s.scope && r.ingredientId.None? && s.ingredientId.Some?;
      assert r in order && s in order && RiskClash(r, s);
    }
  }

  /** _risk_changes on the keys of both sides' risk details */
  function RiskChanges(left: set<Risk>, right: set<Risk>, added: bool): Result<seq<Risk>> {
    var changes := if added then right - left else left - right;
    if MixedRisks(changes) then TypeError else Ok(SortedRisks(changes))
  }

  /** Baseline risks plus the new ones minus the resolved ones are the hypothetical risks; no risk is both. */
  lemma RiskChangesPatch(left: set<Risk>, right: set<Risk>)
    requires RiskChanges(left, right, true).Ok? && RiskChanges(left, right, false).Ok?
    ensures var new_ := set r | r in RiskChanges(left, right, true).value;
      var resolved := set r | r in RiskChanges(left, right, false).value;
      left - resolved + new_ == right && new_ !! resolved && new_ !! left && resolved <= left
    ensures RiskChanges(left, right, true) == RiskChanges(right, left, false)
  {
    RiskOrder();
  }
}
