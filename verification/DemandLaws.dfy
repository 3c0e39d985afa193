/** Demand summaries and alignments said of the rows and order lines themselves. */
module DemandLaws {
  import opened Text
  import opened Ordering
  import opened Grouping
  import opened DemandEvidence

  // ---------- sums over one ingredient ----------

  /** The quantile of a row that belongs to the ingredient, 0 for a missing one and for other rows. */
  function At25(r: Demand, id: string): real {
    if r.ingredientId == id && r.p25.Some? then r.p25.value else 0.0
  }

  function At50(r: Demand, id: string): real {
    if r.ingredientId == id && r.p50.Some? then r.p50.value else 0.0
  }

  function At75(r: Demand, id: string): real {
    if r.ingredientId == id && r.p75.Some? then r.p75.value else 0.0
  }

  function Ordered(o: Order, id: string): real {
    if o.ingredientId == id then o.quantity else 0.0
  }

  lemma {:induction false} SumsOf(rows: seq<Demand>, id: string)
    ensures Total(RowsOf(rows, id), P25) == Total(rows, (r: Demand) => At25(r, id))
    ensures Total(RowsOf(rows, id), P50) == Total(rows, (r: Demand) => At50(r, id))
    ensures Total(RowsOf(rows, id), P75) == Total(rows, (r: Demand) => At75(r, id))
  {
    if rows != [] { SumsOf(rows[1..], id); }
  }

  lemma {:induction false} OrderedOf(orders: seq<Order>, id: string)
    ensures Total(Members(orders, OrderId, id), Quantity) == Total(orders, (o: Order) => Ordered(o, id))
  {
    if orders != [] { OrderedOf(orders[1..], id); }
  }

  // ---------- the first row by date ----------

  /** Row `i` is the earliest, and of the earliest the first. */
  ghost predicate FirstAt(rows: seq<Demand>, i: nat) {
    && i < |rows| && (forall j | 0 <= j < |rows| :: StrLeq(rows[i].targetDate, rows[j].targetDate))
    && forall j | 0 <= j < i :: rows[j].targetDate != rows[i].targetDate
  }

  ghost predicate IsFirst(rows: seq<Demand>, r: Demand) {
    exists i: nat :: FirstAt(rows, i) && r == rows[i]
  }

  lemma {:induction false} HeadOfSort(rows: seq<Demand>)
    requires rows != []
    ensures InOrder(rows) != [] && IsFirst(rows, InOrder(rows)[0])
  {
    hide StrLeq;
    ByDateOrder();
    StrOrder();
    if |rows| > 1 {
      HeadOfSort(rows[1..]);
      var rest := InOrder(rows[1..]);
      var i: nat :| FirstAt(rows[1..], i) && rest[0] == rows[1..][i];
      assert forall j | 0 <= j < |rows[1..]| :: rows[1..][j] == rows[j + 1];
      if ByDate(rows[0], rest[0]) {
        forall j | 0 <= j < |rows|
          ensures StrLeq(rows[0].targetDate, rows[j].targetDate)
        {
          if j > 0 { assert StrLeq(rest[0].targetDate, rows[1..][j - 1].targetDate); }
        }
        assert FirstAt(rows, 0);
      } else {
        assert StrLeq(rest[0].targetDate, rows[0].targetDate);
        forall j | 0 <= j < |rows|
          ensures StrLeq(rest[0].targetDate, rows[j].targetDate)
        {
          if j > 0 { assert StrLeq(rest[0].targetDate, rows[1..][j - 1].targetDate); }
        }
        forall j | 0 <= j < i + 1
          ensures rows[j].targetDate != rest[0].targetDate
        {
          if j > 0 { assert rows[1..][j - 1].targetDate != rest[0].targetDate; }
        }
        assert FirstAt(rows, i + 1);
      }
    } else {
      assert rows[1..] == [] && InOrder([]) == [];
      assert FirstAt(rows, 0);
    }
  }

  // ---------- summaries ----------

  /** The last date of the rows. */
  ghost predicate LatestDate(rows: seq<Demand>, date: string) {
    && (exists r :: r in rows && r.targetDate == date)
    && forall r | r in rows :: StrLeq(r.targetDate, date)
  }

  /** Everything a summary of an ingredient says; `own` are its rows, in order. */
  ghost predicate Sums(s: Summary, id: string, rows: seq<Demand>) {
    var own := RowsOf(rows, id);
    && s.ingredientId == id
    && (exists i: nat :: FirstAt(own, i) && s.unit == own[i].unit && s.ingredientName == own[i].ingredientName
                         && s.periodStart == own[i].targetDate)
    && LatestDate(own, s.periodEnd)
    && s.p25Total == Total(rows, (r: Demand) => At25(r, id))
    && s.p50Total == Total(rows, (r: Demand) => At50(r, id))
    && s.p75Total == Total(rows, (r: Demand) => At75(r, id))
    && (exists r :: r in own && r.p50 == Some(s.dailyP50Min)) && (exists r :: r in own && r.p50 == Some(s.dailyP50Max))
    && (forall r | r in own && r.p50.Some? :: s.dailyP50Min <= r.p50.value <= s.dailyP50Max)
    && s.peakP50 == s.dailyP50Max
    && (exists r :: r in own && r.p50 == Some(s.peakP50) && r.targetDate == s.peakDate)
    && (forall r | r in own && r.p50 == Some(s.peakP50) :: StrLeq(r.targetDate, s.peakDate))
    && SortedBy(s.sourceDates, StrLeq) && multiset(s.sourceDates) == DatesOf(own)
  }

  ghost function DatesOf(rows: seq<Demand>): multiset<string> {
    if rows == [] then multiset{} else multiset{rows[0].targetDate} + DatesOf(rows[1..])
  }

  function Dates(rows: seq<Demand>): seq<string> {
    seq(|rows|, i requires 0 <= i < |rows| => rows[i].targetDate)
  }

  lemma {:induction false} DatesAre(rows: seq<Demand>)
    ensures multiset(Dates(rows)) == DatesOf(rows)
  {
    if rows != [] {
      DatesAre(rows[1..]);
      assert Dates(rows) == [rows[0].targetDate] + Dates(rows[1..]);
    }
  }

  lemma {:induction false} InsertDates(r: Demand, rows: seq<Demand>)
    ensures DatesOf(Insert(r, rows, ByDate)) == multiset{r.targetDate} + DatesOf(rows)
  {
    hide StrLeq;
    if rows == [] || ByDate(r, rows[0]) {
      assert ([r] + rows)[1..] == rows;
    } else {
      InsertDates(r, rows[1..]);
      var more := Insert(r, rows[1..], ByDate);
      assert ([rows[0]] + more)[1..] == more;
    }
  }

  lemma {:induction false} SortDates(rows: seq<Demand>)
    ensures DatesOf(InOrder(rows)) == DatesOf(rows)
  {
    hide StrLeq;
    if rows != [] {
      SortDates(rows[1..]);
      InsertDates(rows[0], InOrder(rows[1..]));
    }
  }

  lemma DatesSorted(s: Summary, id: string, own: seq<Demand>)
    requires Summarises(s, id, own)
    ensures SortedBy(s.sourceDates, StrLeq) && multiset(s.sourceDates) == DatesOf(own)
  {
    hide StrLeq, Sort, HasPeak, HasExtremes, Total;
    ByDateOrder();
    SortSorted(own, ByDate);
    assert s.sourceDates == Dates(InOrder(own));
    DatesAre(InOrder(own));
    SortDates(own);
    forall i, j | 0 <= i < j < |s.sourceDates|
      ensures StrLeq(s.sourceDates[i], s.sourceDates[j])
    {
      assert ByDate(InOrder(own)[i], InOrder(own)[j]);
    }
  }

  lemma LastIsLatest(s: Summary, id: string, own: seq<Demand>)
    requires Summarises(s, id, own)
    ensures LatestDate(own, s.periodEnd)
  {
    hide StrLeq, Sort, HasPeak, HasExtremes, Total;
    ByDateOrder();
    SortSorted(own, ByDate);
    InsidePeriod(s, id, own);
    var ordered := InOrder(own);
    assert ordered[|ordered| - 1] in ordered;
  }

  /** A summary is what the ingredient's rows say, field by field. */
  lemma SummaryIs(s: Summary, id: string, rows: seq<Demand>)
    requires Summarises(s, id, RowsOf(rows, id))
    ensures Sums(s, id, rows)
  {
    hide StrLeq, RowsOf, Total, InOrder, DatesOf, LatestDate;
    var own := RowsOf(rows, id);
    SummaryCoherent(s, id, own);
    NotEmptyRows(s, id, own);
    HeadOfSort(own);
    SumsOf(rows, id);
    DatesSorted(s, id, own);
    LastIsLatest(s, id, own);
  }

  lemma NotEmptyRows(s: Summary, id: string, own: seq<Demand>)
    requires Summarises(s, id, own)
    ensures own != []
  {
    hide StrLeq, Total, HasPeak;
    var r :| r in own && r.p50 == Some(s.dailyP50Min);
  }

  ghost predicate IsSummed(facts: seq<Summary>, id: string) {
    exists s :: s in facts && s.ingredientId == id
  }

  /** Some row of the ingredient has a p50. */
  ghost predicate IsDemanded(rows: seq<Demand>, id: string) {
    exists r :: r in rows && r.ingredientId == id && r.p50.Some?
  }

  /** There is one summary for each ingredient with a p50, in the order of ids. */
  lemma SummariesAre(rows: seq<Demand>, facts: seq<Summary>)
    requires AreSummaries(facts, Summarised(rows, SortedStrings(Ids(rows))), rows)
    ensures forall s | s in facts :: Sums(s, s.ingredientId, rows)
    ensures forall id :: IsSummed(facts, id) <==> IsDemanded(rows, id)
    ensures forall i, j | 0 <= i < j < |facts| ::
      StrLeq(facts[i].ingredientId, facts[j].ingredientId) && facts[i].ingredientId != facts[j].ingredientId
  {
    hide StrLeq, RowsOf, Summarises, Sums, Filter;
    var all, ids := SortedStrings(Ids(rows)), Summarised(rows, SortedStrings(Ids(rows)));
    FilterMember(all, id => AnyP50(RowsOf(rows, id)));
    KeptInOrder(all, id => AnyP50(RowsOf(rows, id)));
    forall i | 0 <= i < |facts|
      ensures facts[i].ingredientId == ids[i] && Sums(facts[i], ids[i], rows)
    {
      SummaryIs(facts[i], ids[i], rows);
      OwnId(facts[i], ids[i], RowsOf(rows, ids[i]));
    }
    forall id
      ensures IsSummed(facts, id) <==> IsDemanded(rows, id)
    {
      WithP50(rows, id);
      assert IsSummed(facts, id) <==> id in ids by {
        if id in ids {
          var i :| 0 <= i < |ids| && ids[i] == id;
          assert facts[i] in facts;
        }
      }
      assert id in ids <==> id in all && AnyP50(RowsOf(rows, id));
    }
  }

  lemma OwnId(s: Summary, id: string, rows: seq<Demand>)
    requires Summarises(s, id, rows)
    ensures s.ingredientId == id
  {}

  lemma WithP50(rows: seq<Demand>, id: string)
    ensures id in Ids(rows) && AnyP50(RowsOf(rows, id)) <==> IsDemanded(rows, id)
  {
    hide RowsOf;
    MembersSound(rows, IdOf, id);
    RowsAre(rows, id);
    if r :| r in rows && r.ingredientId == id && r.p50.Some? {
      assert r in RowsOf(rows, id) && HasP50(r);
    }
  }

  lemma RowsAre(rows: seq<Demand>, id: string)
    ensures RowsOf(rows, id) == Members(rows, IdOf, id)
  {}

  lemma {:induction false} KeptInOrder(s: seq<string>, keep: string -> bool)
    requires SortedBy(s, StrLeq) && Distinct(s)
    ensures SortedBy(Filter(s, keep), StrLeq) && Distinct(Filter(s, keep))
  {
    hide StrLeq;
    if s != [] {
      FilterMember(s[1..], keep);
      KeptInOrder(s[1..], keep);
      var rest := Filter(s[1..], keep);
      assert forall x | x in s[1..] :: StrLeq(s[0], x) && s[0] != x;
      assert forall j | 0 <= j < |rest| :: rest[j] in s[1..];
    }
  }

  // ---------- alignments ----------

  /** Everything an alignment says. */
  ghost predicate Aligns(a: Alignment, rows: seq<Demand>, orders: seq<Order>) {
    var id, own := a.ingredientId, RowsOf(rows, a.ingredientId);
    && (exists i: nat :: FirstAt(own, i) && own[i].unit == Some(a.unit) && a.ingredientName == own[i].ingredientName)
    && a.p50Total == Total(rows, (r: Demand) => At50(r, id))
    && a.orderTotal == Total(orders, (o: Order) => Ordered(o, id))
    && a.gap == a.orderTotal - a.p50Total
    && a.magnitude >= 0.0 && (a.magnitude == a.gap || a.magnitude == -a.gap)
    && (a.relativeGap.Some? <==> a.p50Total != 0.0)
    && (a.relativeGap.Some? ==> a.relativeGap.value * a.p50Total == a.gap)
    && a.lineCount == |Filter(orders, (o: Order) => o.ingredientId == id)|
  }

  /** The ingredient is ordered in the unit of its earliest row, on every line. */
  ghost predicate Aligned(rows: seq<Demand>, orders: seq<Order>, id: string) {
    && (exists o :: o in orders && o.ingredientId == id)
    && IsDemanded(rows, id)
    && var own := RowsOf(rows, id);
       exists i: nat :: FirstAt(own, i) && own[i].unit.Some?
                        && forall o | o in orders && o.ingredientId == id :: o.unit == own[i].unit
  }

  lemma {:induction false} LinesOf(orders: seq<Order>, id: string)
    ensures Members(orders, OrderId, id) == Filter(orders, (o: Order) => o.ingredientId == id)
  {
    if orders != [] { LinesOf(orders[1..], id); }
  }

  lemma {:induction false} SummaryForIs(facts: seq<Summary>, ids: seq<string>, rows: seq<Demand>, id: string)
    requires AreSummaries(facts, ids, rows)
    ensures SummaryFor(facts, id).Some? <==> id in ids
  {
    hide RowsOf, Summarises;
    if facts != [] {
      OwnId(facts[0], ids[0], RowsOf(rows, ids[0]));
      assert ids == [ids[0]] + ids[1..];
      SummaryForIs(facts[1..], ids[1..], rows, id);
    }
  }

  lemma FirstUnique(own: seq<Demand>, i: nat, j: nat)
    requires FirstAt(own, i) && FirstAt(own, j)
    ensures i == j
  {
    hide StrLeq;
    StrOrder();
    assert own[i].targetDate == own[j].targetDate;
  }

  lemma AlignmentIs(id: string, s: Summary, rows: seq<Demand>, orders: seq<Order>)
    requires s.unit.Some? && Summarises(s, id, RowsOf(rows, id))
    ensures Aligns(Align(id, s, Members(orders, OrderId, id)), rows, orders)
  {
    hide StrLeq, RowsOf, Total, InOrder, Members, HasPeak, HasExtremes;
    NotEmptyRows(s, id, RowsOf(rows, id));
    HeadOfSort(RowsOf(rows, id));
    SumsOf(rows, id);
    OrderedOf(orders, id);
    LinesOf(orders, id);
    AlignHolds(id, s, Members(orders, OrderId, id));
  }

  lemma UnitsAgree(id: string, s: Summary, rows: seq<Demand>, orders: seq<Order>)
    requires Summarises(s, id, RowsOf(rows, id)) && IsDemanded(rows, id)
    requires exists o :: o in orders && o.ingredientId == id
    ensures SameUnit(Members(orders, OrderId, id), s.unit) <==> Aligned(rows, orders, id)
  {
    hide StrLeq, RowsOf, Total, InOrder, Members, HasPeak, HasExtremes;
    var own := RowsOf(rows, id);
    NotEmptyRows(s, id, own);
    HeadOfSort(own);
    MembersSound(orders, OrderId, id);
    var i: nat :| FirstAt(own, i) && InOrder(own)[0] == own[i];
    assert s.unit == own[i].unit;
    forall j: nat | FirstAt(own, j)
      ensures j == i
    {
      FirstUnique(own, i, j);
    }
  }

  /** An ingredient is aligned exactly when it is ordered, has a p50 and all its lines have the unit of its earliest row. */
  lemma AlignmentsAre(rows: seq<Demand>, facts: seq<Summary>, orders: seq<Order>)
    requires AreSummaries(facts, Summarised(rows, SortedStrings(Ids(rows))), rows)
    ensures var aligned := Alignments(SortedStrings(OrderIds(orders)), facts, orders);
      && (forall a | a in aligned :: Aligns(a, rows, orders))
      && forall id :: (exists a :: a in aligned && a.ingredientId == id) <==> Aligned(rows, orders, id)
  {
    hide StrLeq, RowsOf, Summarises, Align, Aligned, Aligns, AreSummaries, Summarised, Members, SummaryFor, SameUnit;
    var ids, wanted := SortedStrings(OrderIds(orders)), Summarised(rows, SortedStrings(Ids(rows)));
    var aligned := Alignments(ids, facts, orders);
    forall a
      ensures a in aligned <==> exists id :: id in ids && Yields(a, id, facts, orders)
    {
      AlignmentsMember(a, ids, facts, orders);
    }
    forall id
      ensures forall a | Yields(a, id, facts, orders) :: Aligns(a, rows, orders) && a.ingredientId == id
      ensures (id in ids && exists a :: Yields(a, id, facts, orders)) <==> Aligned(rows, orders, id)
    {
      YieldsIff(rows, facts, orders, id);
    }
  }

  lemma YieldsIff(rows: seq<Demand>, facts: seq<Summary>, orders: seq<Order>, id: string)
    requires AreSummaries(facts, Summarised(rows, SortedStrings(Ids(rows))), rows)
    ensures forall a | Yields(a, id, facts, orders) :: Aligns(a, rows, orders) && a.ingredientId == id
    ensures (id in SortedStrings(OrderIds(orders)) && exists a :: Yields(a, id, facts, orders)) <==> Aligned(rows, orders, id)
  {
    hide StrLeq, RowsOf, Summarises, Align, Aligns, AreSummaries, Members, SummaryFor, SameUnit, Filter, FirstAt;
    var all := SortedStrings(Ids(rows));
    var wanted := Summarised(rows, all);
    SummaryForIs(facts, wanted, rows, id);
    FilterMember(all, id => AnyP50(RowsOf(rows, id)));
    WithP50(rows, id);
    var summary, lines := SummaryFor(facts, id), Members(orders, OrderId, id);
    assert id in SortedStrings(OrderIds(orders)) <==> exists o :: o in orders && o.ingredientId == id;
    if summary.Some? {
      SummaryForSound(facts, wanted, rows, id);
      if exists o :: o in orders && o.ingredientId == id { UnitsAgree(id, summary.value, rows, orders); }
      if SameUnit(lines, summary.value.unit) {
        UnitGiven(lines, summary.value.unit);
        AlignmentIs(id, summary.value, rows, orders);
        AlignId(id, summary.value, lines);
        assert Yields(Align(id, summary.value, lines), id, facts, orders);
      }
    }
  }

  lemma UnitGiven(lines: seq<Order>, unit: Option<string>)
    requires SameUnit(lines, unit)
    ensures unit.Some?
  {}

  lemma AlignId(id: string, s: Summary, lines: seq<Order>)
    requires s.unit.Some?
    ensures Align(id, s, lines).ingredientId == id
  {}
}
