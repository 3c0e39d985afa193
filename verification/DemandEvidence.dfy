/**
 Demand summaries and their alignment with orders: app/decision_intelligence/semantic_evidence.py, lines 275 to
 322 and 355 to 408.

 Quantities are exact reals. A target date is the text `_date` makes of it; ISO dates compare as texts.
 */
module DemandEvidence {
  import opened Text
  import opened Ordering
  import opened Grouping

  datatype Demand = Demand(
    ingredientId: string, ingredientName: Option<string>, unit: Option<string>, targetDate: string,
    p25: Option<real>, p50: Option<real>, p75: Option<real>)

  datatype Summary = Summary(
    ingredientId: string, unit: Option<string>, ingredientName: Option<string>, periodStart: string, periodEnd: string,
    p25Total: real, p50Total: real, p75Total: real, dailyP50Min: real, dailyP50Max: real,
    peakDate: string, peakP50: real, sourceDates: seq<string>)

  function IdOf(d: Demand): string {
    d.ingredientId
  }

  /** `value or 0` */
  function OrZero(q: Option<real>): real {
    match q
    case None => 0.0
    case Some(x) => x
  }

  function P25(d: Demand): real { OrZero(d.p25) }

  function P50(d: Demand): real { OrZero(d.p50) }

  function P75(d: Demand): real { OrZero(d.p75) }

  predicate HasP50(d: Demand) {
    d.p50.Some?
  }

  predicate ByDate(a: Demand, b: Demand) {
    StrLeq(a.targetDate, b.targetDate)
  }

  /** `a` comes after `b` under the key (p50, date) */
  predicate PeakAfter(a: Demand, b: Demand) {
    P50(a) > P50(b) || (P50(a) == P50(b) && a.targetDate != b.targetDate && StrLeq(b.targetDate, a.targetDate))
  }

  lemma ByDateOrder()
    ensures TotalPreorder(ByDate)
  {
    StrOrder();
  }

  function InOrder(rows: seq<Demand>): seq<Demand> {
    Sort(rows, ByDate)
  }

  // ---------- one summary ----------

  /** max(rows, key=(p50, date)): the first row that no other comes after. */
  method Peak(rows: seq<Demand>) returns (peak: Demand)
    requires rows != []
    ensures IsPeak(rows, peak)
  {
    StrOrder();
    peak := rows[0];
    for i := 1 to |rows|
      invariant IsPeak(rows[..i], peak)
    {
      var was := peak;
      if PeakAfter(rows[i], peak) {
        peak := rows[i];
      }
      assert rows[..i + 1] == rows[..i] + [rows[i]];
      PeakStep(rows[..i], rows[i], was, peak);
    }
    assert rows[..|rows|] == rows;
  }

  ghost predicate IsPeak(rows: seq<Demand>, peak: Demand) {
    peak in rows && forall r | r in rows :: !PeakAfter(r, peak)
  }

  lemma PeakStep(rows: seq<Demand>, r: Demand, was: Demand, peak: Demand)
    requires IsPeak(rows, was) && peak == if PeakAfter(r, was) then r else was
    ensures IsPeak(rows + [r], peak)
  {
    StrOrder();
    hide StrLeq;
    forall x | x in rows + [r]
      ensures !PeakAfter(x, peak)
    {
      assert x in rows || x == r;
      assert x in rows ==> !PeakAfter(x, was);
    }
  }

  /** min and max of the p50 values that are present */
  method Extremes(rows: seq<Demand>) returns (low: real, high: real)
    requires rows != []
    ensures (exists r :: r in rows && P50(r) == low) && (exists r :: r in rows && P50(r) == high)
    ensures forall r | r in rows :: low <= P50(r) <= high
  {
    low, high := P50(rows[0]), P50(rows[0]);
    for i := 1 to |rows|
      invariant (exists r :: r in rows && P50(r) == low) && (exists r :: r in rows && P50(r) == high)
      invariant forall r | r in rows[..i] :: low <= P50(r) <= high
    {
      assert rows[..i + 1] == rows[..i] + [rows[i]] && rows[i] in rows;
      if P50(rows[i]) < low { low := P50(rows[i]); }
      if P50(rows[i]) > high { high := P50(rows[i]); }
    }
    assert rows[..|rows|] == rows;
  }

  /** sum(... for row in rows) */
  method SumOver(rows: seq<Demand>, quantity: Demand -> real) returns (sum: real)
    ensures sum == Total(rows, quantity)
  {
    sum := 0.0;
    for i := 0 to |rows|
      invariant sum + Total(rows[i..], quantity) == Total(rows, quantity)
    {
      assert rows[i..][0] == rows[i] && rows[i..][1..] == rows[i + 1..];
      sum := sum + quantity(rows[i]);
    }
    assert rows[|rows|..] == [];
  }

  /** The facts of one ingredient, from its rows: what a summary has to say. */
  ghost predicate Summarises(s: Summary, id: string, rows: seq<Demand>) {
    var ordered := InOrder(rows);
    && ordered != []
    && s.ingredientId == id
    && s.unit == ordered[0].unit && s.ingredientName == ordered[0].ingredientName
    && s.periodStart == ordered[0].targetDate && s.periodEnd == ordered[|ordered| - 1].targetDate
    && s.p25Total == Total(rows, P25) && s.p50Total == Total(rows, P50) && s.p75Total == Total(rows, P75)
    && HasExtremes(s, rows)
    && HasPeak(s, rows)
    && |s.sourceDates| == |ordered| && forall i | 0 <= i < |ordered| :: s.sourceDates[i] == ordered[i].targetDate
  }

  ghost predicate HasExtremes(s: Summary, rows: seq<Demand>) {
    && (exists r :: r in rows && r.p50 == Some(s.dailyP50Min))
    && (exists r :: r in rows && r.p50 == Some(s.dailyP50Max))
    && forall r | r in rows && HasP50(r) :: s.dailyP50Min <= r.p50.value <= s.dailyP50Max
  }

  /** The peak is a row of the largest p50, and of the latest date among those. */
  ghost predicate HasPeak(s: Summary, rows: seq<Demand>) {
    && (exists r :: r in rows && r.p50 == Some(s.peakP50) && r.targetDate == s.peakDate)
    && (forall r | r in rows && HasP50(r) :: r.p50.value <= s.peakP50)
    && (forall r | r in rows && r.p50 == Some(s.peakP50) :: StrLeq(r.targetDate, s.peakDate))
  }

  /** The body of the loop over ingredients. */
  method Summarise(id: string, rows: seq<Demand>) returns (s: Option<Summary>)
    ensures s.Some? <==> AnyP50(rows)
    ensures s.Some? ==> Summarises(s.value, id, rows)
  {
    hide Sort, Total, Filter, StrLeq, HasExtremes, HasPeak, AnyP50, SortedBy, Summarises, IsPeak;
    var ordered := InOrder(rows);
    var p50Rows := Filter(ordered, HasP50);
    Present(rows, p50Rows);
    if ordered == [] || p50Rows == [] {
      return None;
    }
    var peak := Peak(p50Rows);
    var p25Total := SumOver(ordered, P25);
    var p50Total := SumOver(ordered, P50);
    var p75Total := SumOver(ordered, P75);
    var low, high := Extremes(p50Rows);
    var dates := seq(|ordered|, i requires 0 <= i < |ordered| => ordered[i].targetDate);
    PeakPresent(peak, rows, p50Rows);
    var summary := Summary(id, ordered[0].unit, ordered[0].ingredientName, ordered[0].targetDate,
      ordered[|ordered| - 1].targetDate, p25Total, p50Total, p75Total, low, high, peak.targetDate, peak.p50.value, dates);
    ExtremesHold(summary, rows, p50Rows);
    PeakHolds(summary, rows, p50Rows, peak);
    SummaryHolds(summary, id, rows);
    s := Some(summary);
  }

  predicate AnyP50(rows: seq<Demand>) {
    exists r | r in rows :: HasP50(r)
  }

  lemma Present(rows: seq<Demand>, p50Rows: seq<Demand>)
    requires p50Rows == Filter(InOrder(rows), HasP50)
    ensures forall r :: r in p50Rows <==> r in rows && HasP50(r)
    ensures p50Rows != [] <==> AnyP50(rows)
    ensures InOrder(rows) == [] ==> p50Rows == []
  {
    hide Sort, Filter;
    ByDateOrder();
    SortSorted(rows, ByDate);
    FilterMember(InOrder(rows), HasP50);
    HeadIn(p50Rows);
  }

  lemma PeakPresent(peak: Demand, rows: seq<Demand>, p50Rows: seq<Demand>)
    requires IsPeak(p50Rows, peak) && forall r :: r in p50Rows <==> r in rows && HasP50(r)
    ensures peak.p50.Some?
  {}

  lemma SummaryHolds(s: Summary, id: string, rows: seq<Demand>)
    requires var ordered := InOrder(rows);
      && ordered != [] && s.ingredientId == id
      && s.unit == ordered[0].unit && s.ingredientName == ordered[0].ingredientName
      && s.periodStart == ordered[0].targetDate && s.periodEnd == ordered[|ordered| - 1].targetDate
      && s.p25Total == Total(ordered, P25) && s.p50Total == Total(ordered, P50) && s.p75Total == Total(ordered, P75)
      && |s.sourceDates| == |ordered| && forall i | 0 <= i < |ordered| :: s.sourceDates[i] == ordered[i].targetDate
    requires HasExtremes(s, rows) && HasPeak(s, rows)
    ensures Summarises(s, id, rows)
  {
    hide Sort, Total, HasExtremes, HasPeak;
    SortTotal(rows, ByDate, P25);
    SortTotal(rows, ByDate, P50);
    SortTotal(rows, ByDate, P75);
  }

  lemma ExtremesHold(s: Summary, rows: seq<Demand>, p50Rows: seq<Demand>)
    requires forall r :: r in p50Rows <==> r in rows && HasP50(r)
    requires exists r :: r in p50Rows && P50(r) == s.dailyP50Min
    requires exists r :: r in p50Rows && P50(r) == s.dailyP50Max
    requires forall r | r in p50Rows :: s.dailyP50Min <= P50(r) <= s.dailyP50Max
    ensures HasExtremes(s, rows)
  {
    var a :| a in p50Rows && P50(a) == s.dailyP50Min;
    var b :| b in p50Rows && P50(b) == s.dailyP50Max;
    assert a in rows && a.p50 == Some(s.dailyP50Min) && b in rows && b.p50 == Some(s.dailyP50Max);
  }

  lemma PeakHolds(s: Summary, rows: seq<Demand>, p50Rows: seq<Demand>, peak: Demand)
    requires forall r :: r in p50Rows <==> r in rows && HasP50(r)
    requires IsPeak(p50Rows, peak) && peak.p50 == Some(s.peakP50) && peak.targetDate == s.peakDate
    ensures HasPeak(s, rows)
  {
    hide StrLeq;
    StrOrder();
    assert peak in rows;
    forall r | r in rows && HasP50(r)
      ensures r.p50.value <= s.peakP50 && (r.p50.value == s.peakP50 ==> StrLeq(r.targetDate, s.peakDate))
    {
      assert !PeakAfter(r, peak);
      assert StrLeq(r.targetDate, peak.targetDate) || StrLeq(peak.targetDate, r.targetDate);
    }
  }

  // ---------- all summaries ----------

  function Ids(rows: seq<Demand>): set<string> {
    set r | r in rows :: r.ingredientId
  }

  function RowsOf(rows: seq<Demand>, id: string): seq<Demand> {
    Members(rows, IdOf, id)
  }

  /** The ingredients with a p50, in order. */
  function Summarised(rows: seq<Demand>, ids: seq<string>): seq<string> {
    Filter(ids, id => AnyP50(RowsOf(rows, id)))
  }

  ghost predicate AreSummaries(facts: seq<Summary>, ids: seq<string>, rows: seq<Demand>) {
    |facts| == |ids| && forall i | 0 <= i < |ids| :: Summarises(facts[i], ids[i], RowsOf(rows, ids[i]))
  }

  /** _demand_facts: one summary for every ingredient with a p50, by increasing id, each about all its rows. */
  method DemandFacts(rows: seq<Demand>) returns (facts: seq<Summary>)
    ensures AreSummaries(facts, Summarised(rows, SortedStrings(Ids(rows))), rows)
  {
    hide Groups, Filter, Summarises, RowsOf, AnyP50;
    var grouped := GroupBy(rows, IdOf);
    var ids := SortedStrings(Ids(rows));
    facts := [];
    NoIds(rows);
    for i := 0 to |ids|
      invariant AreSummaries(facts, Summarised(rows, ids[..i]), rows)
    {
      var group := GroupAt(grouped, ids[i], rows, IdOf);
      assert group == RowsOf(rows, ids[i]) by { RowsAre(rows, ids[i]); }
      var s := Summarise(ids[i], group);
      SummarisedOne(rows, ids[..i], ids[i]);
      assert ids[..i + 1] == ids[..i] + [ids[i]];
      if s.Some? {
        facts := facts + [s.value];
      }
    }
    assert ids[..|ids|] == ids;
  }

  lemma RowsAre(rows: seq<Demand>, id: string)
    ensures RowsOf(rows, id) == Members(rows, IdOf, id)
  {}

  lemma NoIds(rows: seq<Demand>)
    ensures Summarised(rows, []) == []
  {}

  lemma SummarisedOne(rows: seq<Demand>, ids: seq<string>, id: string)
    ensures Summarised(rows, ids + [id]) == if AnyP50(RowsOf(rows, id)) then Summarised(rows, ids) + [id] else Summarised(rows, ids)
  {
    hide AnyP50, RowsOf;
    FilterAppend(ids, [id], id => AnyP50(RowsOf(rows, id)));
    assert [id][1..] == [];
    assert Summarised(rows, ids) + [] == Summarised(rows, ids);
  }

  // ---------- what the summaries keep ----------

  function P50Total(s: Summary): real {
    s.p50Total
  }

  lemma {:induction false} NoP50NoTotal(rows: seq<Demand>)
    requires !AnyP50(rows)
    ensures Total(rows, P50) == 0.0
  {
    if rows != [] {
      assert rows[0] in rows && !HasP50(rows[0]);
      assert !AnyP50(rows[1..]) by {
        forall r | r in rows[1..] ensures !HasP50(r) { assert r in rows; }
      }
      NoP50NoTotal(rows[1..]);
    }
  }

  /** The emitted totals add up to the total of the ids taken: skipped ingredients have no p50 to lose. */
  lemma {:induction false} EmittedTotal(facts: seq<Summary>, ids: seq<string>, rows: seq<Demand>)
    requires AreSummaries(facts, Summarised(rows, ids), rows)
    ensures Total(facts, P50Total) == TotalByKey(ids, rows, IdOf, P50)
  {
    hide Summarises, AnyP50, Members;
    if ids != [] {
      var first := RowsOf(rows, ids[0]);
      assert Summarised(rows, ids) == (if AnyP50(first) then [ids[0]] else []) + Summarised(rows, ids[1..]);
      if AnyP50(first) {
        FirstTotal(facts[0], ids[0], first);
        EmittedTotal(facts[1..], ids[1..], rows);
      } else {
        assert [] + Summarised(rows, ids[1..]) == Summarised(rows, ids[1..]);
        NoP50NoTotal(first);
        EmittedTotal(facts, ids[1..], rows);
      }
    }
  }

  lemma FirstTotal(s: Summary, id: string, rows: seq<Demand>)
    requires Summarises(s, id, rows)
    ensures P50Total(s) == Total(rows, P50)
  {}

  /** Demand is conserved: the p50 totals of the facts add up to every p50 present in the rows. */
  lemma DemandConserved(rows: seq<Demand>, facts: seq<Summary>)
    requires AreSummaries(facts, Summarised(rows, SortedStrings(Ids(rows))), rows)
    ensures Total(facts, P50Total) == Total(rows, P50)
  {
    hide AreSummaries, Total, TotalByKey, StrLeq;
    var ids := SortedStrings(Ids(rows));
    EmittedTotal(facts, ids, rows);
    forall r | r in rows
      ensures IdOf(r) in ids
    {
      assert r.ingredientId in Ids(rows);
    }
    Partition(ids, rows, IdOf, P50);
  }

  function P50Count(rows: seq<Demand>): nat {
    if rows == [] then 0 else (if HasP50(rows[0]) then 1 else 0) + P50Count(rows[1..])
  }

  function Scaled(n: nat, x: real): real {
    n as real * x
  }

  lemma {:induction false} TotalBetween(rows: seq<Demand>, low: real, high: real)
    requires forall r | r in rows && HasP50(r) :: low <= r.p50.value <= high
    ensures Scaled(P50Count(rows), low) <= Total(rows, P50) <= Scaled(P50Count(rows), high)
  {
    hide Scaled;
    if rows == [] {
      NoneScaled(low);
      NoneScaled(high);
    } else {
      assert rows[0] in rows && forall r | r in rows[1..] :: r in rows;
      TotalBetween(rows[1..], low, high);
      OneMore(P50Count(rows[1..]), low);
      OneMore(P50Count(rows[1..]), high);
    }
  }

  lemma NoneScaled(x: real)
    ensures Scaled(0, x) == 0.0
  {}

  lemma OneMore(n: nat, x: real)
    ensures Scaled(n + 1, x) == Scaled(n, x) + x
  {}

  predicate OrderedQuantiles(d: Demand) {
    P25(d) <= P50(d) <= P75(d)
  }

  lemma {:induction false} TotalsOrdered(rows: seq<Demand>)
    requires forall r | r in rows :: OrderedQuantiles(r)
    ensures Total(rows, P25) <= Total(rows, P50) <= Total(rows, P75)
  {
    if rows != [] {
      assert rows[0] in rows && forall r | r in rows[1..] :: r in rows;
      TotalsOrdered(rows[1..]);
    }
  }

  /**
   A summary's own numbers fit together: the peak is the daily maximum, on the latest day that reaches it and
   inside the period; the total lies between the count of present values times the daily minimum and maximum;
   ordered daily quantiles give ordered totals.
   */
  lemma SummaryCoherent(s: Summary, id: string, rows: seq<Demand>)
    requires Summarises(s, id, rows)
    ensures s.peakP50 == s.dailyP50Max
    ensures StrLeq(s.periodStart, s.peakDate) && StrLeq(s.peakDate, s.periodEnd)
    ensures forall r | r in rows :: StrLeq(s.periodStart, r.targetDate) && StrLeq(r.targetDate, s.periodEnd)
    ensures Scaled(P50Count(rows), s.dailyP50Min) <= s.p50Total <= Scaled(P50Count(rows), s.dailyP50Max)
    ensures (forall r | r in rows :: OrderedQuantiles(r)) ==> s.p25Total <= s.p50Total <= s.p75Total
  {
    hide StrLeq, Sort, Total, P50Count, Scaled;
    InsidePeriod(s, id, rows);
    TotalBetween(rows, s.dailyP50Min, s.dailyP50Max);
    if forall r | r in rows :: OrderedQuantiles(r) {
      TotalsOrdered(rows);
    }
  }

  lemma InsidePeriod(s: Summary, id: string, rows: seq<Demand>)
    requires Summarises(s, id, rows)
    ensures forall r | r in rows :: StrLeq(s.periodStart, r.targetDate) && StrLeq(r.targetDate, s.periodEnd)
  {
    hide StrLeq, Sort, Total, HasPeak, HasExtremes;
    ByDateOrder();
    SortSorted(rows, ByDate);
    var ordered := InOrder(rows);
    forall r | r in rows
      ensures StrLeq(s.periodStart, r.targetDate) && StrLeq(r.targetDate, s.periodEnd)
    {
      assert r in ordered;
      var i :| 0 <= i < |ordered| && ordered[i] == r;
      SortedEnds(ordered, i);
    }
  }

  lemma SortedEnds(ordered: seq<Demand>, i: nat)
    requires i < |ordered| && SortedBy(ordered, ByDate)
    ensures ByDate(ordered[0], ordered[i]) && ByDate(ordered[i], ordered[|ordered| - 1])
  {
    StrOrder();
    hide StrLeq;
    assert ByDate(ordered[i], ordered[i]);
  }

  // ---------- alignment with orders ----------

  datatype Order = Order(ingredientId: string, quantity: real, unit: Option<string>)

  datatype Alignment = Alignment(
    ingredientId: string, unit: string, p50Total: real, orderTotal: real, gap: real, magnitude: real,
    relativeGap: Option<real>, lineCount: nat, ingredientName: Option<string>)

  function OrderId(o: Order): string {
    o.ingredientId
  }

  function Quantity(o: Order): real {
    o.quantity
  }

  /** summaries.get(id); ids are distinct, so first and last agree */
  function SummaryFor(facts: seq<Summary>, id: string): Option<Summary> {
    if facts == [] then None
    else if facts[0].ingredientId == id then Some(facts[0])
    else SummaryFor(facts[1..], id)
  }

  predicate SameUnit(lines: seq<Order>, unit: Option<string>) {
    unit.Some? && forall o | o in lines :: o.unit == unit
  }

  function Align(id: string, s: Summary, lines: seq<Order>): Alignment
    requires s.unit.Some?
  {
    var orderTotal := Total(lines, Quantity);
    var gap := orderTotal - s.p50Total;
    Alignment(id, s.unit.value, s.p50Total, orderTotal, gap, if gap < 0.0 then -gap else gap,
              if s.p50Total == 0.0 then None else Some(gap / s.p50Total), |lines|, s.ingredientName)
  }

  function AlignmentOf(id: string, facts: seq<Summary>, lines: seq<Order>): Option<Alignment> {
    var summary := SummaryFor(facts, id);
    if summary.None? || !SameUnit(lines, summary.value.unit) then None else Some(Align(id, summary.value, lines))
  }

  function Alignments(ids: seq<string>, facts: seq<Summary>, orders: seq<Order>): seq<Alignment> {
    if ids == [] then []
    else (match AlignmentOf(ids[0], facts, Members(orders, OrderId, ids[0])) case None => [] case Some(a) => [a]) + Alignments(ids[1..], facts, orders)
  }

  function OrderIds(orders: seq<Order>): set<string> {
    set o | o in orders :: o.ingredientId
  }

  /** _alignment_facts */
  method AlignmentFacts(facts: seq<Summary>, orders: seq<Order>) returns (aligned: seq<Alignment>)
    ensures aligned == Alignments(SortedStrings(OrderIds(orders)), facts, orders)
  {
    hide AlignmentOf, Groups, Members, StrLeq, OrderIds, Enumerates, SortedStrings, Alignments;
    var grouped := GroupBy(orders, OrderId);
    var ids := SortedStrings(OrderIds(orders));
    aligned := [];
    assert ids[0..] == ids;
    for i := 0 to |ids|
      invariant aligned + Alignments(ids[i..], facts, orders) == Alignments(ids, facts, orders)
    {
      AlignmentsStep(ids, i, facts, orders);
      var lines := GroupAt(grouped, ids[i], orders, OrderId);
      var a := AlignmentOf(ids[i], facts, lines);
      if a.Some? {
        aligned := aligned + [a.value];
      }
    }
    AlignmentsEnd(ids, facts, orders);
  }

  lemma AlignmentsStep(ids: seq<string>, i: nat, facts: seq<Summary>, orders: seq<Order>)
    requires i < |ids|
    ensures var a := AlignmentOf(ids[i], facts, Members(orders, OrderId, ids[i]));
      Alignments(ids[i..], facts, orders)
      == if a.Some? then [a.value] + Alignments(ids[i + 1..], facts, orders) else Alignments(ids[i + 1..], facts, orders)
  {
    hide AlignmentOf, Members;
    assert ids[i..][0] == ids[i] && ids[i..][1..] == ids[i + 1..];
    assert [] + Alignments(ids[i + 1..], facts, orders) == Alignments(ids[i + 1..], facts, orders);
  }

  lemma AlignmentsEnd(ids: seq<string>, facts: seq<Summary>, orders: seq<Order>)
    ensures Alignments(ids[|ids|..], facts, orders) == []
  {
    assert ids[|ids|..] == [];
  }

  predicate Yields(a: Alignment, id: string, facts: seq<Summary>, orders: seq<Order>) {
    AlignmentOf(id, facts, Members(orders, OrderId, id)) == Some(a)
  }

  lemma {:induction false} AlignmentsMember(a: Alignment, ids: seq<string>, facts: seq<Summary>, orders: seq<Order>)
    ensures a in Alignments(ids, facts, orders) <==> exists id :: id in ids && Yields(a, id, facts, orders)
  {
    hide AlignmentOf, Members;
    if ids != [] {
      var rest := Alignments(ids[1..], facts, orders);
      AlignmentsMember(a, ids[1..], facts, orders);
      AlignmentsFirst(a, ids, facts, orders);
      assert forall id :: id in ids <==> id == ids[0] || id in ids[1..];
      if Yields(a, ids[0], facts, orders) {
        assert ids[0] in ids;
      } else if a in rest {
        var id :| id in ids[1..] && Yields(a, id, facts, orders);
        assert id in ids;
      }
    }
  }

  lemma AlignmentsFirst(a: Alignment, ids: seq<string>, facts: seq<Summary>, orders: seq<Order>)
    requires ids != []
    ensures a in Alignments(ids, facts, orders) <==>
      Yields(a, ids[0], facts, orders) || a in Alignments(ids[1..], facts, orders)
  {
    hide AlignmentOf, Members;
  }

  lemma {:induction false} SummaryForSound(facts: seq<Summary>, ids: seq<string>, rows: seq<Demand>, id: string)
    requires AreSummaries(facts, ids, rows) && SummaryFor(facts, id).Some?
    ensures id in ids && Summarises(SummaryFor(facts, id).value, id, RowsOf(rows, id))
  {
    hide RowsOf;
    if facts[0].ingredientId != id {
      SummaryForSound(facts[1..], ids[1..], rows, id);
    } else {
      assert Summarises(facts[0], ids[0], RowsOf(rows, ids[0]));
    }
  }

  /**
   Every gap is the ingredient's ordered quantity minus its p50 demand, over all of its order lines and all of
   its demand rows. The order lines are all in the reported unit; the demand rows are if and only if they share a
   unit, which nothing checks, see `MixedUnitsAligned`.
   */
  lemma GapIsOrderMinusDemand(rows: seq<Demand>, facts: seq<Summary>, orders: seq<Order>, a: Alignment)
    requires AreSummaries(facts, Summarised(rows, SortedStrings(Ids(rows))), rows)
    requires a in Alignments(SortedStrings(OrderIds(orders)), facts, orders)
    ensures var lines := Members(orders, OrderId, a.ingredientId);
      && a.gap == Total(lines, Quantity) - Total(RowsOf(rows, a.ingredientId), P50)
      && a.orderTotal - a.gap == a.p50Total == Total(RowsOf(rows, a.ingredientId), P50)
      && a.lineCount == |lines| >= 1
      && (forall o | o in lines :: o.unit == Some(a.unit))
      && ((forall r | r in RowsOf(rows, a.ingredientId) :: r.unit == Some(a.unit))
          <==> forall r, q | r in RowsOf(rows, a.ingredientId) && q in RowsOf(rows, a.ingredientId) :: r.unit == q.unit)
      && (a.relativeGap.Some? <==> a.p50Total != 0.0)
      && (a.relativeGap.Some? ==> a.relativeGap.value * a.p50Total == a.gap)
  {
    hide Total, RowsOf, Summarised, SummaryFor, AreSummaries, Members, StrLeq, Align, Summarises;
    var ids := SortedStrings(OrderIds(orders));
    AlignmentsMember(a, ids, facts, orders);
    var id :| id in ids && Yields(a, id, facts, orders);
    SummaryForSound(facts, Summarised(rows, SortedStrings(Ids(rows))), rows, id);
    FirstTotal(SummaryFor(facts, id).value, id, RowsOf(rows, id));
    assert id in OrderIds(orders);
    var o :| o in orders && o.ingredientId == id;
    MembersSound(orders, OrderId, id);
    assert o in Members(orders, OrderId, id);
    AlignHolds(id, SummaryFor(facts, id).value, Members(orders, OrderId, id));
    UnitOfSomeRow(SummaryFor(facts, id).value, id, RowsOf(rows, id));
  }

  /** The unit of a summary is the unit of one of its rows. */
  lemma UnitOfSomeRow(s: Summary, id: string, rows: seq<Demand>)
    requires Summarises(s, id, rows)
    ensures exists r :: r in rows && r.unit == s.unit
  {
    hide Sort, Total, HasPeak, HasExtremes, StrLeq;
    ByDateOrder();
    SortSorted(rows, ByDate);
    assert InOrder(rows)[0] in InOrder(rows);
  }

  const MIXED_ROWS := [
    Demand("i", None, Some("kg"), "2024-01-01", None, Some(1.0), None),
    Demand("i", None, Some("g"), "2024-01-02", None, Some(1.0), None)]

  /**
   A kilogram and a gram of demand against two ordered kilograms: the summary adds them up to 2 and reports the unit
   of the earlier row, so the gap is 0 kg.
   */
  lemma MixedUnitsAligned(facts: seq<Summary>)
    requires AreSummaries(facts, Summarised(MIXED_ROWS, SortedStrings(Ids(MIXED_ROWS))), MIXED_ROWS)
    ensures var a := Alignments(["i"], facts, [Order("i", 2.0, Some("kg"))]);
      && |a| == 1 && a[0].unit == "kg" && a[0].p50Total == 2.0 && a[0].gap == 0.0
      && MIXED_ROWS[1] in RowsOf(MIXED_ROWS, "i") && MIXED_ROWS[1].unit == Some("g")
  {
    hide AreSummaries, Summarised, SortedStrings, StrLeq, Total, Sort;
    OnlyIngredient();
    OneSummary(facts);
    MixedSummary(facts[0]);
    var lines := [Order("i", 2.0, Some("kg"))];
    assert lines[1..] == [] && Members(lines, OrderId, "i") == lines by { OneMember(lines[0], OrderId, "i"); }
    assert Total(lines, Quantity) == 2.0 by { TotalOne(lines[0], Quantity); }
    assert AlignmentOf("i", facts, lines).Some?;
    assert ["i"][1..] == [];
  }

  lemma TotalOne<V>(x: V, w: V -> real)
    ensures Total([x], w) == w(x)
  {
    assert [x][1..] == [];
  }

  lemma OnlyIngredient()
    ensures SortedStrings(Ids(MIXED_ROWS)) == ["i"] && RowsOf(MIXED_ROWS, "i") == MIXED_ROWS && AnyP50(MIXED_ROWS)
  {
    hide SortedStrings, StrLeq;
    assert MIXED_ROWS[0] in MIXED_ROWS && HasP50(MIXED_ROWS[0]);
    assert Ids(MIXED_ROWS) == {"i"};
    StrOrder();
    EnumerationUnique(SortedStrings({"i"}), ["i"], {"i"}, StrLeq);
    assert MIXED_ROWS[1..][1..] == [];
  }

  lemma OneSummary(facts: seq<Summary>)
    requires AreSummaries(facts, Summarised(MIXED_ROWS, ["i"]), MIXED_ROWS)
    requires RowsOf(MIXED_ROWS, "i") == MIXED_ROWS && AnyP50(MIXED_ROWS)
    ensures |facts| == 1 && Summarises(facts[0], "i", MIXED_ROWS)
  {
    hide Summarises, RowsOf, AnyP50;
    SummarisedOne(MIXED_ROWS, [], "i");
    NoIds(MIXED_ROWS);
    assert [] + ["i"] == ["i"];
  }

  lemma MixedSummary(s: Summary)
    requires Summarises(s, "i", MIXED_ROWS)
    ensures s.ingredientId == "i" && s.unit == Some("kg") && s.p50Total == 2.0
  {
    hide HasPeak, HasExtremes, StrLeq;
    assert StrLeq("2024-01-01", "2024-01-02") by { FirstDayFirst(); }
    assert MIXED_ROWS[1..][1..] == [];
    assert InOrder(MIXED_ROWS) == MIXED_ROWS;
  }

  lemma FirstDayFirst()
    ensures StrLeq("2024-01-01", "2024-01-02")
  {
    SharedHead("2024-01-0", "1", "2");
    assert "2024-01-0" + "1" == "2024-01-01" && "2024-01-0" + "2" == "2024-01-02";
  }

  lemma {:induction false} SharedHead(p: string, a: string, b: string)
    ensures StrLeq(p + a, p + b) <==> StrLeq(a, b)
  {
    hide StrLeq;
    if p == "" {
      assert p + a == a && p + b == b;
    } else {
      var x, y := p + a, p + b;
      SharedHead(p[1..], a, b);
      assert x[0] == y[0] == p[0] && x[1..] == p[1..] + a && y[1..] == p[1..] + b;
      SameFirst(x, y);
    }
  }

  lemma {:induction false} SameFirst(x: string, y: string)
    requires x != "" && y != "" && x[0] == y[0]
    ensures StrLeq(x, y) <==> StrLeq(x[1..], y[1..])
  {}

  lemma AlignHolds(id: string, s: Summary, lines: seq<Order>)
    requires s.unit.Some?
    ensures var a := Align(id, s, lines);
      && a.ingredientId == id && a.gap == Total(lines, Quantity) - s.p50Total
      && a.orderTotal - a.gap == a.p50Total == s.p50Total && a.lineCount == |lines| && a.unit == s.unit.value
      && (a.relativeGap.Some? <==> a.p50Total != 0.0)
      && (a.relativeGap.Some? ==> a.relativeGap.value * a.p50Total == a.gap)
  {
    hide Total;
    var gap, p := Total(lines, Quantity) - s.p50Total, s.p50Total;
    if p != 0.0 { Quotient(gap, p); }
  }

  lemma Quotient(x: real, y: real)
    requires y != 0.0
    ensures (x / y) * y == x
  {}
}
