/** What a comparison of forecasts reports, said of the predictions and of floats with infinities and NaN. */
module ComparatorLaws {
  import opened Text
  import opened Ordering
  import opened Comparator
  import Grouping

  // ---------- floats ----------

  predicate Infinite(a: Float) {
    a == PosInf || a == NegInf
  }

  function Size(x: real): real {
    if x >= 0.0 then x else -x
  }

  /** r is |a - b|: infinite across an infinity, NaN from NaN or between equal infinities. */
  predicate IsDistance(r: Float, a: Float, b: Float) {
    if a.Fin? && b.Fin? then r == Fin(Size(a.x - b.x))
    else if a == NaN || b == NaN || a == b then r == NaN
    else r == PosInf
  }

  lemma DistanceIs(a: Float, b: Float)
    ensures IsDistance(Abs(Minus(a, b)), a, b)
  {}

  /** a <= b on the extended line; NaN is not comparable. */
  predicate Below(a: Float, b: Float) {
    && a != NaN && b != NaN
    && (a == NegInf || b == PosInf || (a.Fin? && b.Fin? && a.x <= b.x))
  }

  lemma BelowIff(a: Float, b: Float)
    ensures AtMost(a, b) <==> Below(a, b)
  {}

  /** The drift of `s` relative to `p`: 0 and none from zero, the quotient between finite numbers, NaN from an infinity. */
  predicate IsRelative(r: Option<Float>, p: Float, s: Float) {
    if p == Fin(0.0) then r == (if s == Fin(0.0) then Some(Fin(0.0)) else None)
    else if p.Fin? && s.Fin? then r.Some? && r.value.Fin? && r.value.x * Size(p.x) == Size(s.x - p.x)
    else if p.Fin? && s != NaN then r == Some(PosInf)
    else r == Some(NaN)
  }

  lemma RelativeIs(p: Float, s: Float)
    ensures IsRelative(RelativeDifference(p, s), p, s)
  {
    if p.Fin? && s.Fin? && p.x != 0.0 {
      var d := Size(s.x - p.x);
      assert d / Size(p.x) * Size(p.x) == d;
    }
  }

  // ---------- predictions ----------

  /** The prediction at `i` is the last one with the key. */
  ghost predicate LastAt(predictions: seq<Prediction>, k: Key, i: nat) {
    i < |predictions| && predictions[i].key == k && forall j | i < j < |predictions| :: predictions[j].key != k
  }

  lemma {:induction false} LastIs(predictions: seq<Prediction>, k: Key)
    requires k in KeySet(predictions)
    ensures exists i: nat :: LastAt(predictions, k, i) && Last(predictions, k) == predictions[i]
  {
    var n := |predictions| - 1;
    if predictions[n].key == k {
      assert LastAt(predictions, k, n);
    } else {
      assert predictions == predictions[..n] + [predictions[n]];
      LastIs(predictions[..n], k);
      var i: nat :| LastAt(predictions[..n], k, i) && Last(predictions[..n], k) == predictions[..n][i];
      assert forall j | 0 <= j < n :: predictions[..n][j] == predictions[j];
      assert LastAt(predictions, k, i);
    }
  }

  predicate InOrder(p: Prediction) {
    Below(p.p25, p.p50) && Below(p.p50, p.p75)
  }

  predicate AllFinite(p: Prediction) {
    !Unbounded(p.p25) && !Unbounded(p.p50) && !Unbounded(p.p75)
    && !Unbounded(p.intervalLower) && !Unbounded(p.intervalUpper) && !Unbounded(p.baselineP50)
  }

  predicate Unbounded(a: Float) {
    a == NaN || Infinite(a)
  }

  lemma PredictionIff(p: Prediction)
    ensures QuantilesOrdered(p) <==> InOrder(p)
    ensures IsFinite(p) <==> AllFinite(p)
  {
    BelowIff(p.p25, p.p50);
    BelowIff(p.p50, p.p75);
  }

  const FIELDS := ["p25", "p50", "p75", "interval_lower", "interval_upper", "baseline_p50"]

  function Number(p: Prediction, field: string): Float {
    if field == "p25" then p.p25 else if field == "p50" then p.p50 else if field == "p75" then p.p75
    else if field == "interval_lower" then p.intervalLower else if field == "interval_upper" then p.intervalUpper
    else p.baselineP50
  }

  function Part(name: string, a: Float): seq<string> {
    if Unbounded(a) then [name] else []
  }

  lemma FilterCons(name: string, rest: seq<string>, has: string -> bool)
    ensures Filter([name] + rest, has) == (if has(name) then [name] else []) + Filter(rest, has)
  {
    assert ([name] + rest)[1..] == rest;
  }

  lemma Flat(a: seq<string>, b: seq<string>, c: seq<string>, d: seq<string>, e: seq<string>, f: seq<string>)
    ensures a + b + c + d + e + f == a + (b + (c + (d + (e + (f + [])))))
  {}

  lemma FieldsParted(p: Prediction)
    ensures NonFiniteFields(p) == Part("p25", p.p25) + Part("p50", p.p50) + Part("p75", p.p75)
      + Part("interval_lower", p.intervalLower) + Part("interval_upper", p.intervalUpper) + Part("baseline_p50", p.baselineP50)
  {
    PartIs("p25", p.p25); PartIs("p50", p.p50); PartIs("p75", p.p75);
    PartIs("interval_lower", p.intervalLower); PartIs("interval_upper", p.intervalUpper); PartIs("baseline_p50", p.baselineP50);
    hide Part;
  }

  lemma PartIs(name: string, a: Float)
    ensures Part(name, a) == if a.Fin? then [] else [name]
  {}

  lemma Numbers(p: Prediction)
    ensures Number(p, "p25") == p.p25 && Number(p, "p50") == p.p50 && Number(p, "p75") == p.p75
    ensures Number(p, "interval_lower") == p.intervalLower && Number(p, "interval_upper") == p.intervalUpper
    ensures Number(p, "baseline_p50") == p.baselineP50
  {
    assert "p25"[1] == '2' && "p50"[1] == '5' && "p75"[1] == '7';
    assert |"interval_lower"| == 14 && "interval_lower"[9] == 'l' && "interval_upper"[9] == 'u' && |"baseline_p50"| == 12;
  }

  /** The reported fields are the names of the numbers that are not finite, in the order of the record. */
  lemma FieldsAre(p: Prediction)
    ensures NonFiniteFields(p) == Filter(FIELDS, (field: string) => Unbounded(Number(p, field)))
  {
    hide Filter, Number, NonFiniteFields, Unbounded;
    var has := (field: string) => Unbounded(Number(p, field));
    Numbers(p);
    FieldsParted(p);
    FilterCons("baseline_p50", [], has);
    FilterCons("interval_upper", ["baseline_p50"], has);
    FilterCons("interval_lower", ["interval_upper", "baseline_p50"], has);
    FilterCons("p75", ["interval_lower", "interval_upper", "baseline_p50"], has);
    FilterCons("p50", ["p75", "interval_lower", "interval_upper", "baseline_p50"], has);
    FilterCons("p25", ["p50", "p75", "interval_lower", "interval_upper", "baseline_p50"], has);
    NoneFiltered(has);
    Spelled();
    Flat(Part("p25", p.p25), Part("p50", p.p50), Part("p75", p.p75), Part("interval_lower", p.intervalLower),
         Part("interval_upper", p.intervalUpper), Part("baseline_p50", p.baselineP50));
  }

  lemma NoneFiltered(has: string -> bool)
    ensures Filter([], has) == []
  {}

  lemma Spelled()
    ensures ["baseline_p50"] + [] == ["baseline_p50"]
    ensures ["interval_upper"] + ["baseline_p50"] == ["interval_upper", "baseline_p50"]
    ensures ["interval_lower"] + ["interval_upper", "baseline_p50"] == ["interval_lower", "interval_upper", "baseline_p50"]
    ensures ["p75"] + ["interval_lower", "interval_upper", "baseline_p50"] == ["p75", "interval_lower", "interval_upper", "baseline_p50"]
    ensures ["p50"] + ["p75", "interval_lower", "interval_upper", "baseline_p50"]
         == ["p50", "p75", "interval_lower", "interval_upper", "baseline_p50"]
    ensures ["p25"] + ["p50", "p75", "interval_lower", "interval_upper", "baseline_p50"] == FIELDS
  {}

  // ---------- the report ----------

  /** Products by name, then dates, then horizons. */
  predicate Before(a: Key, b: Key) {
    || (a.productId != b.productId && StrLeq(a.productId, b.productId))
    || (a.productId == b.productId && (a.targetDate < b.targetDate || (a.targetDate == b.targetDate && a.horizon <= b.horizon)))
  }

  /** The drifts between the last prediction of production and the last of the shadow under a key. */
  ghost predicate Measures(d: Difference, p: Prediction, q: Prediction) {
    && IsDistance(d.abs25, q.p25, p.p25) && IsDistance(d.abs50, q.p50, p.p50) && IsDistance(d.abs75, q.p75, p.p75)
    && IsRelative(d.relative25, p.p25, q.p25) && IsRelative(d.relative50, p.p50, q.p50) && IsRelative(d.relative75, p.p75, q.p75)
  }

  ghost predicate Compares(d: Difference, production: seq<Prediction>, shadow: seq<Prediction>) {
    exists i: nat, j: nat ::
      LastAt(production, d.key, i) && LastAt(shadow, d.key, j) && Measures(d, production[i], shadow[j])
  }

  lemma DifferenceIs(p: Prediction, q: Prediction)
    ensures Measures(DifferenceOf(p, q), p, q)
  {
    hide IsDistance, IsRelative, RelativeDifference, Minus, Abs;
    DistanceIs(q.p25, p.p25); DistanceIs(q.p50, p.p50); DistanceIs(q.p75, p.p75);
    RelativeIs(p.p25, q.p25); RelativeIs(p.p50, q.p50); RelativeIs(p.p75, q.p75);
  }

  /** Every difference compares the last predictions under its key. */
  lemma DifferencesCompare(production: seq<Prediction>, shadow: seq<Prediction>)
    ensures var ds := Compared(production, shadow).differences; forall i | 0 <= i < |ds| :: Compares(ds[i], production, shadow)
  {
    hide KeySet, DifferenceOf, Last, Measures, Common, Mean, Violations, NonFinites, Duplicates, SortedKeys;
    var keys := Common(production, shadow);
    var ds := Differences(keys, production, shadow);
    forall i | 0 <= i < |ds|
      ensures Compares(ds[i], production, shadow)
    {
      var k := keys[i];
      DifferencesAt(keys, production, shadow, i);
      LastIs(production, k);
      LastIs(shadow, k);
      var a: nat :| LastAt(production, k, a) && Last(production, k) == production[a];
      var b: nat :| LastAt(shadow, k, b) && Last(shadow, k) == shadow[b];
      DifferenceIs(production[a], shadow[b]);
      DifferenceKey(production[a], shadow[b]);
      assert LastAt(production, ds[i].key, a) && LastAt(shadow, ds[i].key, b) && Measures(ds[i], production[a], shadow[b]);
    }
  }

  lemma DifferenceKey(p: Prediction, q: Prediction)
    ensures DifferenceOf(p, q).key == p.key
  {}

  /** A listed violation is a prediction out of order, with its provider and numbers; every such prediction is listed. */
  ghost predicate ListsDisorder(vs: seq<Violation>, provider: string, predictions: seq<Prediction>) {
    && (forall v | v in vs :: v.provider == provider && exists p :: p in predictions && !InOrder(p) && Shows(v, p))
    && (forall p | p in predictions && !InOrder(p) :: exists v :: v in vs && Shows(v, p))
    && (forall i, j | 0 <= i < j < |vs| :: Before(vs[i].key, vs[j].key))
  }

  ghost predicate Shows(v: Violation, p: Prediction) {
    v.key == p.key && v.p25 == p.p25 && v.p50 == p.p50 && v.p75 == p.p75
  }

  ghost predicate ListsUnbounded(ns: seq<NonFinite>, provider: string, predictions: seq<Prediction>) {
    && (forall n | n in ns :: n.provider == provider && exists p :: p in predictions && !AllFinite(p) && Marked(n, p))
    && (forall p | p in predictions && !AllFinite(p) :: exists n :: n in ns && Marked(n, p))
    && (forall i, j | 0 <= i < j < |ns| :: Before(ns[i].key, ns[j].key))
  }

  ghost predicate Marked(n: NonFinite, p: Prediction) {
    n.key == p.key && n.fields == Filter(FIELDS, (field: string) => Unbounded(Number(p, field)))
  }

  lemma BeforeIff(a: Key, b: Key)
    ensures KeyLeq(a, b) <==> Before(a, b)
  {
    hide StrLeq;
  }

  lemma {:induction false} FilterSorted(s: seq<Prediction>, bad: Prediction -> bool)
    requires SortedBy(s, ByKey)
    ensures SortedBy(Filter(s, bad), ByKey)
  {
    hide ByKey;
    if s != [] {
      FilterSorted(s[1..], bad);
      FilterMember(s[1..], bad);
      var rest := Filter(s[1..], bad);
      assert forall x | x in s[1..] :: ByKey(s[0], x);
      assert forall j | 0 <= j < |rest| :: rest[j] in s[1..];
    }
  }

  lemma BadOnes(predictions: seq<Prediction>, bad: Prediction -> bool)
    ensures var kept := Filter(Sort(predictions, ByKey), bad);
      && (forall p :: p in kept <==> p in predictions && bad(p))
      && forall i, j | 0 <= i < j < |kept| :: Before(kept[i].key, kept[j].key)
  {
    hide Filter, Sort, KeyLeq, Before;
    KeyOrder();
    SortSorted(predictions, ByKey);
    FilterMember(Sort(predictions, ByKey), bad);
    FilterSorted(Sort(predictions, ByKey), bad);
    forall a, b
      ensures KeyLeq(a, b) <==> Before(a, b)
    {
      BeforeIff(a, b);
    }
    var kept := Filter(Sort(predictions, ByKey), bad);
    forall i, j | 0 <= i < j < |kept|
      ensures Before(kept[i].key, kept[j].key)
    {
      assert ByKey(kept[i], kept[j]);
    }
  }

  lemma ViolationsList(provider: string, predictions: seq<Prediction>)
    ensures ListsDisorder(Violations(provider, predictions), provider, predictions)
  {
    hide Filter, Sort, InOrder, QuantilesOrdered, Before;
    var bad, vs := Filter(Sort(predictions, ByKey), Disordered), Violations(provider, predictions);
    BadOnes(predictions, Disordered);
    forall p
      ensures QuantilesOrdered(p) <==> InOrder(p)
    {
      PredictionIff(p);
    }
    forall v | v in vs
      ensures v.provider == provider && exists p :: p in predictions && !InOrder(p) && Shows(v, p)
    {
      var i :| 0 <= i < |vs| && vs[i] == v;
      assert bad[i] in bad && Shows(v, bad[i]);
    }
    forall p | p in predictions && !InOrder(p)
      ensures exists v :: v in vs && Shows(v, p)
    {
      assert p in bad;
      var i :| 0 <= i < |bad| && bad[i] == p;
      assert vs[i] in vs && Shows(vs[i], p);
    }
  }

  lemma NonFinitesList(provider: string, predictions: seq<Prediction>)
    ensures ListsUnbounded(NonFinites(provider, predictions), provider, predictions)
  {
    hide Filter, Sort, AllFinite, IsFinite, Before, NonFiniteFields, Number;
    var bad, ns := Filter(Sort(predictions, ByKey), HasNonFinite), NonFinites(provider, predictions);
    BadOnes(predictions, HasNonFinite);
    forall p
      ensures IsFinite(p) <==> AllFinite(p)
      ensures NonFiniteFields(p) == Filter(FIELDS, (field: string) => Unbounded(Number(p, field)))
    {
      PredictionIff(p);
      FieldsAre(p);
    }
    forall n | n in ns
      ensures n.provider == provider && exists p :: p in predictions && !AllFinite(p) && Marked(n, p)
    {
      var i :| 0 <= i < |ns| && ns[i] == n;
      assert bad[i] in bad && Marked(n, bad[i]);
    }
    forall p | p in predictions && !AllFinite(p)
      ensures exists n :: n in ns && Marked(n, p)
    {
      assert p in bad;
      var i :| 0 <= i < |bad| && bad[i] == p;
      assert ns[i] in ns && Marked(ns[i], p);
    }
  }

  ghost predicate Predicts(predictions: seq<Prediction>, k: Key, i: nat) {
    i < |predictions| && predictions[i].key == k
  }

  ghost predicate Has(predictions: seq<Prediction>, k: Key) {
    exists i: nat :: Predicts(predictions, k, i)
  }

  ghost predicate Repeats(predictions: seq<Prediction>, k: Key) {
    exists i: nat, j: nat :: i < j && Predicts(predictions, k, i) && Predicts(predictions, k, j)
  }

  /** The keys with the property, each once, in order. */
  ghost predicate ListsKeys(keys: seq<Key>, has: Key -> bool) {
    && (forall k :: k in keys <==> has(k))
    && forall i, j | 0 <= i < j < |keys| :: keys[i] != keys[j] && Before(keys[i], keys[j])
  }

  lemma KeysListed(s: set<Key>, has: Key -> bool)
    requires forall k :: k in s <==> has(k)
    ensures ListsKeys(SortedKeys(s), has)
  {
    hide SortedKeys, Before, KeyLeq;
    var keys := SortedKeys(s);
    forall i, j | 0 <= i < j < |keys|
      ensures Before(keys[i], keys[j])
    {
      BeforeIff(keys[i], keys[j]);
    }
  }

  lemma KeySetIff(predictions: seq<Prediction>, k: Key)
    ensures k in KeySet(predictions) <==> Has(predictions, k)
  {
    if k in KeySet(predictions) {
      var p :| p in predictions && p.key == k;
      var i: nat :| i < |predictions| && predictions[i] == p;
      assert Predicts(predictions, k, i);
    }
    if Has(predictions, k) {
      var i: nat :| Predicts(predictions, k, i);
      assert predictions[i] in predictions;
    }
  }

  lemma RepeatedIff(predictions: seq<Prediction>, k: Key)
    ensures k in RepeatedKeys(predictions) <==> Repeats(predictions, k)
  {
    hide Grouping.Members;
    if k in RepeatedKeys(predictions) && !Repeats(predictions, k) {
      MembersOnceAt(predictions, k);
    }
    if i: nat, j: nat :| i < j && Predicts(predictions, k, i) && Predicts(predictions, k, j) {
      Grouping.MembersTwice(predictions, KeyOf, i, j);
      assert predictions[i] in predictions;
    }
  }

  lemma {:induction false} MembersOnceAt(predictions: seq<Prediction>, k: Key)
    requires !Repeats(predictions, k)
    ensures |Grouping.Members(predictions, KeyOf, k)| <= 1
  {
    if predictions != [] {
      var rest := predictions[1..];
      assert forall i | 0 <= i < |rest| :: rest[i] == predictions[i + 1];
      if Repeats(rest, k) {
        var i: nat, j: nat :| i < j && Predicts(rest, k, i) && Predicts(rest, k, j);
        assert Predicts(predictions, k, i + 1) && Predicts(predictions, k, j + 1);
      }
      MembersOnceAt(rest, k);
      if predictions[0].key == k {
        Grouping.MembersSound(rest, KeyOf, k);
        HeadIn(Grouping.Members(rest, KeyOf, k));
        if Grouping.Members(rest, KeyOf, k) != [] {
          var i: nat :| i < |rest| && rest[i] == Grouping.Members(rest, KeyOf, k)[0];
          assert Predicts(predictions, k, 0) && Predicts(predictions, k, i + 1);
        }
      }
    }
  }

  /** The whole report but its drifts, see `DifferencesCompare`, and means, see `MeanIs`. */
  lemma ReportIs(production: seq<Prediction>, shadow: seq<Prediction>)
    ensures var r := Compared(production, shadow);
      && ListsKeys(r.missing, (k: Key) => Has(production, k) && !Has(shadow, k))
      && ListsKeys(r.extra, (k: Key) => Has(shadow, k) && !Has(production, k))
      && ListsKeys(r.productionDuplicates, (k: Key) => Repeats(production, k))
      && ListsKeys(r.shadowDuplicates, (k: Key) => Repeats(shadow, k))
      && ListsDisorder(r.productionViolations, "existing", production)
      && ListsDisorder(r.shadowViolations, "shelfcash_forecast", shadow)
      && ListsUnbounded(r.productionNonFinite, "existing", production)
      && ListsUnbounded(r.shadowNonFinite, "shelfcash_forecast", shadow)
  {
    hide KeySet, Violations, NonFinites, ListsKeys, SortedKeys, ListsDisorder, ListsUnbounded, Has, Repeats, RepeatedKeys, Mean;
    hide Differences, Common;
    forall k
      ensures k in KeySet(production) <==> Has(production, k)
      ensures k in KeySet(shadow) <==> Has(shadow, k)
      ensures k in RepeatedKeys(production) <==> Repeats(production, k)
      ensures k in RepeatedKeys(shadow) <==> Repeats(shadow, k)
    {
      KeySetIff(production, k);
      KeySetIff(shadow, k);
      RepeatedIff(production, k);
      RepeatedIff(shadow, k);
    }
    KeysListed(KeySet(production) - KeySet(shadow), (k: Key) => Has(production, k) && !Has(shadow, k));
    KeysListed(KeySet(shadow) - KeySet(production), (k: Key) => Has(shadow, k) && !Has(production, k));
    KeysListed(RepeatedKeys(production), (k: Key) => Repeats(production, k));
    KeysListed(RepeatedKeys(shadow), (k: Key) => Repeats(shadow, k));
    ViolationsList("existing", production);
    ViolationsList("shelfcash_forecast", shadow);
    NonFinitesList("existing", production);
    NonFinitesList("shelfcash_forecast", shadow);
  }

  /** Compatible: nothing missing, nothing extra, no repeated key, all numbers finite and in order, on both sides. */
  lemma CompatibleMeans(production: seq<Prediction>, shadow: seq<Prediction>)
    ensures Compared(production, shadow).compatible <==>
      && (forall k :: Has(production, k) <==> Has(shadow, k))
      && (forall k :: !Repeats(production, k)) && (forall k :: !Repeats(shadow, k))
      && (forall p | p in production + shadow :: AllFinite(p) && InOrder(p))
  {
    hide KeySet, Has, Repeats, Compared, AllFinite, InOrder, IsFinite, QuantilesOrdered, DuplicateFree;
    CompatibleIff(production, shadow);
    forall k
      ensures k in KeySet(production) <==> Has(production, k)
      ensures k in KeySet(shadow) <==> Has(shadow, k)
    {
      KeySetIff(production, k);
      KeySetIff(shadow, k);
    }
    forall p
      ensures QuantilesOrdered(p) <==> InOrder(p)
      ensures IsFinite(p) <==> AllFinite(p)
    {
      PredictionIff(p);
    }
    DuplicateFreeIff(production);
    DuplicateFreeIff(shadow);
    assert (forall k :: Has(production, k) <==> Has(shadow, k)) <==> KeySet(production) == KeySet(shadow);
  }

  lemma DuplicateFreeIff(predictions: seq<Prediction>)
    ensures DuplicateFree(predictions) <==> forall k :: !Repeats(predictions, k)
  {
    if i, j :| 0 <= i < j < |predictions| && predictions[i].key == predictions[j].key {
      assert Predicts(predictions, predictions[i].key, i) && Predicts(predictions, predictions[i].key, j);
      assert Repeats(predictions, predictions[i].key);
    }
  }

  // ---------- means ----------

  function Finite(d: Difference, f: Difference -> Float): real {
    match f(d) case Fin(x) => x case _ => 0.0
  }

  function FiniteSum(ds: seq<Difference>, f: Difference -> Float): real {
    if ds == [] then 0.0 else Finite(ds[0], f) + FiniteSum(ds[1..], f)
  }

  lemma {:induction false} SumIs(ds: seq<Difference>, f: Difference -> Float)
    requires forall d | d in ds :: f(d).Fin?
    ensures Sum(ds, f) == Fin(FiniteSum(ds, f))
  {
    if ds != [] {
      assert ds[0] in ds && forall d | d in ds[1..] :: d in ds;
      SumIs(ds[1..], f);
    }
  }

  lemma {:induction false} SumWithInfinity(ds: seq<Difference>, f: Difference -> Float)
    requires forall d | d in ds :: f(d) != NegInf
    ensures Sum(ds, f) == NaN <==> exists d :: d in ds && f(d) == NaN
    ensures Sum(ds, f) == PosInf <==> (exists d :: d in ds && f(d) == PosInf) && forall d | d in ds :: f(d) != NaN
    ensures Sum(ds, f) != NegInf
  {
    if ds != [] {
      assert forall d :: d in ds <==> d == ds[0] || d in ds[1..];
      SumWithInfinity(ds[1..], f);
    }
  }

  /** The mean of drifts: their sum over their number when all are finite, infinite with an infinite one, NaN with a NaN. */
  lemma MeanIs(ds: seq<Difference>, f: Difference -> Float)
    requires forall d | d in ds :: f(d) != NegInf
    ensures Mean(ds, f) == None <==> ds == []
    ensures ds != [] && (forall d | d in ds :: f(d).Fin?) ==> Mean(ds, f) == Some(Fin(FiniteSum(ds, f) / |ds| as real))
    ensures (exists d :: d in ds && f(d) == NaN) ==> Mean(ds, f) == Some(NaN)
    ensures (exists d :: d in ds && f(d) == PosInf) && (forall d | d in ds :: f(d) != NaN) ==> Mean(ds, f) == Some(PosInf)
  {
    SumWithInfinity(ds, f);
    if forall d | d in ds :: f(d).Fin? { SumIs(ds, f); }
  }
}
