/**
 Comparison of two forecasts: app/forecasting/comparator.py.

 A float is a finite real, an infinity or NaN; rounding is not modelled. A date is its day number.
 */
module Comparator {
  import opened Text
  import opened Ordering
  import opened Grouping

  // ---------- floats ----------

  datatype Float = Fin(x: real) | PosInf | NegInf | NaN

  function Minus(a: Float, b: Float): Float {
    match (a, b)
    case (Fin(x), Fin(y)) => Fin(x - y)
    case (NaN, _) => NaN
    case (_, NaN) => NaN
    case (Fin(_), PosInf) => NegInf
    case (Fin(_), NegInf) => PosInf
    case (PosInf, PosInf) => NaN
    case (NegInf, NegInf) => NaN
    case (PosInf, _) => PosInf
    case (NegInf, _) => NegInf
  }

  function Abs(a: Float): Float {
    match a
    case Fin(x) => Fin(if x < 0.0 then -x else x)
    case NaN => NaN
    case _ => PosInf
  }

  /** a + b for the absolute values that are summed here */
  function Plus(a: Float, b: Float): Float {
    match (a, b)
    case (Fin(x), Fin(y)) => Fin(x + y)
    case (NaN, _) => NaN
    case (_, NaN) => NaN
    case (PosInf, NegInf) => NaN
    case (NegInf, PosInf) => NaN
    case (Fin(_), _) => b
    case _ => a
  }

  /** a / b for absolute values, with b not zero */
  function Ratio(a: Float, b: Float): Float
    requires b != Fin(0.0)
  {
    match (a, b)
    case (Fin(x), Fin(y)) => Fin(x / y)
    case (NaN, _) => NaN
    case (_, NaN) => NaN
    case (Fin(_), _) => Fin(0.0)
    case (_, Fin(_)) => a
    case _ => NaN
  }

  /** a <= b, false when either is NaN */
  predicate AtMost(a: Float, b: Float) {
    match (a, b)
    case (Fin(x), Fin(y)) => x <= y
    case (NaN, _) => false
    case (_, NaN) => false
    case (NegInf, _) => true
    case (_, PosInf) => true
    case _ => false
  }

  // ---------- predictions ----------

  datatype Key = Key(productId: string, targetDate: int, horizon: int)

  datatype Prediction = Prediction(
    key: Key, p25: Float, p50: Float, p75: Float, intervalLower: Float, intervalUpper: Float, baselineP50: Float)

  datatype Difference = Difference(
    key: Key, abs25: Float, abs50: Float, abs75: Float, relative25: Option<Float>, relative50: Option<Float>,
    relative75: Option<Float>)

  datatype Violation = Violation(provider: string, key: Key, p25: Float, p50: Float, p75: Float)

  datatype NonFinite = NonFinite(provider: string, key: Key, fields: seq<string>)

  datatype Report = Report(
    compatible: bool, missing: seq<Key>, extra: seq<Key>,
    productionViolations: seq<Violation>, shadowViolations: seq<Violation>,
    productionDuplicates: seq<Key>, shadowDuplicates: seq<Key>,
    productionNonFinite: seq<NonFinite>, shadowNonFinite: seq<NonFinite>,
    differences: seq<Difference>, mean25: Option<Float>, mean50: Option<Float>, mean75: Option<Float>)

  function KeyOf(p: Prediction): Key {
    p.key
  }

  predicate KeyLeq(a: Key, b: Key) {
    if a.productId != b.productId then StrLeq(a.productId, b.productId)
    else a.targetDate < b.targetDate || (a.targetDate == b.targetDate && a.horizon <= b.horizon)
  }

  predicate ByKey(a: Prediction, b: Prediction) {
    KeyLeq(a.key, b.key)
  }

  lemma KeyOrder()
    ensures TotalOrder(KeyLeq) && TotalPreorder(ByKey)
  {
    hide StrLeq;
    StrOrder();
  }

  /** sorted(set of keys) */
  function SortedKeys(s: set<Key>): (r: seq<Key>)
    ensures Enumerates(r, s, KeyLeq)
  {
    KeyOrder();
    SortedSet(s, KeyLeq)
  }

  function KeySet(predictions: seq<Prediction>): set<Key> {
    set p | p in predictions :: p.key
  }

  /** {_key(item): item for item in predictions}[key]: the last one wins */
  function Last(predictions: seq<Prediction>, key: Key): (p: Prediction)
    requires key in KeySet(predictions)
    ensures p in predictions && p.key == key
  {
    var n := |predictions| - 1;
    if predictions[n].key == key then predictions[n]
    else
      assert predictions == predictions[..n] + [predictions[n]];
      Last(predictions[..n], key)
  }

  /** _relative_difference */
  function RelativeDifference(production: Float, shadow: Float): Option<Float> {
    if production == Fin(0.0) then (if shadow == Fin(0.0) then Some(Fin(0.0)) else None)
    else Some(Ratio(Abs(Minus(shadow, production)), Abs(production)))
  }

  function DifferenceOf(left: Prediction, right: Prediction): Difference {
    Difference(left.key,
      Abs(Minus(right.p25, left.p25)), Abs(Minus(right.p50, left.p50)), Abs(Minus(right.p75, left.p75)),
      RelativeDifference(left.p25, right.p25), RelativeDifference(left.p50, right.p50),
      RelativeDifference(left.p75, right.p75))
  }

  predicate QuantilesOrdered(p: Prediction) {
    AtMost(p.p25, p.p50) && AtMost(p.p50, p.p75)
  }

  predicate Disordered(p: Prediction) {
    !QuantilesOrdered(p)
  }

  predicate IsFinite(p: Prediction) {
    p.p25.Fin? && p.p50.Fin? && p.p75.Fin? && p.intervalLower.Fin? && p.intervalUpper.Fin? && p.baselineP50.Fin?
  }

  predicate HasNonFinite(p: Prediction) {
    !IsFinite(p)
  }

  function NonFiniteFields(p: Prediction): seq<string> {
    (if p.p25.Fin? then [] else ["p25"]) + (if p.p50.Fin? then [] else ["p50"]) + (if p.p75.Fin? then [] else ["p75"])
    + (if p.intervalLower.Fin? then [] else ["interval_lower"]) + (if p.intervalUpper.Fin? then [] else ["interval_upper"])
    + (if p.baselineP50.Fin? then [] else ["baseline_p50"])
  }

  /** _violations */
  function Violations(provider: string, predictions: seq<Prediction>): (r: seq<Violation>) {
    var bad := Filter(Sort(predictions, ByKey), Disordered);
    seq(|bad|, i requires 0 <= i < |bad| => Violation(provider, bad[i].key, bad[i].p25, bad[i].p50, bad[i].p75))
  }

  /** _non_finite */
  function NonFinites(provider: string, predictions: seq<Prediction>): seq<NonFinite> {
    var bad := Filter(Sort(predictions, ByKey), HasNonFinite);
    seq(|bad|, i requires 0 <= i < |bad| => NonFinite(provider, bad[i].key, NonFiniteFields(bad[i])))
  }

  function RepeatedKeys(predictions: seq<Prediction>): set<Key> {
    set p | p in predictions && |Members(predictions, KeyOf, p.key)| > 1 :: p.key
  }

  /** _duplicates */
  function Duplicates(predictions: seq<Prediction>): seq<Key> {
    SortedKeys(RepeatedKeys(predictions))
  }

  // ---------- the report ----------

  function Differences(keys: seq<Key>, production: seq<Prediction>, shadow: seq<Prediction>): (r: seq<Difference>)
    requires forall k | k in keys :: k in KeySet(production) && k in KeySet(shadow)
    ensures |r| == |keys|
  {
    if keys == [] then []
    else
      assert keys[0] in keys && forall k | k in keys[1..] :: k in keys;
      [DifferenceOf(Last(production, keys[0]), Last(shadow, keys[0]))] + Differences(keys[1..], production, shadow)
  }

  function Common(production: seq<Prediction>, shadow: seq<Prediction>): (r: seq<Key>)
    ensures forall k :: k in r <==> k in KeySet(production) && k in KeySet(shadow)
    ensures Distinct(r) && SortedBy(r, KeyLeq)
  {
    hide StrLeq;
    SortedKeys(KeySet(production) * KeySet(shadow))
  }

  function Abs25(d: Difference): Float { d.abs25 }

  function Abs50(d: Difference): Float { d.abs50 }

  function Abs75(d: Difference): Float { d.abs75 }

  function Sum(ds: seq<Difference>, f: Difference -> Float): Float {
    if ds == [] then Fin(0.0) else Plus(f(ds[0]), Sum(ds[1..], f))
  }

  /** fmean(...) if differences else None */
  function Mean(ds: seq<Difference>, f: Difference -> Float): Option<Float> {
    if ds == [] then None
    else Some(match Sum(ds, f)
              case Fin(x) => Fin(x / |ds| as real)
              case other => other)
  }

  function Compared(production: seq<Prediction>, shadow: seq<Prediction>): Report {
    var missing := SortedKeys(KeySet(production) - KeySet(shadow));
    var extra := SortedKeys(KeySet(shadow) - KeySet(production));
    var ds := Differences(Common(production, shadow), production, shadow);
    var pv, sv := Violations("existing", production), Violations("shelfcash_forecast", shadow);
    var pd, sd := Duplicates(production), Duplicates(shadow);
    var pn, sn := NonFinites("existing", production), NonFinites("shelfcash_forecast", shadow);
    Report(missing == [] && extra == [] && pv == [] && sv == [] && pd == [] && sd == [] && pn == [] && sn == [],
           missing, extra, pv, sv, pd, sd, pn, sn, ds, Mean(ds, Abs25), Mean(ds, Abs50), Mean(ds, Abs75))
  }

  /** compare_forecasts */
  method CompareForecasts(production: seq<Prediction>, shadow: seq<Prediction>) returns (report: Report)
    ensures report == Compared(production, shadow)
  {
    hide Violations, NonFinites, Duplicates, SortedKeys, KeyLeq, KeySet, Mean, DifferenceOf, Last;
    var missing := SortedKeys(KeySet(production) - KeySet(shadow));
    var extra := SortedKeys(KeySet(shadow) - KeySet(production));
    var keys := Common(production, shadow);
    var differences := [];
    for i := 0 to |keys|
      invariant forall k | k in keys[i..] :: k in keys
      invariant differences + Differences(keys[i..], production, shadow) == Differences(keys, production, shadow)
    {
      assert keys[i..][0] == keys[i] && keys[i..][1..] == keys[i + 1..];
      var left, right := Last(production, keys[i]), Last(shadow, keys[i]);
      differences := differences + [DifferenceOf(left, right)];
    }
    assert keys[|keys|..] == [];
    assert differences == Differences(Common(production, shadow), production, shadow);
    var productionViolations := Violations("existing", production);
    var shadowViolations := Violations("shelfcash_forecast", shadow);
    var productionDuplicates := Duplicates(production);
    var shadowDuplicates := Duplicates(shadow);
    var productionNonFinite := NonFinites("existing", production);
    var shadowNonFinite := NonFinites("shelfcash_forecast", shadow);
    report := Report(
      && missing == [] && extra == [] && productionViolations == [] && shadowViolations == []
      && productionDuplicates == [] && shadowDuplicates == [] && productionNonFinite == [] && shadowNonFinite == [],
      missing, extra, productionViolations, shadowViolations, productionDuplicates, shadowDuplicates,
      productionNonFinite, shadowNonFinite, differences,
      Mean(differences, Abs25), Mean(differences, Abs50), Mean(differences, Abs75));
  }

  // ---------- compatibility ----------

  ghost predicate DuplicateFree(predictions: seq<Prediction>) {
    forall i, j | 0 <= i < j < |predictions| :: predictions[i].key != predictions[j].key
  }

  ghost predicate Clean(predictions: seq<Prediction>) {
    DuplicateFree(predictions) && forall p | p in predictions :: IsFinite(p) && QuantilesOrdered(p)
  }

  lemma NoDuplicatesIff(predictions: seq<Prediction>)
    ensures Duplicates(predictions) == [] <==> DuplicateFree(predictions)
  {
    hide Members, KeyLeq;
    HeadIn(Duplicates(predictions));
    if i, j :| 0 <= i < j < |predictions| && predictions[i].key == predictions[j].key {
      MembersTwice(predictions, KeyOf, i, j);
      assert predictions[i] in predictions;
      assert predictions[i].key in RepeatedKeys(predictions);
    } else {
      forall k
        ensures |Members(predictions, KeyOf, k)| <= 1
      {
        MembersOnce(predictions, KeyOf, k);
      }
      assert RepeatedKeys(predictions) == {};
    }
  }

  lemma NoneKeptIff(predictions: seq<Prediction>, bad: Prediction -> bool)
    ensures Filter(Sort(predictions, ByKey), bad) == [] <==> forall p | p in predictions :: !bad(p)
  {
    hide Filter, Sort, KeyLeq;
    KeyOrder();
    SortSorted(predictions, ByKey);
    FilterMember(Sort(predictions, ByKey), bad);
    HeadIn(Filter(Sort(predictions, ByKey), bad));
  }

  lemma NoViolationsIff(provider: string, predictions: seq<Prediction>)
    ensures Violations(provider, predictions) == [] <==> forall p | p in predictions :: QuantilesOrdered(p)
    ensures NonFinites(provider, predictions) == [] <==> forall p | p in predictions :: IsFinite(p)
  {
    hide Filter, Sort, QuantilesOrdered, IsFinite;
    NoneKeptIff(predictions, Disordered);
    NoneKeptIff(predictions, HasNonFinite);
  }

  lemma NoKeysIff(s: set<Key>)
    ensures SortedKeys(s) == [] <==> s == {}
  {
    hide SortedKeys, KeyLeq;
    HeadIn(SortedKeys(s));
  }

  /**
   Compatible means: no side repeats a key, all numbers are finite, all quantiles are ordered and the key sets
   are equal. Numeric drift plays no part.
   */
  lemma CompatibleIff(production: seq<Prediction>, shadow: seq<Prediction>)
    ensures Compared(production, shadow).compatible <==>
      Clean(production) && Clean(shadow) && KeySet(production) == KeySet(shadow)
  {
    hide Duplicates, Violations, NonFinites, DuplicateFree, IsFinite, QuantilesOrdered, KeySet, SortedKeys, Mean;
    hide Differences;
    NoKeysIff(KeySet(production) - KeySet(shadow));
    NoKeysIff(KeySet(shadow) - KeySet(production));
    NoDuplicatesIff(production);
    NoDuplicatesIff(shadow);
    NoViolationsIff("existing", production);
    NoViolationsIff("shelfcash_forecast", shadow);
  }

  lemma KeyCount(predictions: seq<Prediction>)
    requires DuplicateFree(predictions)
    ensures |predictions| == |KeySet(predictions)|
  {
    var keys := KeysOf(predictions, KeyOf);
    forall k
      ensures k in keys <==> k in KeySet(predictions)
    {
      if k in KeySet(predictions) {
        var p :| p in predictions && p.key == k;
        var i :| 0 <= i < |predictions| && predictions[i] == p;
        assert keys[i] == k;
      }
    }
    DistinctLength(keys, KeySet(predictions));
  }

  lemma {:induction false} DifferencesAt(keys: seq<Key>, production: seq<Prediction>, shadow: seq<Prediction>, i: nat)
    requires forall k | k in keys :: k in KeySet(production) && k in KeySet(shadow)
    requires i < |keys|
    ensures keys[i] in keys
    ensures Differences(keys, production, shadow)[i] == DifferenceOf(Last(production, keys[i]), Last(shadow, keys[i]))
  {
    hide KeySet, DifferenceOf;
    if i > 0 {
      assert forall k | k in keys[1..] :: k in keys;
      DifferencesAt(keys[1..], production, shadow, i - 1);
    }
  }

  /**
   There is one difference per common key, in key order. When the forecasts are compatible that is one per
   prediction of either side, and both sides have the same number.
   */
  lemma OneDifferencePerKey(production: seq<Prediction>, shadow: seq<Prediction>)
    ensures var report := Compared(production, shadow);
      && (forall i, j | 0 <= i < j < |report.differences| ::
            report.differences[i].key != report.differences[j].key
            && KeyLeq(report.differences[i].key, report.differences[j].key))
      && (forall k :: (exists i | 0 <= i < |report.differences| :: report.differences[i].key == k)
            <==> k in KeySet(production) && k in KeySet(shadow))
      && (report.compatible ==> |production| == |shadow| == |report.differences|)
  {
    hide KeySet, KeyLeq, Last, Differences, Mean, Violations, NonFinites, Duplicates, Clean;
    var keys := Common(production, shadow);
    var ds := Differences(keys, production, shadow);
    forall i | 0 <= i < |ds|
      ensures ds[i].key == keys[i]
    {
      DifferencesAt(keys, production, shadow, i);
    }
    forall k
      ensures (exists i | 0 <= i < |ds| :: ds[i].key == k) <==> k in keys
    {
      if k in keys {
        var i :| 0 <= i < |keys| && keys[i] == k;
        assert ds[i].key == k;
      }
    }
    CompatibleIff(production, shadow);
    if Compared(production, shadow).compatible {
      CleanIsDuplicateFree(production);
      CleanIsDuplicateFree(shadow);
      KeyCount(production);
      KeyCount(shadow);
      DistinctLength(keys, KeySet(production));
    }
  }

  lemma CleanIsDuplicateFree(predictions: seq<Prediction>)
    requires Clean(predictions)
    ensures DuplicateFree(predictions)
  {}

  /**
   A relative drift is missing exactly when it would divide by a zero that the other side does not share;
   otherwise it is the absolute drift in units of the production value.
   */
  lemma RelativeIsRatio(production: real, shadow: real)
    ensures var r := RelativeDifference(Fin(production), Fin(shadow));
      && (r.None? <==> production == 0.0 && shadow != 0.0)
      && (r.Some? ==> r.value.Fin? && r.value.x * Abs(Fin(production)).x == Abs(Minus(Fin(shadow), Fin(production))).x)
  {
    if production != 0.0 { Times(Abs(Minus(Fin(shadow), Fin(production))).x, Abs(Fin(production)).x); }
  }

  lemma Times(x: real, y: real)
    requires y != 0.0
    ensures (x / y) * y == x
  {}

  /** The violations are exactly the disordered predictions, each as often as it occurs. */
  lemma ViolationsAre(provider: string, predictions: seq<Prediction>, v: Violation)
    ensures v in Violations(provider, predictions) <==>
      exists p :: p in predictions && Disordered(p) && v == Violation(provider, p.key, p.p25, p.p50, p.p75)
  {
    hide Filter, Sort, KeyLeq, Disordered;
    KeyOrder();
    SortSorted(predictions, ByKey);
    var bad := Filter(Sort(predictions, ByKey), Disordered);
    FilterMember(Sort(predictions, ByKey), Disordered);
    if p :| p in predictions && Disordered(p) && v == Violation(provider, p.key, p.p25, p.p50, p.p75) {
      assert p in bad;
      var i :| 0 <= i < |bad| && bad[i] == p;
      assert Violations(provider, predictions)[i] == v;
    }
    if v in Violations(provider, predictions) {
      var i :| 0 <= i < |bad| && Violations(provider, predictions)[i] == v;
      assert bad[i] in bad;
    }
  }

  // ---------- swapping the sides ----------

  lemma AbsMinus(a: Float, b: Float)
    ensures Abs(Minus(a, b)) == Abs(Minus(b, a))
  {}

  /** The absolute drifts of two lists of differences are the same. */
  ghost predicate SameDrift(ds: seq<Difference>, es: seq<Difference>) {
    |ds| == |es| && forall i | 0 <= i < |ds| ::
      && ds[i].key == es[i].key && ds[i].abs25 == es[i].abs25 && ds[i].abs50 == es[i].abs50 && ds[i].abs75 == es[i].abs75
  }

  lemma {:induction false} SwapDifferences(keys: seq<Key>, production: seq<Prediction>, shadow: seq<Prediction>)
    requires forall k | k in keys :: k in KeySet(production) && k in KeySet(shadow)
    ensures SameDrift(Differences(keys, production, shadow), Differences(keys, shadow, production))
  {
    hide KeySet, Minus, Abs, RelativeDifference, Last;
    if keys != [] {
      assert keys[0] in keys && forall k | k in keys[1..] :: k in keys;
      SwapDifferences(keys[1..], production, shadow);
      var l, r := Last(production, keys[0]), Last(shadow, keys[0]);
      AbsMinus(r.p25, l.p25);
      AbsMinus(r.p50, l.p50);
      AbsMinus(r.p75, l.p75);
    }
  }

  lemma {:induction false} SameSums(ds: seq<Difference>, es: seq<Difference>)
    requires SameDrift(ds, es)
    ensures Sum(ds, Abs25) == Sum(es, Abs25) && Sum(ds, Abs50) == Sum(es, Abs50) && Sum(ds, Abs75) == Sum(es, Abs75)
  {
    hide Plus;
    if ds != [] {
      SameSums(ds[1..], es[1..]);
    }
  }

  /** Swapping the sides swaps missing and extra keys and keeps compatibility, every absolute drift and the means. */
  lemma SwapMirrors(production: seq<Prediction>, shadow: seq<Prediction>)
    ensures var r, q := Compared(production, shadow), Compared(shadow, production);
      && q.missing == r.extra && q.extra == r.missing && q.compatible == r.compatible
      && q.productionDuplicates == r.shadowDuplicates && q.shadowDuplicates == r.productionDuplicates
      && SameDrift(r.differences, q.differences)
      && q.mean25 == r.mean25 && q.mean50 == r.mean50 && q.mean75 == r.mean75
  {
    hide KeySet, Sum, Differences, Duplicates, Violations, NonFinites, Clean, SortedKeys, KeyLeq, SameDrift;
    CompatibleIff(production, shadow);
    CompatibleIff(shadow, production);
    var keys := Common(production, shadow);
    assert KeySet(production) * KeySet(shadow) == KeySet(shadow) * KeySet(production);
    assert keys == Common(shadow, production);
    SwapDifferences(keys, production, shadow);
    SameSums(Differences(keys, production, shadow), Differences(keys, shadow, production));
    SameMeans(Differences(keys, production, shadow), Differences(keys, shadow, production));
  }

  lemma SameMeans(ds: seq<Difference>, es: seq<Difference>)
    requires SameDrift(ds, es)
    ensures Mean(ds, Abs25) == Mean(es, Abs25) && Mean(ds, Abs50) == Mean(es, Abs50) && Mean(ds, Abs75) == Mean(es, Abs75)
  {
    hide Sum;
    SameSums(ds, es);
  }

  // ---------- mean drift ----------

  predicate NotNegative(a: Float) {
    match a
    case Fin(x) => x >= 0.0
    case NegInf => false
    case _ => true
  }

  /** Sums of absolute values vanish only termwise: infinities and NaN never cancel. */
  lemma {:induction false} SumZeroIff(ds: seq<Difference>, f: Difference -> Float)
    requires forall d | d in ds :: NotNegative(f(d))
    ensures NotNegative(Sum(ds, f))
    ensures Sum(ds, f) == Fin(0.0) <==> forall d | d in ds :: f(d) == Fin(0.0)
  {
    hide Plus, NotNegative;
    if ds == [] {
      ZeroNotNegative();
    } else {
      assert ds[0] in ds && forall d :: d in ds <==> d == ds[0] || d in ds[1..];
      SumZeroIff(ds[1..], f);
      PlusZeroIff(f(ds[0]), Sum(ds[1..], f));
    }
  }

  lemma ZeroNotNegative()
    ensures NotNegative(Fin(0.0))
  {}

  lemma PlusZeroIff(a: Float, b: Float)
    requires NotNegative(a) && NotNegative(b)
    ensures NotNegative(Plus(a, b))
    ensures Plus(a, b) == Fin(0.0) <==> a == Fin(0.0) && b == Fin(0.0)
  {}

  lemma MeanZeroIff(ds: seq<Difference>, f: Difference -> Float)
    requires ds != [] && forall d | d in ds :: NotNegative(f(d))
    ensures Mean(ds, f) == Some(Fin(0.0)) <==> forall d | d in ds :: f(d) == Fin(0.0)
  {
    SumZeroIff(ds, f);
    if Sum(ds, f).Fin? { QuotientZeroIff(Sum(ds, f).x, |ds|); }
  }

  lemma QuotientZeroIff(x: real, n: nat)
    requires n > 0
    ensures x / n as real == 0.0 <==> x == 0.0
  {}

  lemma AbsZeroIff(a: Float, b: Float)
    ensures NotNegative(Abs(Minus(a, b)))
    ensures Abs(Minus(a, b)) == Fin(0.0) <==> a.Fin? && a == b
  {}

  /** The two sides give the same finite number for every common key. */
  ghost predicate AgreeOn(production: seq<Prediction>, shadow: seq<Prediction>, value: Prediction -> Float) {
    forall k | k in KeySet(production) && k in KeySet(shadow) ::
      value(Last(production, k)).Fin? && value(Last(production, k)) == value(Last(shadow, k))
  }

  function Value25(p: Prediction): Float { p.p25 }

  function Value50(p: Prediction): Float { p.p50 }

  function Value75(p: Prediction): Float { p.p75 }

  lemma DriftZeroIff(production: seq<Prediction>, shadow: seq<Prediction>, drift: Difference -> Float,
      value: Prediction -> Float)
    requires Common(production, shadow) != []
    requires forall l: Prediction, r: Prediction :: drift(DifferenceOf(l, r)) == Abs(Minus(value(r), value(l)))
    ensures Mean(Differences(Common(production, shadow), production, shadow), drift) == Some(Fin(0.0))
      <==> AgreeOn(production, shadow, value)
  {
    hide KeySet, Last, Differences, Mean, DifferenceOf, Abs, Minus, Common, NotNegative;
    var keys := Common(production, shadow);
    var ds := Differences(keys, production, shadow);
    forall i | 0 <= i < |keys|
      ensures keys[i] in keys && NotNegative(drift(ds[i]))
      ensures drift(ds[i]) == Fin(0.0) <==>
        value(Last(production, keys[i])).Fin? && value(Last(production, keys[i])) == value(Last(shadow, keys[i]))
    {
      var l, r := Last(production, keys[i]), Last(shadow, keys[i]);
      DifferencesAt(keys, production, shadow, i);
      assert drift(ds[i]) == Abs(Minus(value(r), value(l)));
      AbsZeroIff(value(r), value(l));
    }
    forall d | d in ds
      ensures NotNegative(drift(d))
    {
      var i :| 0 <= i < |ds| && ds[i] == d;
    }
    MeanZeroIff(ds, drift);
    EveryIff(keys, ds, production, shadow, drift, value);
  }

  lemma EveryIff(
      keys: seq<Key>, ds: seq<Difference>, production: seq<Prediction>, shadow: seq<Prediction>,
      drift: Difference -> Float, value: Prediction -> Float)
    requires |ds| == |keys| && forall k :: k in keys <==> k in KeySet(production) && k in KeySet(shadow)
    requires forall i | 0 <= i < |keys| :: keys[i] in keys && (drift(ds[i]) == Fin(0.0) <==>
      value(Last(production, keys[i])).Fin? && value(Last(production, keys[i])) == value(Last(shadow, keys[i])))
    ensures (forall d | d in ds :: drift(d) == Fin(0.0)) <==> AgreeOn(production, shadow, value)
  {
    hide KeySet, Last;
    if forall d | d in ds :: drift(d) == Fin(0.0) {
      forall k | k in KeySet(production) && k in KeySet(shadow)
        ensures value(Last(production, k)).Fin? && value(Last(production, k)) == value(Last(shadow, k))
      {
        var i :| 0 <= i < |keys| && keys[i] == k;
        assert ds[i] in ds;
      }
    }
    if AgreeOn(production, shadow, value) {
      forall d | d in ds
        ensures drift(d) == Fin(0.0)
      {
        var i :| 0 <= i < |ds| && ds[i] == d;
      }
    }
  }

  /** There is a mean drift exactly when a key is common, and it is zero exactly when all paired values agree. */
  lemma MeanDriftZeroIff(production: seq<Prediction>, shadow: seq<Prediction>)
    ensures var r := Compared(production, shadow);
      && (r.mean25.Some? <==> KeySet(production) * KeySet(shadow) != {})
      && (r.mean25.Some? <==> r.mean50.Some?) && (r.mean25.Some? <==> r.mean75.Some?)
      && (r.mean25.Some? ==>
            && (r.mean25 == Some(Fin(0.0)) <==> AgreeOn(production, shadow, Value25))
            && (r.mean50 == Some(Fin(0.0)) <==> AgreeOn(production, shadow, Value50))
            && (r.mean75 == Some(Fin(0.0)) <==> AgreeOn(production, shadow, Value75)))
  {
    hide KeySet, Last, Differences, Violations, NonFinites, Duplicates, SortedKeys, AgreeOn, Sum, Abs, Minus;
    hide RelativeDifference, KeyLeq;
    var keys := Common(production, shadow);
    HeadIn(keys);
    assert keys == [] <==> KeySet(production) * KeySet(shadow) == {} by {
      assert forall k :: k in keys <==> k in KeySet(production) * KeySet(shadow);
    }
    if keys != [] {
      DriftZeroIff(production, shadow, Abs25, Value25);
      DriftZeroIff(production, shadow, Abs50, Value50);
      DriftZeroIff(production, shadow, Abs75, Value75);
    }
  }
}
