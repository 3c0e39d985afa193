/**
 Python's `sorted` on elements of which some pairs cannot be compared: a comparison that fails raises TypeError.
 */
module RaisingSort {
  import opened Text
  import opened Ordering

  /** x < y, None where the comparison raises */
  type Less<!T> = (T, T) -> Option<bool>

  function TryInsert<T>(x: T, s: seq<T>, less: Less<T>): Option<seq<T>> {
    if s == [] then Some([x])
    else match less(x, s[0])
      case None => None
      case Some(true) => Some([x] + s)
      case Some(false) =>
        match TryInsert(x, s[1..], less)
        case None => None
        case Some(rest) => Some([s[0]] + rest)
  }

  /** Insertion sort: element by element, each compared from the left until a larger one is met. */
  function TrySort<T>(s: seq<T>, less: Less<T>): Option<seq<T>> {
    if s == [] then Some([])
    else match TrySort(s[..|s| - 1], less)
      case None => None
      case Some(sorted) => TryInsert(s[|s| - 1], sorted, less)
  }

  /**
   `less` is the strict part of a total order, except that it raises on clashing pairs; and whatever lies between
   two clashing elements clashes with one of them.
   */
  ghost predicate RaisingOrder<T(!new)>(less: Less<T>, leq: (T, T) -> bool, clash: (T, T) -> bool) {
    && TotalOrder(leq)
    && (forall x, y :: less(x, y) == if clash(x, y) then None else Some(leq(x, y) && x != y))
    && (forall x, y :: clash(x, y) ==> clash(y, x))
    && (forall x, y, z :: clash(x, y) && leq(x, z) && leq(z, y) ==> clash(x, z) || clash(z, y))
  }

  /** Some two elements clash. */
  ghost predicate Clashing<T(!new)>(s: seq<T>, clash: (T, T) -> bool) {
    exists x, y :: x in s && y in s && clash(x, y)
  }

  lemma {:induction false} InsertRaisesIff<T(!new)>(
      x: T, s: seq<T>, less: Less<T>, leq: (T, T) -> bool, clash: (T, T) -> bool)
    requires RaisingOrder(less, leq, clash) && SortedBy(s, leq) && Distinct(s) && x !in s && !Clashing(s, clash)
    ensures var r := TryInsert(x, s, less);
      && (r.None? <==> exists y :: y in s && clash(x, y))
      && (r.Some? ==> SortedBy(r.value, leq) && Distinct(r.value) && forall y :: y in r.value <==> y == x || y in s)
  {
    if s != [] {
      assert s == [s[0]] + s[1..];
      assert forall y :: y in s <==> y == s[0] || y in s[1..];
      if less(x, s[0]) == Some(true) {
        assert leq(x, s[0]) && forall y | y in s :: leq(s[0], y);
        forall y | y in s
          ensures !clash(x, y) && leq(x, y)
        {
          Between(x, s[0], y, less, leq, clash);
        }
      } else if less(x, s[0]) == Some(false) {
        InsertRaisesIff(x, s[1..], less, leq, clash);
        assert leq(s[0], x);
        assert forall y | y in s[1..] :: leq(s[0], y) && y != s[0];
      }
    }
  }

  lemma Between<T(!new)>(x: T, z: T, y: T, less: Less<T>, leq: (T, T) -> bool, clash: (T, T) -> bool)
    requires RaisingOrder(less, leq, clash)
    ensures clash(x, y) && leq(x, z) && leq(z, y) ==> clash(x, z) || clash(z, y)
  {}

  /** Sorting distinct elements in any order raises exactly when two of them clash; otherwise it enumerates them. */
  lemma {:induction false} SortRaisesIff<T(!new)>(s: seq<T>, less: Less<T>, leq: (T, T) -> bool, clash: (T, T) -> bool)
    requires RaisingOrder(less, leq, clash) && Distinct(s) && forall x :: !clash(x, x)
    ensures var r := TrySort(s, less);
      && (r.None? <==> Clashing(s, clash))
      && (r.Some? ==> SortedBy(r.value, leq) && Distinct(r.value) && forall y :: y in r.value <==> y in s)
  {
    hide RaisingOrder;
    if s != [] {
      var p, x := s[..|s| - 1], s[|s| - 1];
      assert s == p + [x];
      SortRaisesIff(p, less, leq, clash);
      ClashingLast(p, x, less, leq, clash);
      if !Clashing(p, clash) {
        var sorted := TrySort(p, less).value;
        assert !Clashing(sorted, clash);
        InsertRaisesIff(x, sorted, less, leq, clash);
      }
    }
  }

  lemma ClashingLast<T(!new)>(p: seq<T>, x: T, less: Less<T>, leq: (T, T) -> bool, clash: (T, T) -> bool)
    requires RaisingOrder(less, leq, clash) && !clash(x, x)
    ensures Clashing(p + [x], clash) <==> Clashing(p, clash) || exists y :: y in p && clash(x, y)
  {
    assert forall y :: y in p + [x] <==> y in p || y == x;
  }
}
