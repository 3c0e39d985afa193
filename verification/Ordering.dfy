/** Python's `sorted`: of a list (stable) and of a set, under an order given as a function. */
module Ordering {

  ghost predicate TotalOrder<T(!new)>(leq: (T, T) -> bool) {
    && (forall x, y :: leq(x, y) || leq(y, x))
    && (forall x, y :: leq(x, y) && leq(y, x) ==> x == y)
    && (forall x, y, z :: leq(x, y) && leq(y, z) ==> leq(x, z))
  }

  /** A total order up to ties: what a sort key induces. */
  ghost predicate TotalPreorder<T(!new)>(leq: (T, T) -> bool) {
    && (forall x, y :: leq(x, y) || leq(y, x))
    && (forall x, y, z :: leq(x, y) && leq(y, z) ==> leq(x, z))
  }

  ghost predicate SortedBy<T>(s: seq<T>, leq: (T, T) -> bool) {
    forall i, j | 0 <= i < j < |s| :: leq(s[i], s[j])
  }

  ghost predicate Distinct<T>(s: seq<T>) {
    forall i, j | 0 <= i < j < |s| :: s[i] != s[j]
  }

  /** The increasing enumeration of a set. */
  ghost predicate Enumerates<T(!new)>(r: seq<T>, s: set<T>, leq: (T, T) -> bool) {
    SortedBy(r, leq) && Distinct(r) && forall x :: x in r <==> x in s
  }

  // ---------- sorted(set) ----------

  ghost predicate IsLeast<T(!new)>(m: T, s: set<T>, leq: (T, T) -> bool) {
    m in s && forall x | x in s :: leq(m, x)
  }

  lemma LeastExists<T(!new)>(s: set<T>, leq: (T, T) -> bool)
    requires TotalOrder(leq) && s != {}
    ensures exists m :: IsLeast(m, s, leq)
  {
    var m :| m in s;
    var rest := s - {m};
    assert leq(m, m);
    if rest == {} {
      assert s == {m};
      assert IsLeast(m, s, leq);
    } else {
      LeastExists(rest, leq);
      var n :| IsLeast(n, rest, leq);
      LeastOfTwo(m, n, rest, leq);
      assert s == rest + {m};
    }
  }

  lemma LeastOfTwo<T(!new)>(m: T, n: T, rest: set<T>, leq: (T, T) -> bool)
    requires TotalOrder(leq) && IsLeast(n, rest, leq)
    ensures IsLeast(if leq(m, n) then m else n, rest + {m}, leq)
  {
    assert leq(m, m) && (leq(m, n) || leq(n, m));
    forall x | x in rest
      ensures leq(m, n) ==> leq(m, x)
    {
      assert leq(n, x);
    }
  }

  function SortedSet<T(==, !new)>(s: set<T>, leq: (T, T) -> bool): (r: seq<T>)
    requires TotalOrder(leq)
    ensures Enumerates(r, s, leq)
  {
    if s == {} then []
    else
      LeastExists(s, leq);
      assert exists m :: IsLeast(m, s, leq) && m in s && forall x | x in s :: leq(m, x);
      var m :| m in s && forall x | x in s :: leq(m, x);
      [m] + SortedSet(s - {m}, leq)
  }

  lemma HeadIn<T>(b: seq<T>)
    ensures b == [] || b[0] in b
  {}

  /** A set has only one increasing enumeration. */
  lemma {:induction false} EnumerationUnique<T(!new)>(a: seq<T>, b: seq<T>, s: set<T>, leq: (T, T) -> bool)
    requires TotalOrder(leq) && Enumerates(a, s, leq) && Enumerates(b, s, leq)
    ensures a == b
  {
    if a == [] {
      HeadIn(b);
    } else {
      assert a[0] in s;
      var k :| 0 <= k < |b| && b[k] == a[0];
      assert b[0] in s;
      var l :| 0 <= l < |a| && a[l] == b[0];
      assert a[0] == b[0];
      var rest := s - {a[0]};
      assert Enumerates(a[1..], rest, leq) by { Tail(a, s, leq); }
      assert Enumerates(b[1..], rest, leq) by { Tail(b, s, leq); }
      EnumerationUnique(a[1..], b[1..], rest, leq);
      assert a == [a[0]] + a[1..] && b == [b[0]] + b[1..];
    }
  }

  lemma Tail<T(!new)>(a: seq<T>, s: set<T>, leq: (T, T) -> bool)
    requires Enumerates(a, s, leq) && a != []
    ensures Enumerates(a[1..], s - {a[0]}, leq)
  {
    forall x
      ensures x in a[1..] <==> x in s - {a[0]}
    {
      assert x in a <==> x == a[0] || x in a[1..];
    }
  }

  // ---------- sorted(list, key=...) ----------

  function Insert<T>(x: T, s: seq<T>, leq: (T, T) -> bool): seq<T> {
    if s == [] || leq(x, s[0]) then [x] + s else [s[0]] + Insert(x, s[1..], leq)
  }

  function Sort<T>(s: seq<T>, leq: (T, T) -> bool): seq<T> {
    if s == [] then [] else Insert(s[0], Sort(s[1..], leq), leq)
  }

  lemma {:induction false} InsertSorted<T(!new)>(x: T, s: seq<T>, leq: (T, T) -> bool)
    requires TotalPreorder(leq) && SortedBy(s, leq)
    ensures var r := Insert(x, s, leq);
      SortedBy(r, leq) && multiset(r) == multiset(s) + multiset{x} && |r| == |s| + 1
      && forall y :: y in r <==> y == x || y in s
  {
    if s == [] || leq(x, s[0]) {
      assert forall j | 0 < j < |s| :: leq(x, s[j]);
    } else {
      InsertSorted(x, s[1..], leq);
      assert s == [s[0]] + s[1..];
      assert forall y | y in s[1..] :: leq(s[0], y);
    }
  }

  lemma {:induction false} SortSorted<T(!new)>(s: seq<T>, leq: (T, T) -> bool)
    requires TotalPreorder(leq)
    ensures var r := Sort(s, leq);
      SortedBy(r, leq) && multiset(r) == multiset(s) && |r| == |s| && forall y :: y in r <==> y in s
  {
    if s != [] {
      SortSorted(s[1..], leq);
      InsertSorted(s[0], Sort(s[1..], leq), leq);
      assert s == [s[0]] + s[1..];
    }
  }

  // ---------- strings by code point ----------

  predicate StrLeq(a: string, b: string) {
    a == "" || (b != "" && (a[0] < b[0] || (a[0] == b[0] && StrLeq(a[1..], b[1..]))))
  }

  lemma {:induction false} StrTotal(a: string, b: string)
    ensures StrLeq(a, b) || StrLeq(b, a)
    ensures StrLeq(a, b) && StrLeq(b, a) ==> a == b
  {
    if a != "" && b != "" && a[0] == b[0] {
      StrTotal(a[1..], b[1..]);
      assert a == [a[0]] + a[1..] && b == [b[0]] + b[1..];
    }
  }

  lemma {:induction false} StrTransitive(a: string, b: string, c: string)
    requires StrLeq(a, b) && StrLeq(b, c)
    ensures StrLeq(a, c)
  {
    if a != "" && b != "" && c != "" && a[0] == b[0] == c[0] {
      StrTransitive(a[1..], b[1..], c[1..]);
    }
  }

  /** A prefix comes first, and otherwise the smaller character at the first difference decides. */
  lemma {:induction false} StrLeqIff(common: string, a: string, b: string)
    requires a == "" || b == "" || a[0] != b[0]
    ensures StrLeq(common + a, common + b) <==> a == "" || (b != "" && a[0] < b[0])
  {
    if common == "" {
      assert common + a == a && common + b == b;
    } else {
      var left, right := common + a, common + b;
      StrLeqIff(common[1..], a, b);
      assert left[1..] == common[1..] + a && right[1..] == common[1..] + b && left[0] == right[0];
    }
  }

  lemma StrOrder()
    ensures TotalOrder(StrLeq)
  {
    forall a: string, b: string
      ensures StrLeq(a, b) || StrLeq(b, a)
      ensures StrLeq(a, b) && StrLeq(b, a) ==> a == b
    {
      StrTotal(a, b);
    }
    forall a: string, b: string, c: string | StrLeq(a, b) && StrLeq(b, c)
      ensures StrLeq(a, c)
    {
      StrTransitive(a, b, c);
    }
  }

  /** sorted(set of strings) */
  function SortedStrings(s: set<string>): (r: seq<string>)
    ensures Enumerates(r, s, StrLeq)
  {
    StrOrder();
    SortedSet(s, StrLeq)
  }

  // ---------- sublists ----------

  /** `a` is `b` with some elements left out, in order. */
  ghost predicate Sublist<T>(a: seq<T>, b: seq<T>) {
    if a == [] then true
    else b != [] && ((a[0] == b[0] && Sublist(a[1..], b[1..])) || Sublist(a, b[1..]))
  }

  lemma {:induction false} SublistSelf<T>(a: seq<T>)
    ensures Sublist(a, a)
  {
    if a != [] { SublistSelf(a[1..]); }
  }

  lemma {:induction false} SublistTransitive<T>(a: seq<T>, b: seq<T>, c: seq<T>)
    requires Sublist(a, b) && Sublist(b, c)
    ensures Sublist(a, c)
    decreases |a| + |b| + |c|
  {
    if a != [] {
      if b[0] == c[0] && Sublist(b[1..], c[1..]) {
        if a[0] == b[0] && Sublist(a[1..], b[1..]) {
          SublistTransitive(a[1..], b[1..], c[1..]);
        } else {
          SublistTransitive(a, b[1..], c[1..]);
        }
      } else {
        SublistTransitive(a, b, c[1..]);
      }
    }
  }

  lemma {:induction false} SublistMember<T(!new)>(a: seq<T>, b: seq<T>)
    requires Sublist(a, b)
    ensures forall x | x in a :: x in b
  {
    if a != [] {
      assert a == [a[0]] + a[1..];
      if a[0] == b[0] && Sublist(a[1..], b[1..]) {
        SublistMember(a[1..], b[1..]);
      } else {
        SublistMember(a, b[1..]);
      }
    }
  }

  function Filter<T>(s: seq<T>, keep: T -> bool): seq<T> {
    if s == [] then [] else if keep(s[0]) then [s[0]] + Filter(s[1..], keep) else Filter(s[1..], keep)
  }

  lemma {:induction false} FilterMember<T(!new)>(s: seq<T>, keep: T -> bool)
    ensures forall x :: x in Filter(s, keep) <==> x in s && keep(x)
  {
    if s != [] {
      FilterMember(s[1..], keep);
      assert s == [s[0]] + s[1..];
    }
  }

  lemma {:induction false} FilterSublist<T>(s: seq<T>, keep: T -> bool)
    ensures Sublist(Filter(s, keep), s)
  {
    if s != [] { FilterSublist(s[1..], keep); }
  }

  lemma {:induction false} FilterAppend<T>(a: seq<T>, b: seq<T>, keep: T -> bool)
    ensures Filter(a + b, keep) == Filter(a, keep) + Filter(b, keep)
  {
    if a == [] {
      assert a + b == b;
    } else {
      FilterAppend(a[1..], b, keep);
      var s := a + b;
      assert s[0] == a[0] && s[1..] == a[1..] + b;
    }
  }

  lemma {:induction false} FilterFixed<T(!new)>(s: seq<T>, keep: T -> bool)
    requires forall x | x in s :: keep(x)
    ensures Filter(s, keep) == s
  {
    if s != [] {
      FilterFixed(s[1..], keep);
      assert s == [s[0]] + s[1..] && s[0] in s;
    }
  }
}
