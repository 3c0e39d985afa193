/** Grouping a list by a key the way a `defaultdict(list)` loop does, and `list(dict.fromkeys(...))`. */
module Grouping {
  import opened Ordering

  // ---------- first occurrences ----------

  /** list(dict.fromkeys(s)): the first occurrence of every element, in order. */
  function Dedup<T(==)>(s: seq<T>): seq<T> {
    if s == [] then []
    else
      var d, x := Dedup(s[..|s| - 1]), s[|s| - 1];
      if x in d then d else d + [x]
  }

  lemma {:induction false} DedupMembers<T(!new)>(s: seq<T>)
    ensures Distinct(Dedup(s)) && forall x :: x in Dedup(s) <==> x in s
  {
    if s != [] {
      DedupMembers(s[..|s| - 1]);
      assert s == s[..|s| - 1] + [s[|s| - 1]];
    }
  }

  lemma DedupSnoc<T>(s: seq<T>, x: T)
    ensures Dedup(s + [x]) == if x in Dedup(s) then Dedup(s) else Dedup(s) + [x]
  {
    assert (s + [x])[..|s|] == s;
  }

  lemma {:induction false} DedupFixed<T(!new)>(s: seq<T>)
    requires Distinct(s)
    ensures Dedup(s) == s
  {
    if s != [] {
      var p := s[..|s| - 1];
      DedupFixed(p);
      assert s == p + [s[|s| - 1]];
    }
  }

  /** Removing duplicates early changes nothing. */
  lemma {:induction false} DedupTwice<T(!new)>(a: seq<T>, b: seq<T>)
    ensures Dedup(Dedup(a) + b) == Dedup(a + b)
  {
    if b == [] {
      DedupMembers(a);
      DedupFixed(Dedup(a));
      assert Dedup(a) + b == Dedup(a) && a + b == a;
    } else {
      var p, x := b[..|b| - 1], b[|b| - 1];
      DedupTwice(a, p);
      assert Dedup(a) + b == (Dedup(a) + p) + [x] && a + b == (a + p) + [x];
      DedupSnoc(Dedup(a) + p, x);
      DedupSnoc(a + p, x);
    }
  }

  lemma {:induction false} FilterDedup<T(!new)>(s: seq<T>, keep: T -> bool)
    ensures Filter(Dedup(s), keep) == Dedup(Filter(s, keep))
  {
    if s != [] {
      var p, x := s[..|s| - 1], s[|s| - 1];
      FilterDedup(p, keep);
      assert s == p + [x];
      FilterAppend(p, [x], keep);
      FilterAppend(Dedup(p), [x], keep);
      FilterMember(Dedup(p), keep);
      DedupSnoc(Filter(p, keep), x);
      assert Filter(p, keep) + [] == Filter(p, keep);
      assert Filter(Dedup(p), keep) + [] == Filter(Dedup(p), keep);
    }
  }

  // ---------- groups ----------

  datatype Group<K, V> = Group(key: K, items: seq<V>)

  /** The elements with the key, in order. */
  function Members<K(==), V>(xs: seq<V>, key: V -> K, k: K): seq<V> {
    if xs == [] then []
    else if key(xs[0]) == k then [xs[0]] + Members(xs[1..], key, k)
    else Members(xs[1..], key, k)
  }

  function KeysOf<K, V>(xs: seq<V>, key: V -> K): (r: seq<K>)
    ensures |r| == |xs|
  {
    seq(|xs|, i requires 0 <= i < |xs| => key(xs[i]))
  }

  /** One group per key, in order of first occurrence. */
  function Groups<K(==), V>(xs: seq<V>, key: V -> K): seq<Group<K, V>> {
    var ks := Dedup(KeysOf(xs, key));
    seq(|ks|, i requires 0 <= i < |ks| => Group(ks[i], Members(xs, key, ks[i])))
  }

  /** groups[k].append(x) on a defaultdict(list) */
  function AddTo<K(==), V>(groups: seq<Group<K, V>>, k: K, x: V): seq<Group<K, V>> {
    if groups == [] then [Group(k, [x])]
    else if groups[0].key == k then [Group(k, groups[0].items + [x])] + groups[1..]
    else [groups[0]] + AddTo(groups[1..], k, x)
  }

  lemma {:induction false} MembersAppend<K, V>(a: seq<V>, b: seq<V>, key: V -> K, k: K)
    ensures Members(a + b, key, k) == Members(a, key, k) + Members(b, key, k)
  {
    if a == [] {
      assert a + b == b;
    } else {
      MembersAppend(a[1..], b, key, k);
      var s := a + b;
      assert s[0] == a[0] && s[1..] == a[1..] + b;
    }
  }

  lemma {:induction false} MembersSound<K, V(!new)>(xs: seq<V>, key: V -> K, k: K)
    ensures forall x :: x in Members(xs, key, k) <==> x in xs && key(x) == k
  {
    if xs != [] {
      MembersSound(xs[1..], key, k);
      assert xs == [xs[0]] + xs[1..];
    }
  }

  lemma {:induction false} AddToAt<K, V>(groups: seq<Group<K, V>>, k: K, x: V, i: nat)
    requires i < |groups| && groups[i].key == k
    requires forall a, b | 0 <= a < b < |groups| :: groups[a].key != groups[b].key
    ensures AddTo(groups, k, x) == groups[i := Group(k, groups[i].items + [x])]
  {
    if i > 0 {
      AddToAt(groups[1..], k, x, i - 1);
    }
  }

  lemma {:induction false} AddToNew<K, V>(groups: seq<Group<K, V>>, k: K, x: V)
    requires forall i | 0 <= i < |groups| :: groups[i].key != k
    ensures AddTo(groups, k, x) == groups + [Group(k, [x])]
  {
    if groups != [] {
      AddToNew(groups[1..], k, x);
    }
  }

  lemma {:induction false} NoMembers<K, V(!new)>(xs: seq<V>, key: V -> K, k: K)
    requires k !in KeysOf(xs, key)
    ensures Members(xs, key, k) == []
  {
    if xs != [] {
      assert KeysOf(xs, key)[0] == key(xs[0]) && KeysOf(xs, key)[1..] == KeysOf(xs[1..], key);
      NoMembers(xs[1..], key, k);
    }
  }

  /** Appending one element to the list is one `AddTo` on its groups. */
  lemma GroupsSnoc<K(!new), V(!new)>(xs: seq<V>, x: V, key: V -> K)
    ensures Groups(xs + [x], key) == AddTo(Groups(xs, key), key(x), x)
  {
    hide Dedup, AddTo, Members;
    var k, ks := key(x), Dedup(KeysOf(xs, key));
    assert KeysOf(xs + [x], key) == KeysOf(xs, key) + [k];
    DedupSnoc(KeysOf(xs, key), k);
    DedupMembers(KeysOf(xs, key));
    forall l
      ensures Members(xs + [x], key, l) == Members(xs, key, l) + if l == k then [x] else []
    {
      MembersAppend(xs, [x], key, l);
      OneMember(x, key, l);
    }
    var before, after := Groups(xs, key), Groups(xs + [x], key);
    forall i | 0 <= i < |ks|
      ensures after[i] == Group(ks[i], Members(xs, key, ks[i]) + if ks[i] == k then [x] else [])
      ensures ks[i] != k ==> after[i] == before[i]
    {
      assert Members(xs, key, ks[i]) + [] == Members(xs, key, ks[i]);
    }
    if k in ks {
      var i :| 0 <= i < |ks| && ks[i] == k;
      AddToAt(before, k, x, i);
      assert after == before[i := Group(k, Members(xs, key, k) + [x])];
    } else {
      NoMembers(xs, key, k);
      AddToNew(before, k, x);
      assert |after| == |ks| + 1 && after[|ks|] == Group(k, [x]) by { assert [] + [x] == [x]; }
      assert forall i | 0 <= i < |ks| :: ks[i] in ks && after[i] == before[i];
      assert after == before + [Group(k, [x])];
    }
  }

  lemma OneMember<K, V>(x: V, key: V -> K, l: K)
    ensures Members([x], key, l) == if l == key(x) then [x] else []
  {}

  /** The grouping loop: every element is appended to the list kept under its key. */
  method GroupBy<K(==, !new), V(!new)>(xs: seq<V>, key: V -> K) returns (groups: seq<Group<K, V>>)
    ensures groups == Groups(xs, key)
  {
    hide Groups, AddTo;
    groups := [];
    assert groups == Groups(xs[..0], key) by { NoGroups(key); }
    for i := 0 to |xs|
      invariant groups == Groups(xs[..i], key)
    {
      GroupsSnoc(xs[..i], xs[i], key);
      assert xs[..i + 1] == xs[..i] + [xs[i]];
      groups := AddTo(groups, key(xs[i]), xs[i]);
    }
    assert xs[..|xs|] == xs;
  }

  lemma NoGroups<K, V>(key: V -> K)
    ensures Groups([], key) == []
  {}

  /** Each key of the list has exactly one group; no group is empty. */
  lemma GroupsSound<K(!new), V(!new)>(xs: seq<V>, key: V -> K)
    ensures var gs := Groups(xs, key);
      && (forall i, j | 0 <= i < j < |gs| :: gs[i].key != gs[j].key)
      && (forall i | 0 <= i < |gs| :: gs[i].items == Members(xs, key, gs[i].key) && gs[i].items != [])
      && (forall x | x in xs :: exists i | 0 <= i < |gs| :: gs[i].key == key(x))
  {
    hide Dedup, Members;
    var ks, gs := Dedup(KeysOf(xs, key)), Groups(xs, key);
    DedupMembers(KeysOf(xs, key));
    forall i | 0 <= i < |gs|
      ensures gs[i].items != []
    {
      assert ks[i] in KeysOf(xs, key);
      var j :| 0 <= j < |xs| && KeysOf(xs, key)[j] == ks[i];
      MembersSound(xs, key, ks[i]);
      assert xs[j] in Members(xs, key, ks[i]);
    }
    forall x | x in xs
      ensures exists i | 0 <= i < |gs| :: gs[i].key == key(x)
    {
      var j :| 0 <= j < |xs| && xs[j] == x;
      assert KeysOf(xs, key)[j] in ks;
      var i :| 0 <= i < |ks| && ks[i] == key(x);
      assert gs[i].key == key(x);
    }
  }

  /** groups[k] on a defaultdict(list): nothing for a key that no element has */
  method GroupAt<K(==, !new), V(!new)>(groups: seq<Group<K, V>>, k: K, xs: seq<V>, key: V -> K) returns (items: seq<V>)
    requires groups == Groups(xs, key)
    ensures items == Members(xs, key, k)
  {
    hide Members, Dedup, Groups;
    GroupsSound(xs, key);
    for i := 0 to |groups|
      invariant forall j | 0 <= j < i :: groups[j].key != k
    {
      if groups[i].key == k { return groups[i].items; }
    }
    NoGroup(groups, k, xs, key);
    items := [];
  }

  lemma NoGroup<K(!new), V(!new)>(groups: seq<Group<K, V>>, k: K, xs: seq<V>, key: V -> K)
    requires groups == Groups(xs, key) && forall j | 0 <= j < |groups| :: groups[j].key != k
    ensures Members(xs, key, k) == []
  {
    hide Members, Groups;
    GroupsSound(xs, key);
    MembersSound(xs, key, k);
    HeadIn(Members(xs, key, k));
  }

  // ---------- what grouping conserves ----------

  function Total<V>(xs: seq<V>, w: V -> real): real {
    if xs == [] then 0.0 else w(xs[0]) + Total(xs[1..], w)
  }

  function Others<K(==), V>(xs: seq<V>, key: V -> K, k: K): seq<V> {
    if xs == [] then []
    else if key(xs[0]) == k then Others(xs[1..], key, k)
    else [xs[0]] + Others(xs[1..], key, k)
  }

  lemma {:induction false} Split<K, V(!new)>(xs: seq<V>, key: V -> K, k: K, w: V -> real)
    ensures Total(xs, w) == Total(Members(xs, key, k), w) + Total(Others(xs, key, k), w)
    ensures |xs| == |Members(xs, key, k)| + |Others(xs, key, k)|
    ensures forall x :: x in Others(xs, key, k) <==> x in xs && key(x) != k
  {
    if xs != [] {
      Split(xs[1..], key, k, w);
      assert xs == [xs[0]] + xs[1..];
      assert key(xs[0]) == k ==> Members(xs, key, k)[1..] == Members(xs[1..], key, k);
      assert key(xs[0]) != k ==> Others(xs, key, k)[1..] == Others(xs[1..], key, k);
    }
  }

  lemma {:induction false} MembersOfOthers<K, V>(xs: seq<V>, key: V -> K, k: K, l: K)
    requires k != l
    ensures Members(Others(xs, key, k), key, l) == Members(xs, key, l)
  {
    if xs != [] {
      MembersOfOthers(xs[1..], key, k, l);
      assert key(xs[0]) != k ==> Others(xs, key, k)[1..] == Others(xs[1..], key, k);
    }
  }

  function TotalByKey<K(==), V>(ks: seq<K>, xs: seq<V>, key: V -> K, w: V -> real): real {
    if ks == [] then 0.0 else Total(Members(xs, key, ks[0]), w) + TotalByKey(ks[1..], xs, key, w)
  }

  function CountByKey<K(==), V>(ks: seq<K>, xs: seq<V>, key: V -> K): int {
    if ks == [] then 0 else |Members(xs, key, ks[0])| + CountByKey(ks[1..], xs, key)
  }

  lemma {:induction false} ByKeyOfOthers<K, V(!new)>(ks: seq<K>, xs: seq<V>, key: V -> K, k: K, w: V -> real)
    requires k !in ks
    ensures TotalByKey(ks, Others(xs, key, k), key, w) == TotalByKey(ks, xs, key, w)
    ensures CountByKey(ks, Others(xs, key, k), key) == CountByKey(ks, xs, key)
  {
    if ks != [] {
      MembersOfOthers(xs, key, k, ks[0]);
      ByKeyOfOthers(ks[1..], xs, key, k, w);
    }
  }

  /** Splitting a list by key loses nothing and counts nothing twice, whatever order the keys come in. */
  lemma {:induction false} Partition<K, V(!new)>(ks: seq<K>, xs: seq<V>, key: V -> K, w: V -> real)
    requires Distinct(ks) && forall x | x in xs :: key(x) in ks
    ensures TotalByKey(ks, xs, key, w) == Total(xs, w)
    ensures CountByKey(ks, xs, key) == |xs|
  {
    if ks == [] {
      HeadIn(xs);
    } else {
      var rest := Others(xs, key, ks[0]);
      Split(xs, key, ks[0], w);
      assert forall x | x in rest :: key(x) in ks[1..];
      Partition(ks[1..], rest, key, w);
      ByKeyOfOthers(ks[1..], xs, key, ks[0], w);
    }
  }

  lemma {:induction false} InsertTotal<V>(x: V, s: seq<V>, leq: (V, V) -> bool, w: V -> real)
    ensures Total(Insert(x, s, leq), w) == w(x) + Total(s, w)
  {
    if s != [] && !leq(x, s[0]) {
      InsertTotal(x, s[1..], leq, w);
      assert Insert(x, s, leq)[1..] == Insert(x, s[1..], leq);
    } else {
      assert ([x] + s)[1..] == s;
    }
  }

  /** Sorting does not change a sum. */
  lemma {:induction false} SortTotal<V>(s: seq<V>, leq: (V, V) -> bool, w: V -> real)
    ensures Total(Sort(s, leq), w) == Total(s, w)
  {
    if s != [] {
      SortTotal(s[1..], leq, w);
      InsertTotal(s[0], Sort(s[1..], leq), leq, w);
    }
  }

  // ---------- keys that occur twice ----------

  lemma {:induction false} MembersTwice<K, V(!new)>(xs: seq<V>, key: V -> K, i: nat, j: nat)
    requires i < j < |xs| && key(xs[i]) == key(xs[j])
    ensures |Members(xs, key, key(xs[i]))| > 1
  {
    if i > 0 {
      MembersTwice(xs[1..], key, i - 1, j - 1);
    } else {
      MembersSound(xs[1..], key, key(xs[0]));
      assert xs[1..][j - 1] in Members(xs[1..], key, key(xs[0]));
    }
  }

  lemma {:induction false} MembersOnce<K, V(!new)>(xs: seq<V>, key: V -> K, k: K)
    requires forall i, j | 0 <= i < j < |xs| :: key(xs[i]) != key(xs[j])
    ensures |Members(xs, key, k)| <= 1
  {
    if xs != [] {
      MembersOnce(xs[1..], key, k);
      if key(xs[0]) == k {
        forall x | x in xs[1..]
          ensures key(x) != k
        {
          var j :| 0 <= j < |xs[1..]| && xs[1..][j] == x;
          assert key(xs[0]) != key(xs[j + 1]);
        }
        MembersSound(xs[1..], key, k);
        HeadIn(Members(xs[1..], key, k));
      }
    }
  }

  lemma {:induction false} DistinctLength<T(!new)>(s: seq<T>, all: set<T>)
    requires Distinct(s) && forall x :: x in s <==> x in all
    ensures |s| == |all|
  {
    if s == [] {
      assert all == {};
    } else {
      assert s == [s[0]] + s[1..];
      DistinctLength(s[1..], all - {s[0]});
    }
  }
}
