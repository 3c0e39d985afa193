/** JSON-like evidence records: dictionaries with string keys in insertion order. */
module Records {
  import opened Text

  datatype Value =
    | Null
    | Bool(b: bool)
    | Num(n: real)
    | Str(text: string)
    | List(items: seq<Value>)
    | Dict(fields: seq<(string, Value)>)

  type Record = seq<(string, Value)>

  predicate Has(r: Record, key: string) {
    exists f | f in r :: f.0 == key
  }

  /** record.get(key): the value of the last field with that key, Null when there is none */
  function Get(r: Record, key: string): Value {
    if r == [] then Null
    else if r[|r| - 1].0 == key then r[|r| - 1].1
    else Get(r[..|r| - 1], key)
  }

  /** record[key] = value: an existing field keeps its place, a new one goes last */
  function Put(r: Record, key: string, value: Value): Record {
    if r == [] then [(key, value)]
    else if r[0].0 == key then [(key, value)] + r[1..]
    else [r[0]] + Put(r[1..], key, value)
  }

  /** record.update(other) */
  function Update(r: Record, other: Record): Record
    decreases |other|
  {
    if other == [] then r else Update(Put(r, other[0].0, other[0].1), other[1..])
  }

  predicate Truthy(v: Value) {
    match v
    case Null => false
    case Bool(b) => b
    case Num(n) => n != 0.0
    case Str(text) => text != ""
    case List(items) => items != []
    case Dict(fields) => fields != []
  }

  /** str(value); only texts, None and booleans are spelled out, no other value names a unit or a type */
  function Show(v: Value): string {
    match v
    case Str(text) => text
    case Null => "None"
    case Bool(b) => if b then "True" else "False"
    case _ => ""
  }

  function Strings(vs: seq<Value>): seq<string> {
    if vs == [] then []
    else (match vs[0] case Str(text) => [text] case _ => []) + Strings(vs[1..])
  }

  // ---------- dictionaries ----------

  /** Each key once, as in a dictionary. */
  ghost predicate Keyed(r: Record) {
    forall i, j | 0 <= i < j < |r| :: r[i].0 != r[j].0
  }

  lemma {:induction false} GetAt(r: Record, i: nat)
    requires Keyed(r) && i < |r|
    ensures Get(r, r[i].0) == r[i].1 && Has(r, r[i].0)
  {
    assert r[i] in r;
    if i < |r| - 1 { GetAt(r[..|r| - 1], i); }
  }

  lemma {:induction false} GetAbsent(r: Record, key: string)
    requires !Has(r, key)
    ensures Get(r, key) == Null
  {
    if r != [] {
      assert r[|r| - 1] in r && forall f | f in r[..|r| - 1] :: f in r;
      GetAbsent(r[..|r| - 1], key);
    }
  }

  lemma {:induction false} PutAt(r: Record, key: string, v: Value)
    requires Keyed(r)
    ensures Has(r, key) ==> exists i | 0 <= i < |r| :: r[i].0 == key && Put(r, key, v) == r[i := (key, v)]
    ensures !Has(r, key) ==> Put(r, key, v) == r + [(key, v)]
  {
    if r != [] {
      assert r[0] in r && forall f :: f in r <==> f == r[0] || f in r[1..];
      if r[0].0 == key {
        assert Put(r, key, v) == r[0 := (key, v)];
      } else {
        PutAt(r[1..], key, v);
        if Has(r[1..], key) {
          var i :| 0 <= i < |r[1..]| && r[1..][i].0 == key && Put(r[1..], key, v) == r[1..][i := (key, v)];
          assert Put(r, key, v) == r[i + 1 := (key, v)];
        }
      }
    }
  }

  /** Writing one key: it is read back, the others are untouched. */
  lemma PutGet(r: Record, key: string, v: Value)
    requires Keyed(r)
    ensures var w := Put(r, key, v);
      && Keyed(w) && Has(w, key) && Get(w, key) == v
      && (forall k | k != key :: Get(w, k) == Get(r, k) && (Has(w, k) <==> Has(r, k)))
      && (forall f | f in w :: f in r || f == (key, v))
  {
    hide Get, Put;
    PutAt(r, key, v);
    var w := Put(r, key, v);
    var i :| 0 <= i < |w| && w[i] == (key, v) && Keyed(w) && |w| >= |r| && (i < |r| ==> r[i].0 == key)
      && (forall j | 0 <= j < |w| && j != i :: j < |r| && w[j] == r[j] && r[j].0 != key);
    GetAt(w, i);
    forall k | k != key
      ensures Get(w, k) == Get(r, k) && (Has(w, k) <==> Has(r, k))
    {
      SameElsewhere(r, w, key, k, i);
    }
  }

  lemma SameElsewhere(r: Record, w: Record, key: string, k: string, i: nat)
    requires Keyed(r) && Keyed(w) && k != key && i < |w| && |w| >= |r| && w[i].0 == key
    requires forall j | 0 <= j < |w| && j != i :: j < |r| && w[j] == r[j]
    requires i < |r| ==> r[i].0 == key
    ensures Get(w, k) == Get(r, k) && (Has(w, k) <==> Has(r, k))
  {
    hide Get;
    if Has(r, k) {
      var j :| 0 <= j < |r| && r[j].0 == k;
      assert w[j] == r[j];
      GetAt(r, j);
      GetAt(w, j);
    } else {
      forall f | f in w
        ensures f.0 != k
      {
        var j :| 0 <= j < |w| && w[j] == f;
        assert j != i ==> r[j] in r;
      }
      GetAbsent(r, k);
      GetAbsent(w, k);
    }
  }

  /** Writing what is there already changes nothing. */
  lemma PutSame(r: Record, key: string, v: Value)
    requires Keyed(r) && Has(r, key) && Get(r, key) == v
    ensures Put(r, key, v) == r
  {
    hide Get, Put;
    PutAt(r, key, v);
    var i :| 0 <= i < |r| && r[i].0 == key && Put(r, key, v) == r[i := (key, v)];
    GetAt(r, i);
  }
}
