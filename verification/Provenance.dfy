/**
 Canonical form and hash preimage: app/core/provenance.py.

 Dictionaries have text keys, each once. A float is the text json.dumps prints for it. SHA-256 is not
 modelled: `Preimage` is the text that is hashed.
 */
module Provenance {
  import opened Text
  import opened Ordering
  import opened Decimals

  datatype Decimal = Decimal(negative: bool, coeff: nat, exp: int)

  datatype Value =
    | Null
    | Bool(b: bool)
    | Int(n: int)
    | Float(repr: string)
    | Dec(d: Decimal)
    | Date(iso: string)
    | Str(text: string)
    | List(items: seq<Value>)
    | Dict(fields: seq<Field>)

  datatype Field = Field(key: string, value: Value)

  // ---------- decimals ----------

  /** Decimal.normalize(): trailing zeros of the coefficient go into the exponent, a zero gets exponent 0 */
  function Normalised(d: Decimal): Decimal
    decreases d.coeff
  {
    if d.coeff == 0 then Decimal(d.negative, 0, 0)
    else if d.coeff % 10 == 0 then Normalised(Decimal(d.negative, d.coeff / 10, d.exp + 1))
    else d
  }

  function Zeros(n: nat): (s: string)
    ensures |s| == n
  {
    seq(n, i => '0')
  }

  /** format(d, "f") */
  function Plain(d: Decimal): string {
    var digits := Natural(d.coeff);
    (if d.negative then "-" else "")
    + (if d.exp >= 0 then digits + Zeros(d.exp)
       else if |digits| > -d.exp then digits[..|digits| + d.exp] + "." + digits[|digits| + d.exp..]
       else "0." + Zeros(-d.exp - |digits|) + digits)
  }

  function DecimalText(d: Decimal): string {
    Plain(Normalised(d))
  }

  /** The same number written with `k` more trailing zeros. */
  function Padding(d: Decimal, k: nat): Decimal
    decreases k
  {
    if k == 0 then d else Padding(Decimal(d.negative, 10 * d.coeff, d.exp - 1), k - 1)
  }

  lemma {:induction false} PaddingNormalised(d: Decimal, k: nat)
    ensures Normalised(Padding(d, k)) == Normalised(d)
    decreases k
  {
    if k > 0 {
      var e := Decimal(d.negative, 10 * d.coeff, d.exp - 1);
      PaddingNormalised(e, k - 1);
      assert e.coeff % 10 == 0 && e.coeff / 10 == d.coeff;
    }
  }

  // ---------- the canonical tree ----------

  predicate Volatile(key: string) {
    StartsWith(key, "_volatile")
  }

  function Keys(fields: seq<Field>): set<string> {
    set f | f in fields && !Volatile(f.key) :: f.key
  }

  /** Position of the last field with the key. */
  function Position(fields: seq<Field>, key: string): (i: nat)
    requires key in Keys(fields)
    ensures i < |fields| && fields[i].key == key
  {
    var n := |fields| - 1;
    if fields[n].key == key then n
    else
      assert fields == fields[..n] + [fields[n]];
      Position(fields[..n], key)
  }

  /** _stable */
  function Stable(v: Value): Value {
    match v
    case Dec(d) => Str(DecimalText(d))
    case Date(iso) => Str(iso)
    case Dict(fields) => Dict(StableFields(fields, SortedStrings(Keys(fields))))
    case List(items) => List(StableItems(items))
    case _ => v
  }

  function StableItems(items: seq<Value>): (r: seq<Value>)
    ensures |r| == |items|
  {
    if items == [] then [] else [Stable(items[0])] + StableItems(items[1..])
  }

  function StableFields(fields: seq<Field>, keys: seq<string>): (r: seq<Field>)
    requires forall k | k in keys :: k in Keys(fields)
    ensures |r| == |keys| && forall i | 0 <= i < |keys| :: r[i].key == keys[i]
    decreases fields, |keys|
  {
    if keys == [] then []
    else
      assert keys[0] in keys && forall k | k in keys[1..] :: k in keys;
      [Field(keys[0], Stable(fields[Position(fields, keys[0])].value))] + StableFields(fields, keys[1..])
  }

  /** Every dictionary has each key once, as a Python dictionary does. */
  ghost predicate WellFormed(v: Value) {
    match v
    case Float(repr) => FloatText(repr)
    case List(items) => forall i | 0 <= i < |items| :: WellFormed(items[i])
    case Dict(fields) =>
      && (forall i, j | 0 <= i < j < |fields| :: fields[i].key != fields[j].key)
      && forall i | 0 <= i < |fields| :: WellFormed(fields[i].value)
    case _ => true
  }

  ghost predicate StrictlySorted(fields: seq<Field>) {
    forall i, j | 0 <= i < j < |fields| :: StrLeq(fields[i].key, fields[j].key) && fields[i].key != fields[j].key
  }

  /** The trees that `Stable` produces: no decimals or dates, sorted keys, none volatile. */
  ghost predicate IsStable(v: Value) {
    match v
    case Dec(_) => false
    case Date(_) => false
    case Float(repr) => FloatText(repr)
    case List(items) => forall i | 0 <= i < |items| :: IsStable(items[i])
    case Dict(fields) =>
      && StrictlySorted(fields)
      && forall i | 0 <= i < |fields| :: !Volatile(fields[i].key) && IsStable(fields[i].value)
    case _ => true
  }

  lemma {:induction false} StableIsStable(v: Value)
    requires WellFormed(v)
    ensures IsStable(Stable(v))
    decreases v
  {
    hide Plain, Normalised, DecimalText, StableItems, StableFields, FloatText, StrLeq, Keys;
    match v {
      case List(items) => ItemsStable(items);
      case Dict(fields) => FieldsStable(fields, SortedStrings(Keys(fields)));
      case _ =>
    }
  }

  lemma {:induction false} ItemsStable(items: seq<Value>)
    requires forall i | 0 <= i < |items| :: WellFormed(items[i])
    ensures forall i | 0 <= i < |items| :: IsStable(StableItems(items)[i])
    decreases items
  {
    if items != [] {
      StableIsStable(items[0]);
      ItemsStable(items[1..]);
    }
  }

  lemma {:induction false} FieldsStable(fields: seq<Field>, keys: seq<string>)
    requires forall i | 0 <= i < |fields| :: WellFormed(fields[i].value)
    requires forall k | k in keys :: k in Keys(fields)
    ensures forall i | 0 <= i < |keys| ::
      !Volatile(StableFields(fields, keys)[i].key) && IsStable(StableFields(fields, keys)[i].value)
    decreases fields, |keys|
  {
    if keys != [] {
      assert keys[0] in keys && forall k | k in keys[1..] :: k in keys;
      StableIsStable(fields[Position(fields, keys[0])].value);
      FieldsStable(fields, keys[1..]);
    }
  }

  // ---------- idempotence ----------

  /** A stable tree is its own canonical form. */
  lemma {:induction false} StableFixed(v: Value)
    requires IsStable(v)
    ensures Stable(v) == v
    decreases v
  {
    match v {
      case List(items) => ItemsFixed(items);
      case Dict(fields) =>
        var names := Names(fields);
        NamesAreKeys(fields);
        StrOrder();
        EnumerationUnique(SortedStrings(Keys(fields)), names, Keys(fields), StrLeq);
        forall i | 0 <= i < |fields|
          ensures fields[i].key in Keys(fields) && Position(fields, fields[i].key) == i
        {
          PositionIs(fields, i);
        }
        assert names[0..] == names && fields[0..] == fields;
        FieldsFixed(fields, names, 0);
      case _ =>
    }
  }

  function Names(fields: seq<Field>): seq<string> {
    seq(|fields|, i requires 0 <= i < |fields| => fields[i].key)
  }

  lemma NamesAreKeys(fields: seq<Field>)
    requires StrictlySorted(fields) && forall i | 0 <= i < |fields| :: !Volatile(fields[i].key)
    ensures Enumerates(Names(fields), Keys(fields), StrLeq)
  {
    hide Volatile;
    var names := Names(fields);
    forall x
      ensures x in names <==> x in Keys(fields)
    {
      if x in names {
        var i :| 0 <= i < |names| && names[i] == x;
        assert fields[i] in fields;
      }
      if x in Keys(fields) {
        var f :| f in fields && f.key == x;
        var i :| 0 <= i < |fields| && fields[i] == f;
        assert names[i] == x;
      }
    }
  }

  lemma {:induction false} ItemsFixed(items: seq<Value>)
    requires forall i | 0 <= i < |items| :: IsStable(items[i])
    ensures StableItems(items) == items
    decreases items
  {
    if items != [] {
      StableFixed(items[0]);
      ItemsFixed(items[1..]);
      assert items == [items[0]] + items[1..];
    }
  }

  lemma {:induction false} PositionIs(fields: seq<Field>, i: nat)
    requires i < |fields| && !Volatile(fields[i].key)
    requires forall a, b | 0 <= a < b < |fields| :: fields[a].key != fields[b].key
    ensures fields[i] in fields && fields[i].key in Keys(fields) && Position(fields, fields[i].key) == i
  {
    hide Volatile;
    assert fields[i] in fields;
    assert fields[i].key in Keys(fields);
  }

  ghost predicate Positioned(fields: seq<Field>) {
    forall i | 0 <= i < |fields| :: fields[i].key in Keys(fields) && Position(fields, fields[i].key) == i
  }

  lemma FieldsStep(fields: seq<Field>, keys: seq<string>, i: nat)
    requires Positioned(fields) && i < |fields| && keys != [] && keys[0] == fields[i].key
    requires forall k | k in keys :: k in Keys(fields)
    requires Stable(fields[i].value) == fields[i].value && StableFields(fields, keys[1..]) == fields[i + 1..]
    ensures StableFields(fields, keys) == fields[i..]
  {
    hide Volatile, Stable, Position, Keys;
    var f := fields[i];
    assert Position(fields, f.key) == i;
    assert Field(keys[0], Stable(fields[Position(fields, keys[0])].value)) == f;
    assert fields[i..] == [f] + fields[i + 1..];
  }

  lemma {:induction false} FieldsFixed(fields: seq<Field>, keys: seq<string>, from: nat)
    requires from <= |fields| && Positioned(fields) && keys == Names(fields)[from..]
    requires forall i | 0 <= i < |fields| :: IsStable(fields[i].value)
    ensures forall k | k in keys :: k in Keys(fields)
    ensures StableFields(fields, keys) == fields[from..]
    decreases fields, |fields| - from
  {
    hide Volatile, Stable, IsStable, Keys, Position, StableFields;
    if from < |fields| {
      StableFixed(fields[from].value);
      FieldsFixed(fields, keys[1..], from + 1);
      assert keys[0] == fields[from].key && forall k | k in keys :: k == keys[0] || k in keys[1..];
      FieldsStep(fields, keys, from);
    } else {
      NoFields(fields);
    }
  }

  lemma NoFields(fields: seq<Field>)
    ensures StableFields(fields, []) == []
  {}

  /** Canonicalising twice is canonicalising once. */
  lemma StableIdempotent(v: Value)
    requires WellFormed(v)
    ensures Stable(Stable(v)) == Stable(v)
  {
    StableIsStable(v);
    StableFixed(Stable(v));
  }

  // ---------- what the canonical form does not see ----------

  /** Equal up to key order, volatile keys and trailing zeros of decimals, at any depth. */
  ghost predicate Alike(a: Value, b: Value)
    decreases a
  {
    match (a, b)
    case (Dec(x), Dec(y)) => exists k: nat :: Padding(x, k) == y || Padding(y, k) == x
    case (List(xs), List(ys)) => |xs| == |ys| && forall i | 0 <= i < |xs| :: Alike(xs[i], ys[i])
    case (Dict(fs), Dict(gs)) =>
      && Keys(fs) == Keys(gs)
      && forall i, j | 0 <= i < |fs| && 0 <= j < |gs| && fs[i].key == gs[j].key && !Volatile(fs[i].key) ::
           Alike(fs[i].value, gs[j].value)
    case _ => a == b
  }

  lemma {:induction false} AlikeSameStable(a: Value, b: Value)
    requires Alike(a, b)
    ensures Stable(a) == Stable(b)
    decreases a
  {
    match (a, b) {
      case (Dec(x), Dec(y)) =>
        var k: nat :| Padding(x, k) == y || Padding(y, k) == x;
        PaddingNormalised(x, k);
        PaddingNormalised(y, k);
      case (List(xs), List(ys)) => AlikeItems(xs, ys);
      case (Dict(fs), Dict(gs)) => AlikeFields(fs, gs, SortedStrings(Keys(fs)));
      case _ =>
    }
  }

  lemma {:induction false} AlikeItems(xs: seq<Value>, ys: seq<Value>)
    requires |xs| == |ys| && forall i | 0 <= i < |xs| :: Alike(xs[i], ys[i])
    ensures StableItems(xs) == StableItems(ys)
    decreases xs
  {
    if xs != [] {
      AlikeSameStable(xs[0], ys[0]);
      AlikeItems(xs[1..], ys[1..]);
    }
  }

  lemma {:induction false} AlikeFields(fs: seq<Field>, gs: seq<Field>, keys: seq<string>)
    requires Keys(fs) == Keys(gs) && forall k | k in keys :: k in Keys(fs)
    requires forall i, j | 0 <= i < |fs| && 0 <= j < |gs| && fs[i].key == gs[j].key && !Volatile(fs[i].key) ::
      Alike(fs[i].value, gs[j].value)
    ensures StableFields(fs, keys) == StableFields(gs, keys)
    decreases fs, |keys|
  {
    hide Volatile;
    if keys != [] {
      var k := keys[0];
      assert k in keys && forall l | l in keys[1..] :: l in keys;
      var i, j := Position(fs, k), Position(gs, k);
      assert !Volatile(k) by { var f :| f in fs && !Volatile(f.key) && f.key == k; }
      AlikeSameStable(fs[i].value, gs[j].value);
      AlikeFields(fs, gs, keys[1..]);
    }
  }

  // ---------- the compact JSON text ----------

  function Hex(n: nat): char
    requires n < 16
  {
    if n < 10 then Digit(n) else ('a' as int + (n - 10)) as char
  }

  /** How json.dumps(ensure_ascii=False) writes one character of a text (RFC 8259, section 7). */
  function Escaped(c: char): string {
    if c == '"' then "\\\""
    else if c == '\\' then "\\\\"
    else if c == '\n' then "\\n"
    else if c == '\r' then "\\r"
    else if c == '\t' then "\\t"
    else if c as int == 8 then "\\b"
    else if c as int == 12 then "\\f"
    else if c as int < 32 then "\\u00" + [Hex(c as int / 16), Hex(c as int % 16)]
    else [c]
  }

  function EscapedText(s: string): string {
    if s == "" then "" else Escaped(s[0]) + EscapedText(s[1..])
  }

  function IntText(n: int): string {
    if n < 0 then "-" + Natural(-n) else Natural(n)
  }

  function Quoted(s: string): string {
    "\"" + EscapedText(s) + "\""
  }

  /** The text of a stable tree; dates and decimals do not occur in one. */
  function Json(v: Value): string {
    match v
    case Null => "null"
    case Bool(b) => if b then "true" else "false"
    case Int(n) => IntText(n)
    case Float(repr) => repr
    case Str(text) => Quoted(text)
    case Dec(_) => ""
    case Date(_) => ""
    case List(items) => "[" + ListBody(items)
    case Dict(fields) => "{" + DictBody(fields)
  }

  function ListBody(items: seq<Value>): string {
    if items == [] then "]" else Json(items[0]) + ListTail(items[1..])
  }

  /** The items after the first, and the closing bracket. */
  function ListTail(items: seq<Value>): string {
    if items == [] then "]" else "," + (Json(items[0]) + ListTail(items[1..]))
  }

  function Member(f: Field): string {
    Quoted(f.key) + (":" + Json(f.value))
  }

  function DictBody(fields: seq<Field>): string {
    if fields == [] then "}" else Member(fields[0]) + DictTail(fields[1..])
  }

  function DictTail(fields: seq<Field>): string {
    if fields == [] then "}" else "," + (Member(fields[0]) + DictTail(fields[1..]))
  }

  /** The text that is hashed. */
  function Preimage(v: Value): string {
    Json(Stable(v))
  }

  // ---------- the text determines the tree ----------

  predicate TokenChar(c: char) {
    c != ',' && c != ']' && c != '}' && c != '"' && c != '[' && c != '{' && c != ':'
  }

  predicate AllTokenChars(s: string) {
    forall i | 0 <= i < |s| :: TokenChar(s[i])
  }

  predicate IntChar(c: char) {
    '0' <= c <= '9' || c == '-'
  }

  /** A float as json.dumps prints it: it starts like a number, NaN or Infinity, and has a character no integer has. */
  predicate FloatText(s: string) {
    && s != "" && (IntChar(s[0]) || s[0] == 'N' || s[0] == 'I')
    && AllTokenChars(s)
    && exists i | 0 <= i < |s| :: !IntChar(s[i])
  }

  predicate Closes(x: string) {
    x == "" || x[0] == ',' || x[0] == ']' || x[0] == '}'
  }

  predicate Scalar(v: Value) {
    v.Null? || v.Bool? || v.Int? || v.Float?
  }

  lemma IntTextChars(n: int)
    ensures forall i | 0 <= i < |IntText(n)| :: IntChar(IntText(n)[i])
    ensures IntText(n) != ""
  {
    NaturalDigits(if n < 0 then -n else n);
  }

  lemma {:induction false} NaturalInjective(a: nat, b: nat)
    requires Natural(a) == Natural(b)
    ensures a == b
  {
    hide Natural;
    NaturalLastDigit(a);
    NaturalLastDigit(b);
    if a >= 10 && b >= 10 {
      NaturalInjective(a / 10, b / 10);
    }
  }

  lemma NaturalLastDigit(n: nat)
    ensures var s := Natural(n);
      s != "" && s[|s| - 1] == Digit(n % 10) && (n < 10 <==> |s| == 1) && (n >= 10 ==> s[..|s| - 1] == Natural(n / 10))
    ensures Digit(n % 10) as int == '0' as int + n % 10
  {}

  lemma IntSign(n: int)
    ensures IntText(n) != "" && (IntText(n)[0] == '-' <==> n < 0)
  {
    NaturalDigits(if n < 0 then -n else n);
  }

  lemma IntTextInjective(a: int, b: int)
    requires IntText(a) == IntText(b)
    ensures a == b
  {
    IntSign(a);
    IntSign(b);
    if a < 0 && b < 0 {
      assert IntText(a)[1..] == Natural(-a) && IntText(b)[1..] == Natural(-b);
      NaturalInjective(-a, -b);
    } else if a >= 0 && b >= 0 {
      NaturalInjective(a, b);
    }
  }

  lemma ScalarText(v: Value)
    requires IsStable(v) && Scalar(v)
    ensures Json(v) != "" && AllTokenChars(Json(v))
    ensures v.Null? ==> Json(v)[0] == 'n'
    ensures v.Bool? ==> Json(v)[0] == if v.b then 't' else 'f'
    ensures v.Int? || v.Float? ==> IntChar(Json(v)[0]) || Json(v)[0] == 'N' || Json(v)[0] == 'I'
  {
    hide Natural;
    if v.Int? { IntTextChars(v.n); }
  }

  lemma ScalarInjective(a: Value, b: Value)
    requires IsStable(a) && IsStable(b) && Scalar(a) && Scalar(b) && Json(a) == Json(b)
    ensures a == b
  {
    hide Natural, IntText;
    ScalarText(a);
    ScalarText(b);
    if a.Int? { IntTextChars(a.n); }
    if b.Int? { IntTextChars(b.n); }
    if a.Int? && b.Int? { IntTextInjective(a.n, b.n); }
  }

  /** Two tokens followed by something that closes them are equal when the whole texts are. */
  lemma {:induction false} TokenSplit(s: string, t: string, x: string, y: string)
    requires AllTokenChars(s) && AllTokenChars(t) && Closes(x) && Closes(y) && s + x == t + y
    ensures s == t && x == y
  {
    TokenHead(s, x);
    TokenHead(t, y);
    if s != "" && t != "" {
      assert (s + x)[1..] == s[1..] + x && (t + y)[1..] == t[1..] + y;
      TokenSplit(s[1..], t[1..], x, y);
      assert s == [s[0]] + s[1..] && t == [t[0]] + t[1..];
    }
  }

  /** A token followed by something that closes it starts with a token character exactly when it is not empty. */
  lemma TokenHead(s: string, x: string)
    requires AllTokenChars(s) && Closes(x)
    ensures s + x != "" && TokenChar((s + x)[0]) <==> s != ""
    ensures s != "" ==> (s + x)[0] == s[0]
    ensures s == "" ==> s + x == x
  {}

  /** Escapes are prefix-free: the escaped text says where its first character ends. */
  lemma EscapedSplit(c: char, d: char, x: string, y: string)
    requires Escaped(c) + x == Escaped(d) + y
    ensures c == d && x == y
  {
    var s := Escaped(c) + x;
    assert s[0] == Escaped(c)[0] == Escaped(d)[0];
    assert s[1..] == Escaped(c)[1..] + x && s[1..] == Escaped(d)[1..] + y;
    if s[0] == '\\' {
      assert s[1] == Escaped(c)[1] == Escaped(d)[1];
      if s[1] == 'u' {
        ControlEscape(c);
        ControlEscape(d);
        assert s[4] == Escaped(c)[4] == Escaped(d)[4] && s[5] == Escaped(c)[5] == Escaped(d)[5];
        HexInjective(c as int / 16, d as int / 16);
        HexInjective(c as int % 16, d as int % 16);
      }
    }
    SameHead(c, x, y);
  }

  lemma ControlEscape(c: char)
    requires |Escaped(c)| >= 2 && Escaped(c)[1] == 'u'
    ensures c as int < 32 && |Escaped(c)| == 6
    ensures Escaped(c)[4] == Hex(c as int / 16) && Escaped(c)[5] == Hex(c as int % 16)
  {}

  lemma HexInjective(a: nat, b: nat)
    requires a < 16 && b < 16 && Hex(a) == Hex(b)
    ensures a == b
  {}

  lemma SameHead(c: char, x: string, y: string)
    ensures Escaped(c) + x == Escaped(c) + y ==> x == y
  {
    hide Escaped;
    var p := Escaped(c);
    if p + x == p + y {
      assert (p + x)[|p|..] == x && (p + y)[|p|..] == y;
    }
  }

  lemma EscapedHead(c: char)
    ensures Escaped(c) != "" && Escaped(c)[0] != '"'
  {}

  /** A quoted text ends at its first unescaped quote, so it determines the text and what follows. */
  lemma {:induction false} TextSplit(s: string, t: string, x: string, y: string)
    requires EscapedText(s) + "\"" + x == EscapedText(t) + "\"" + y
    ensures s == t && x == y
  {
    hide Escaped;
    TextHead(s, x);
    TextHead(t, y);
    if s == "" || t == "" {
      assert ("\"" + x)[1..] == x && ("\"" + y)[1..] == y;
    } else {
      EscapedSplit(s[0], t[0], EscapedText(s[1..]) + "\"" + x, EscapedText(t[1..]) + "\"" + y);
      TextSplit(s[1..], t[1..], x, y);
      assert s == [s[0]] + s[1..] && t == [t[0]] + t[1..];
    }
  }

  lemma TextHead(s: string, x: string)
    ensures var full := EscapedText(s) + "\"" + x;
      && full != "" && (full[0] == '"' <==> s == "")
      && (s == "" ==> full == "\"" + x)
      && (s != "" ==> full == Escaped(s[0]) + (EscapedText(s[1..]) + "\"" + x))
  {
    hide Escaped;
    if s == "" {
      assert "" + "\"" + x == "\"" + x;
    } else {
      EscapedHead(s[0]);
      assert Escaped(s[0]) + EscapedText(s[1..]) + "\"" + x == Escaped(s[0]) + (EscapedText(s[1..]) + "\"" + x);
    }
  }

  lemma QuotedSplit(s: string, t: string, x: string, y: string)
    requires Quoted(s) + x == Quoted(t) + y
    ensures s == t && x == y
  {
    hide EscapedText;
    assert Quoted(s) + x == "\"" + (EscapedText(s) + "\"" + x);
    assert Quoted(t) + y == "\"" + (EscapedText(t) + "\"" + y);
    assert ("\"" + (EscapedText(s) + "\"" + x))[1..] == EscapedText(s) + "\"" + x;
    assert ("\"" + (EscapedText(t) + "\"" + y))[1..] == EscapedText(t) + "\"" + y;
    TextSplit(s, t, x, y);
  }

  /** What the first character of a value's text says. */
  lemma JsonHead(v: Value)
    requires IsStable(v)
    ensures var s := Json(v);
      && s != "" && s[0] != ']' && s[0] != '}' && s[0] != ','
      && (v.Str? <==> s[0] == '"') && (v.List? <==> s[0] == '[') && (v.Dict? <==> s[0] == '{')
  {
    hide EscapedText, ListBody, DictBody, Natural;
    if Scalar(v) { ScalarText(v); }
  }

  lemma Rest(a: string, b: string, x: string)
    ensures (a + b) + x == a + (b + x)
  {}

  lemma Drop(p: string, x: string, y: string)
    requires p + x == p + y
    ensures x == y
  {
    assert (p + x)[|p|..] == x && (p + y)[|p|..] == y;
  }

  ghost predicate AllStable(items: seq<Value>) {
    forall i | 0 <= i < |items| :: IsStable(items[i])
  }

  ghost predicate AllStableFields(fields: seq<Field>) {
    forall i | 0 <= i < |fields| :: IsStable(fields[i].value)
  }

  /**
   The compact text is a prefix code on stable trees: whatever follows, as long as it closes a value, the
   tree and the rest can be told apart.
   */
  lemma {:induction false} JsonSplit(a: Value, b: Value, x: string, y: string)
    requires IsStable(a) && IsStable(b) && Closes(x) && Closes(y)
    requires Json(a) + x == Json(b) + y
    ensures a == b && x == y
    decreases a, 1
  {
    hide Json, Quoted, Closes;
    JsonHead(a);
    JsonHead(b);
    assert (Json(a) + x)[0] == Json(a)[0] && (Json(b) + y)[0] == Json(b)[0];
    if a.Str? {
      StrText(a);
      StrText(b);
      QuotedSplit(a.text, b.text, x, y);
    } else if a.List? {
      ListText(a, x);
      ListText(b, y);
      Drop("[", ListBody(a.items) + x, ListBody(b.items) + y);
      ListBodySplit(a.items, b.items, x, y);
    } else if a.Dict? {
      DictText(a, x);
      DictText(b, y);
      Drop("{", DictBody(a.fields) + x, DictBody(b.fields) + y);
      DictBodySplit(a.fields, b.fields, x, y);
    } else {
      ScalarSplit(a, b, x, y);
    }
  }

  lemma ScalarSplit(a: Value, b: Value, x: string, y: string)
    requires IsStable(a) && IsStable(b) && Scalar(a) && Scalar(b) && Closes(x) && Closes(y)
    requires Json(a) + x == Json(b) + y
    ensures a == b && x == y
  {
    hide Json, Closes;
    ScalarText(a);
    ScalarText(b);
    TokenSplit(Json(a), Json(b), x, y);
    ScalarInjective(a, b);
  }

  lemma StrText(v: Value)
    requires v.Str?
    ensures Json(v) == Quoted(v.text)
  {}

  lemma ListText(v: Value, x: string)
    requires v.List?
    ensures Json(v) + x == "[" + (ListBody(v.items) + x)
  {}

  lemma DictText(v: Value, x: string)
    requires v.Dict?
    ensures Json(v) + x == "{" + (DictBody(v.fields) + x)
  {}

  lemma ListBodyHead(items: seq<Value>, x: string)
    requires AllStable(items)
    ensures var s := ListBody(items) + x;
      && s != "" && (s[0] == ']' <==> items == [])
      && (items == [] ==> s == "]" + x)
      && (items != [] ==> s == Json(items[0]) + (ListTail(items[1..]) + x))
  {
    hide Json, ListTail;
    if items != [] {
      JsonHead(items[0]);
      Rest(Json(items[0]), ListTail(items[1..]), x);
    }
  }

  lemma ListTailHead(items: seq<Value>, x: string)
    ensures var s := ListTail(items) + x;
      && s != "" && Closes(s) && (s[0] == ']' <==> items == [])
      && (items == [] ==> s == "]" + x)
      && (items != [] ==> s == "," + (Json(items[0]) + (ListTail(items[1..]) + x)))
  {
    hide Json;
    if items != [] {
      Rest(",", Json(items[0]) + ListTail(items[1..]), x);
      Rest(Json(items[0]), ListTail(items[1..]), x);
    }
  }

  lemma {:induction false} ListBodySplit(as_: seq<Value>, bs: seq<Value>, x: string, y: string)
    requires AllStable(as_) && AllStable(bs) && ListBody(as_) + x == ListBody(bs) + y
    ensures as_ == bs && x == y
    decreases as_, 2
  {
    hide Json, ListBody, ListTail, IsStable, Closes;
    ListBodyHead(as_, x);
    ListBodyHead(bs, y);
    if as_ == [] {
      Drop("]", x, y);
    } else {
      ListTailHead(as_[1..], x);
      ListTailHead(bs[1..], y);
      JsonSplit(as_[0], bs[0], ListTail(as_[1..]) + x, ListTail(bs[1..]) + y);
      ListTailSplit(as_[1..], bs[1..], x, y);
      assert as_ == [as_[0]] + as_[1..] && bs == [bs[0]] + bs[1..];
    }
  }

  lemma {:induction false} ListTailSplit(as_: seq<Value>, bs: seq<Value>, x: string, y: string)
    requires AllStable(as_) && AllStable(bs) && ListTail(as_) + x == ListTail(bs) + y
    ensures as_ == bs && x == y
    decreases as_, 2
  {
    hide Json, ListTail, IsStable, Closes;
    ListTailHead(as_, x);
    ListTailHead(bs, y);
    if as_ == [] {
      Drop("]", x, y);
    } else {
      Drop(",", Json(as_[0]) + (ListTail(as_[1..]) + x), Json(bs[0]) + (ListTail(bs[1..]) + y));
      ListTailHead(as_[1..], x);
      ListTailHead(bs[1..], y);
      JsonSplit(as_[0], bs[0], ListTail(as_[1..]) + x, ListTail(bs[1..]) + y);
      ListTailSplit(as_[1..], bs[1..], x, y);
      assert as_ == [as_[0]] + as_[1..] && bs == [bs[0]] + bs[1..];
    }
  }

  lemma MemberText(f: Field, rest: string)
    ensures Member(f) + rest == Quoted(f.key) + (":" + (Json(f.value) + rest))
    ensures Member(f) != "" && Member(f)[0] == '"'
  {
    hide Json, EscapedText;
    Rest(Quoted(f.key), ":" + Json(f.value), rest);
    Rest(":", Json(f.value), rest);
  }

  lemma {:induction false} MemberSplit(f: Field, g: Field, x: string, y: string)
    requires IsStable(f.value) && IsStable(g.value) && Closes(x) && Closes(y) && Member(f) + x == Member(g) + y
    ensures f == g && x == y
    decreases f, 1
  {
    hide Json, Quoted, IsStable, Closes, Member;
    MemberText(f, x);
    MemberText(g, y);
    QuotedSplit(f.key, g.key, ":" + (Json(f.value) + x), ":" + (Json(g.value) + y));
    Drop(":", Json(f.value) + x, Json(g.value) + y);
    JsonSplit(f.value, g.value, x, y);
  }

  lemma DictBodyHead(fields: seq<Field>, x: string)
    ensures var s := DictBody(fields) + x;
      && s != "" && (s[0] == '}' <==> fields == [])
      && (fields == [] ==> s == "}" + x)
      && (fields != [] ==> s == Member(fields[0]) + (DictTail(fields[1..]) + x))
  {
    hide Member, DictTail;
    if fields != [] {
      MemberText(fields[0], "");
      Rest(Member(fields[0]), DictTail(fields[1..]), x);
    }
  }

  lemma DictTailHead(fields: seq<Field>, x: string)
    ensures var s := DictTail(fields) + x;
      && s != "" && Closes(s) && (s[0] == '}' <==> fields == [])
      && (fields == [] ==> s == "}" + x)
      && (fields != [] ==> s == "," + (Member(fields[0]) + (DictTail(fields[1..]) + x)))
  {
    hide Member;
    if fields != [] {
      Rest(",", Member(fields[0]) + DictTail(fields[1..]), x);
      Rest(Member(fields[0]), DictTail(fields[1..]), x);
    }
  }

  lemma {:induction false} DictBodySplit(fs: seq<Field>, gs: seq<Field>, x: string, y: string)
    requires AllStableFields(fs) && AllStableFields(gs) && DictBody(fs) + x == DictBody(gs) + y
    ensures fs == gs && x == y
    decreases fs, 2
  {
    hide Member, DictBody, DictTail, IsStable, Closes;
    DictBodyHead(fs, x);
    DictBodyHead(gs, y);
    if fs == [] {
      Drop("}", x, y);
    } else {
      DictTailHead(fs[1..], x);
      DictTailHead(gs[1..], y);
      MemberSplit(fs[0], gs[0], DictTail(fs[1..]) + x, DictTail(gs[1..]) + y);
      DictTailSplit(fs[1..], gs[1..], x, y);
      assert fs == [fs[0]] + fs[1..] && gs == [gs[0]] + gs[1..];
    }
  }

  lemma {:induction false} DictTailSplit(fs: seq<Field>, gs: seq<Field>, x: string, y: string)
    requires AllStableFields(fs) && AllStableFields(gs) && DictTail(fs) + x == DictTail(gs) + y
    ensures fs == gs && x == y
    decreases fs, 2
  {
    hide Member, DictTail, IsStable, Closes;
    DictTailHead(fs, x);
    DictTailHead(gs, y);
    if fs == [] {
      Drop("}", x, y);
    } else {
      Drop(",", Member(fs[0]) + (DictTail(fs[1..]) + x), Member(gs[0]) + (DictTail(gs[1..]) + y));
      DictTailHead(fs[1..], x);
      DictTailHead(gs[1..], y);
      MemberSplit(fs[0], gs[0], DictTail(fs[1..]) + x, DictTail(gs[1..]) + y);
      DictTailSplit(fs[1..], gs[1..], x, y);
      assert fs == [fs[0]] + fs[1..] && gs == [gs[0]] + gs[1..];
    }
  }

  /** Two inputs are hashed from the same text exactly when their canonical trees are equal. */
  lemma PreimageIff(a: Value, b: Value)
    requires WellFormed(a) && WellFormed(b)
    ensures Preimage(a) == Preimage(b) <==> Stable(a) == Stable(b)
  {
    hide Json, Stable, IsStable;
    if Preimage(a) == Preimage(b) {
      StableIsStable(a);
      StableIsStable(b);
      var s, t := Json(Stable(a)), Json(Stable(b));
      assert s + "" == s && t + "" == t;
      JsonSplit(Stable(a), Stable(b), "", "");
    }
  }

  /** Key order, volatile keys and trailing zeros do not reach the hash, at any depth. */
  lemma AlikeSamePreimage(a: Value, b: Value)
    requires Alike(a, b)
    ensures Preimage(a) == Preimage(b)
  {
    AlikeSameStable(a, b);
  }

  /** The canonical form also forgets types: a decimal one and the text "1" share a preimage. */
  lemma DecimalAndTextCollide()
    ensures Preimage(Dec(Decimal(false, 1, 0))) == Preimage(Str("1"))
    ensures Preimage(Dec(Decimal(false, 10, -1))) == Preimage(Str("1"))
  {
    assert Natural(1) == "1";
    assert Normalised(Decimal(false, 1, 0)) == Decimal(false, 1, 0);
    assert Normalised(Decimal(false, 10, -1)) == Normalised(Decimal(false, 1, 0));
    assert Plain(Decimal(false, 1, 0)) == "1";
  }

  // ---------- exactly what the preimage does not tell apart ----------

  lemma {:induction false} PaddingAdds(d: Decimal, j: nat, k: nat)
    ensures Padding(Padding(d, j), k) == Padding(d, j + k)
    decreases j
  {
    if j > 0 { PaddingAdds(Decimal(d.negative, 10 * d.coeff, d.exp - 1), j - 1, k); }
  }

  /** A nonzero decimal is its normal form with some trailing zeros. */
  lemma {:induction false} NormalisedPadded(d: Decimal) returns (k: nat)
    requires d.coeff != 0
    ensures Padding(Normalised(d), k) == d
    decreases d.coeff
  {
    if d.coeff % 10 == 0 {
      var e := Decimal(d.negative, d.coeff / 10, d.exp + 1);
      var j := NormalisedPadded(e);
      PaddingAdds(Normalised(e), j, 1);
      assert Padding(e, 1) == Padding(d, 0);
      k := j + 1;
    } else {
      k := 0;
    }
  }

  lemma {:induction false} ZeroPadded(negative: bool, exp: int, k: nat)
    ensures Padding(Decimal(negative, 0, exp), k) == Decimal(negative, 0, exp - k)
    decreases k
  {
    if k > 0 { ZeroPadded(negative, exp - 1, k - 1); }
  }

  lemma {:induction false} NormalisedShape(d: Decimal)
    ensures var n := Normalised(d);
      n.negative == d.negative && (n.coeff == 0 <==> d.coeff == 0) && IsNormal(n)
    decreases d.coeff
  {
    if d.coeff != 0 && d.coeff % 10 == 0 { NormalisedShape(Decimal(d.negative, d.coeff / 10, d.exp + 1)); }
  }

  predicate IsNormal(d: Decimal) {
    if d.coeff == 0 then d.exp == 0 else d.coeff % 10 != 0
  }

  /** One is the other with more trailing zeros. */
  ghost predicate SameDecimal(x: Decimal, y: Decimal) {
    exists k: nat :: Padding(x, k) == y || Padding(y, k) == x
  }

  lemma SameNormalForm(x: Decimal, y: Decimal)
    requires Normalised(x) == Normalised(y)
    ensures SameDecimal(x, y)
  {
    hide Padding, Normalised;
    NormalisedShape(x);
    NormalisedShape(y);
    if x.coeff == 0 {
      if x.exp >= y.exp { ZeroPadded(x.negative, x.exp, x.exp - y.exp); } else { ZeroPadded(y.negative, y.exp, y.exp - x.exp); }
    } else {
      var n := Normalised(x);
      var j := NormalisedPadded(x);
      var k := NormalisedPadded(y);
      if j <= k { PaddingAdds(n, j, k - j); } else { PaddingAdds(n, k, j - k); }
    }
  }

  lemma ZerosLast(a: string, j: nat)
    requires a != ""
    ensures var s := a + Zeros(j);
      s[|s| - 1] == (if j == 0 then a[|a| - 1] else '0') && (j == 0 ==> s == a)
  {}

  lemma ZerosFirst(a: string, j: nat)
    requires a != ""
    ensures var s := Zeros(j) + a;
      s[0] == (if j == 0 then a[0] else '0') && (j == 0 ==> s == a)
  {}

  /** A text that ends in no zero, and how many zeros follow it. */
  lemma {:induction false} TrailingZeros(a: string, b: string, j: nat, k: nat)
    requires a != "" && b != "" && a[|a| - 1] != '0' && b[|b| - 1] != '0' && a + Zeros(j) == b + Zeros(k)
    ensures j == k && a == b
  {
    var s := a + Zeros(j);
    if j > 0 && k > 0 {
      assert s[..|s| - 1] == a + Zeros(j - 1) && s[..|s| - 1] == b + Zeros(k - 1);
      TrailingZeros(a, b, j - 1, k - 1);
    } else {
      ZerosLast(a, j);
      ZerosLast(b, k);
    }
  }

  lemma {:induction false} LeadingZeros(a: string, b: string, j: nat, k: nat)
    requires a != "" && b != "" && a[0] != '0' && b[0] != '0' && Zeros(j) + a == Zeros(k) + b
    ensures a == b
  {
    var s := Zeros(j) + a;
    if j > 0 && k > 0 {
      assert s[1..] == Zeros(j - 1) + a && s[1..] == Zeros(k - 1) + b;
      LeadingZeros(a, b, j - 1, k - 1);
    } else {
      ZerosFirst(a, j);
      ZerosFirst(b, k);
    }
  }

  lemma {:induction false} NaturalHead(n: nat)
    requires n > 0
    ensures Natural(n)[0] != '0'
  {
    if n >= 10 { NaturalHead(n / 10); }
  }

  function Minus(negative: bool): string {
    if negative then "-" else ""
  }

  /** The digits of a decimal with a point, zeros in front so that at least one stands before the point. */
  function Spread(d: Decimal): (s: string)
    requires d.exp < 0
    ensures |s| > -d.exp
  {
    var digits := Natural(d.coeff);
    Zeros(if |digits| > -d.exp then 0 else 1 - d.exp - |digits|) + digits
  }

  function Body(d: Decimal): string {
    if d.exp >= 0 then Natural(d.coeff) + Zeros(d.exp)
    else Spread(d)[..|Spread(d)| + d.exp] + ['.'] + Spread(d)[|Spread(d)| + d.exp..]
  }

  lemma PlainIs(d: Decimal)
    ensures Plain(d) == Minus(d.negative) + Body(d)
  {
    hide Natural;
    var digits := Natural(d.coeff);
    if d.exp < 0 {
      if |digits| > -d.exp {
        assert Spread(d) == digits;
      } else {
        var z := Zeros(1 - d.exp - |digits|);
        assert Spread(d) == z + digits && |Spread(d)| + d.exp == 1;
        assert Spread(d)[..1] == "0" && Spread(d)[1..] == Zeros(-d.exp - |digits|) + digits;
      }
    }
  }

  lemma SpreadDigits(d: Decimal)
    requires d.exp < 0
    ensures AsciiDigits(Spread(d))
  {
    NaturalDigits(d.coeff);
  }

  lemma BodyShape(d: Decimal)
    ensures Body(d) != "" && '0' <= Body(d)[0] <= '9'
    ensures '.' in Body(d) <==> d.exp < 0
  {
    hide Natural;
    NaturalDigits(d.coeff);
    if d.exp < 0 {
      SpreadDigits(d);
      assert Body(d)[|Spread(d)| + d.exp] == '.';
    } else {
      assert forall i | 0 <= i < |Body(d)| :: Body(d)[i] != '.';
    }
  }

  lemma PointSplit(a: string, b: string, c: string, d: string)
    requires '.' !in a && '.' !in b && '.' !in c && '.' !in d && a + ['.'] + b == c + ['.'] + d
    ensures a == c && b == d
  {
    var s := a + ['.'] + b;
    assert s[|a|] == '.' && s[|c|] == '.';
    assert forall i | 0 <= i < |a| :: s[i] == a[i] && a[i] in a;
    assert forall i | 0 <= i < |c| :: s[i] == c[i] && c[i] in c;
    assert |a| == |c|;
    assert s[..|a|] == a && s[..|c|] == c && s[|a| + 1..] == b && s[|c| + 1..] == d;
  }

  lemma WholeBodies(x: Decimal, y: Decimal)
    requires IsNormal(x) && IsNormal(y) && x.exp >= 0 && y.exp >= 0 && Body(x) == Body(y)
    ensures x.coeff == y.coeff && x.exp == y.exp
  {
    hide Natural;
    NaturalLastDigit(x.coeff);
    NaturalLastDigit(y.coeff);
    if x.coeff != 0 && y.coeff != 0 {
      TrailingZeros(Natural(x.coeff), Natural(y.coeff), x.exp, y.exp);
    } else {
      assert |Body(x)| == 1;
      assert x.exp == 0 && y.exp == 0 && Natural(x.coeff) + "" == Natural(x.coeff) && Natural(y.coeff) + "" == Natural(y.coeff);
    }
    NaturalInjective(x.coeff, y.coeff);
  }

  lemma PointBodies(x: Decimal, y: Decimal)
    requires IsNormal(x) && IsNormal(y) && x.exp < 0 && y.exp < 0 && Body(x) == Body(y)
    ensures x.coeff == y.coeff && x.exp == y.exp
  {
    hide Natural, Spread;
    var s, t := Spread(x), Spread(y);
    SpreadDigits(x);
    SpreadDigits(y);
    PointSplit(s[..|s| + x.exp], s[|s| + x.exp..], t[..|t| + y.exp], t[|t| + y.exp..]);
    assert s == s[..|s| + x.exp] + s[|s| + x.exp..] && t == t[..|t| + y.exp] + t[|t| + y.exp..];
    SameSpread(x, y);
  }

  lemma SameSpread(x: Decimal, y: Decimal)
    requires x.coeff > 0 && y.coeff > 0 && x.exp < 0 && y.exp < 0 && Spread(x) == Spread(y)
    ensures x.coeff == y.coeff
  {
    hide Natural;
    NaturalHead(x.coeff);
    NaturalHead(y.coeff);
    LeadingZeros(Natural(x.coeff), Natural(y.coeff), |Spread(x)| - |Natural(x.coeff)|, |Spread(y)| - |Natural(y.coeff)|);
    NaturalInjective(x.coeff, y.coeff);
  }

  /** Decimals are printed alike exactly when one is the other with more trailing zeros. */
  lemma DecimalTextIff(x: Decimal, y: Decimal)
    ensures DecimalText(x) == DecimalText(y) <==> SameDecimal(x, y)
  {
    hide Plain, Normalised, Padding, Body, SameDecimal;
    var a, b := Normalised(x), Normalised(y);
    if DecimalText(x) == DecimalText(y) {
      NormalisedShape(x);
      NormalisedShape(y);
      PlainIs(a);
      PlainIs(b);
      PlainSplit(a, b);
      SameNormalForm(x, y);
    }
    if SameDecimal(x, y) { PaddedPrintAlike(x, y); }
  }

  lemma PaddedPrintAlike(x: Decimal, y: Decimal)
    requires SameDecimal(x, y)
    ensures DecimalText(x) == DecimalText(y)
  {
    var k: nat :| Padding(x, k) == y || Padding(y, k) == x;
    PaddingNormalised(x, k);
    PaddingNormalised(y, k);
  }

  lemma PlainSplit(a: Decimal, b: Decimal)
    requires IsNormal(a) && IsNormal(b) && Minus(a.negative) + Body(a) == Minus(b.negative) + Body(b)
    ensures a == b
  {
    hide Body, IsNormal;
    BodyShape(a);
    BodyShape(b);
    var s := Minus(a.negative) + Body(a);
    assert a.negative == (s[0] == '-') && b.negative == (s[0] == '-');
    assert s[|Minus(a.negative)|..] == Body(a) && s[|Minus(b.negative)|..] == Body(b);
    if a.exp >= 0 { WholeBodies(a, b); } else { PointBodies(a, b); }
  }

  /** The text a leaf is hashed as, for those that are hashed as a text. */
  function LeafText(v: Value): Option<string> {
    match v
    case Dec(d) => Some(DecimalText(d))
    case Date(iso) => Some(iso)
    case Str(text) => Some(text)
    case _ => None
  }

  /**
   Equal up to key order, volatile keys and trailing zeros of decimals, and up to the difference between a text, a
   decimal printed as that text and a date written as that text; at any depth.
   */
  ghost predicate Indistinct(a: Value, b: Value)
    decreases a
  {
    match (a, b)
    case (Dec(x), Dec(y)) => SameDecimal(x, y)
    case (List(xs), List(ys)) => |xs| == |ys| && forall i | 0 <= i < |xs| :: Indistinct(xs[i], ys[i])
    case (Dict(fs), Dict(gs)) =>
      && Keys(fs) == Keys(gs)
      && forall i, j | 0 <= i < |fs| && 0 <= j < |gs| && fs[i].key == gs[j].key && !Volatile(fs[i].key) ::
           Indistinct(fs[i].value, gs[j].value)
    case _ => a == b || (LeafText(a).Some? && LeafText(a) == LeafText(b))
  }

  lemma {:induction false} IndistinctIff(a: Value, b: Value)
    requires WellFormed(a) && WellFormed(b)
    ensures Stable(a) == Stable(b) <==> Indistinct(a, b)
    decreases a
  {
    hide DecimalText, SameDecimal, StableItems, StableFields, Keys, Volatile, FloatText;
    match (a, b) {
      case (Dec(x), Dec(y)) => DecimalTextIff(x, y);
      case (List(xs), List(ys)) => IndistinctItems(xs, ys);
      case (Dict(fs), Dict(gs)) => IndistinctFields(fs, gs);
      case _ =>
    }
  }

  lemma {:induction false} IndistinctItems(xs: seq<Value>, ys: seq<Value>)
    requires (forall i | 0 <= i < |xs| :: WellFormed(xs[i])) && forall i | 0 <= i < |ys| :: WellFormed(ys[i])
    ensures StableItems(xs) == StableItems(ys) <==> |xs| == |ys| && forall i | 0 <= i < |xs| :: Indistinct(xs[i], ys[i])
    decreases xs
  {
    hide Stable, WellFormed, Indistinct;
    if xs != [] && ys != [] {
      IndistinctIff(xs[0], ys[0]);
      IndistinctItems(xs[1..], ys[1..]);
      assert StableItems(xs)[0] == Stable(xs[0]) && StableItems(xs)[1..] == StableItems(xs[1..]);
      assert StableItems(ys)[0] == Stable(ys[0]) && StableItems(ys)[1..] == StableItems(ys[1..]);
      assert forall i | 0 < i < |xs| :: xs[i] == xs[1..][i - 1];
      assert forall i | 0 < i < |ys| :: ys[i] == ys[1..][i - 1];
    }
  }

  /** The value under a key. */
  function ValueAt(fields: seq<Field>, key: string): Value
    requires key in Keys(fields)
  {
    fields[Position(fields, key)].value
  }

  lemma {:induction false} StableFieldsAt(fields: seq<Field>, keys: seq<string>, i: nat)
    requires i < |keys| && forall k | k in keys :: k in Keys(fields)
    ensures keys[i] in keys && StableFields(fields, keys)[i] == Field(keys[i], Stable(ValueAt(fields, keys[i])))
    decreases |keys|
  {
    hide Stable, Position, Keys;
    if i > 0 {
      assert forall k | k in keys[1..] :: k in keys;
      StableFieldsAt(fields, keys[1..], i - 1);
      StableFieldsTail(fields, keys);
    }
  }

  lemma StableFieldsTail(fields: seq<Field>, keys: seq<string>)
    requires keys != [] && forall k | k in keys :: k in Keys(fields)
    ensures (forall k | k in keys[1..] :: k in Keys(fields)) && StableFields(fields, keys)[1..] == StableFields(fields, keys[1..])
  {
    hide Stable, Position, Keys;
    assert forall k | k in keys[1..] :: k in keys;
  }

  ghost predicate SameValues(fs: seq<Field>, gs: seq<Field>)
    requires Keys(fs) == Keys(gs)
  {
    forall k | k in Keys(fs) :: Stable(ValueAt(fs, k)) == Stable(ValueAt(gs, k))
  }

  /** Canonical dictionaries are equal exactly when the keys are and each key has the same canonical value. */
  lemma StableFieldsIff(fs: seq<Field>, gs: seq<Field>)
    ensures StableFields(fs, SortedStrings(Keys(fs))) == StableFields(gs, SortedStrings(Keys(gs)))
      <==> Keys(fs) == Keys(gs) && SameValues(fs, gs)
  {
    hide Stable, Position, Keys, StableFields, StrLeq, SortedStrings;
    var ks, ls := SortedStrings(Keys(fs)), SortedStrings(Keys(gs));
    var a, b := StableFields(fs, ks), StableFields(gs, ls);
    forall i | 0 <= i < |ks|
      ensures a[i] == Field(ks[i], Stable(ValueAt(fs, ks[i])))
    {
      StableFieldsAt(fs, ks, i);
    }
    forall i | 0 <= i < |ls|
      ensures b[i] == Field(ls[i], Stable(ValueAt(gs, ls[i])))
    {
      StableFieldsAt(gs, ls, i);
    }
    if a == b {
      assert ks == ls by { assert forall i | 0 <= i < |ks| :: ks[i] == a[i].key == b[i].key == ls[i]; }
      assert Keys(fs) == Keys(gs) by { assert forall k :: k in Keys(fs) <==> k in ks; }
      forall k | k in Keys(fs)
        ensures Stable(ValueAt(fs, k)) == Stable(ValueAt(gs, k))
      {
        assert k in ks;
        var i :| 0 <= i < |ks| && ks[i] == k;
        assert a[i] == b[i];
      }
    }
    if Keys(fs) == Keys(gs) && SameValues(fs, gs) {
      assert ks == ls;
      forall i | 0 <= i < |ks|
        ensures a[i] == b[i]
      {
        assert ks[i] in ks;
      }
    }
  }

  lemma {:induction false} IndistinctFields(fs: seq<Field>, gs: seq<Field>)
    requires WellFormed(Dict(fs)) && WellFormed(Dict(gs))
    ensures StableFields(fs, SortedStrings(Keys(fs))) == StableFields(gs, SortedStrings(Keys(gs)))
      <==> (&& Keys(fs) == Keys(gs)
            && forall i, j | 0 <= i < |fs| && 0 <= j < |gs| && fs[i].key == gs[j].key && !Volatile(fs[i].key) ::
                 Indistinct(fs[i].value, gs[j].value))
    decreases fs
  {
    hide Stable, Position, StableFields, Indistinct, Volatile, SortedStrings;
    StableFieldsIff(fs, gs);
    if Keys(fs) == Keys(gs) {
      forall i, j | 0 <= i < |fs| && 0 <= j < |gs| && fs[i].key == gs[j].key && !Volatile(fs[i].key)
        ensures fs[i].key in Keys(fs) && ValueAt(fs, fs[i].key) == fs[i].value && ValueAt(gs, fs[i].key) == gs[j].value
        ensures Stable(fs[i].value) == Stable(gs[j].value) <==> Indistinct(fs[i].value, gs[j].value)
      {
        PositionIs(fs, i);
        PositionIs(gs, j);
        IndistinctIff(fs[i].value, gs[j].value);
      }
      KeysMeet(fs, gs);
    }
  }

  /** Each key stands somewhere in both. */
  lemma KeysMeet(fs: seq<Field>, gs: seq<Field>)
    requires Keys(fs) == Keys(gs)
    ensures forall k | k in Keys(fs) ::
      var i, j := Position(fs, k), Position(gs, k);
      fs[i].key == gs[j].key == k && !Volatile(fs[i].key)
  {
    hide Position, Volatile;
  }

  /**
   Two inputs are hashed from the same text exactly when they are indistinct. This is all the hash confuses: key
   order, volatile keys, trailing zeros, and whether a text, a decimal or a date spells a leaf.
   */
  lemma PreimageIffIndistinct(a: Value, b: Value)
    requires WellFormed(a) && WellFormed(b)
    ensures Preimage(a) == Preimage(b) <==> Indistinct(a, b)
  {
    hide Stable, Indistinct, Preimage, WellFormed;
    PreimageIff(a, b);
    IndistinctIff(a, b);
  }

  /** No decimals and no dates, at any depth. */
  ghost predicate Plainly(v: Value) {
    match v
    case Dec(_) => false
    case Date(_) => false
    case List(items) => forall i | 0 <= i < |items| :: Plainly(items[i])
    case Dict(fields) => forall i | 0 <= i < |fields| :: Plainly(fields[i].value)
    case _ => true
  }

  lemma {:induction false} PlainlyAlike(a: Value, b: Value)
    requires Plainly(a) && Plainly(b)
    ensures Indistinct(a, b) <==> Alike(a, b)
    decreases a
  {
    match (a, b) {
      case (List(xs), List(ys)) =>
        forall i | 0 <= i < |xs| && i < |ys|
          ensures Indistinct(xs[i], ys[i]) <==> Alike(xs[i], ys[i])
        {
          PlainlyAlike(xs[i], ys[i]);
        }
      case (Dict(fs), Dict(gs)) =>
        forall i, j | 0 <= i < |fs| && 0 <= j < |gs|
          ensures Indistinct(fs[i].value, gs[j].value) <==> Alike(fs[i].value, gs[j].value)
        {
          PlainlyAlike(fs[i].value, gs[j].value);
        }
      case _ =>
    }
  }

  /** Without decimals and dates the hash confuses key order and volatile keys only. */
  lemma PlainPreimageIff(a: Value, b: Value)
    requires WellFormed(a) && WellFormed(b) && Plainly(a) && Plainly(b)
    ensures Preimage(a) == Preimage(b) <==> Alike(a, b)
  {
    hide Indistinct, Preimage, WellFormed, Alike, Plainly;
    PreimageIffIndistinct(a, b);
    PlainlyAlike(a, b);
  }

  // ---------- receipt identities ----------

  datatype ReceiptInput = ReceiptInput(
    storeId: string, source: string, externalId: Option<string>, receiptDate: Value, ingredientId: string,
    supplierId: Value, quantity: Value, unit: string, unitCost: Value, expiryDate: Value, batchCode: Option<string>)

  /** normalized_optional_identifier */
  function OptionalIdentifier(u: Unicode, raw: Option<string>): Option<string> {
    match raw
    case None => None
    case Some(text) => if Strip(u, text) == "" then None else Some(Strip(u, text))
  }

  datatype Identity = External(preimage: string) | BusinessHash(preimage: string)

  function ExternalKey(storeId: string, source: string, externalId: string): Value {
    Dict([Field("store_id", Str(storeId)), Field("source", Str(source)), Field("external_record_id", Str(externalId))])
  }

  function BusinessKey(u: Unicode, r: ReceiptInput): Value {
    Dict([
      Field("store_id", Str(r.storeId)), Field("receipt_date", r.receiptDate), Field("ingredient_id", Str(r.ingredientId)),
      Field("supplier_id", r.supplierId), Field("quantity", r.quantity), Field("unit", Str(r.unit)),
      Field("unit_cost", r.unitCost), Field("expiry_date", r.expiryDate),
      Field("batch_code", match OptionalIdentifier(u, r.batchCode) case None => Null case Some(code) => Str(code))])
  }

  /** purchase_receipt_identity, with the hashed text in place of the hash */
  function ReceiptIdentity(u: Unicode, r: ReceiptInput): Identity {
    match OptionalIdentifier(u, r.externalId)
    case Some(id) => External(Preimage(ExternalKey(r.storeId, Strip(u, r.source), id)))
    case None => BusinessHash(Preimage(BusinessKey(u, r)))
  }

  lemma ExternalKeyFields(s: string, source: string, id: string)
    ensures WellFormed(ExternalKey(s, source, id))
    ensures Stable(ExternalKey(s, source, id)) == Dict(SortedKey(s, source, id))
  {
    hide Stable, StableFields, StrLeq, Volatile, Keys;
    var fields, sorted := ExternalKey(s, source, id).fields, SortedKey(s, source, id);
    NamesDiffer();
    assert IsStable(Dict(sorted));
    StableFixed(Dict(sorted));
    Reordered(fields, sorted);
    assert fields[0] == sorted[2] && fields[1] == sorted[1] && fields[2] == sorted[0];
    assert Alike(Dict(fields), Dict(sorted));
    AlikeSameStable(Dict(fields), Dict(sorted));
  }

  /** The fields of `ExternalKey` in key order. */
  function SortedKey(s: string, source: string, id: string): seq<Field> {
    [Field("external_record_id", Str(id)), Field("source", Str(source)), Field("store_id", Str(s))]
  }

  lemma Reordered(f: seq<Field>, g: seq<Field>)
    requires |f| == 3 && |g| == 3 && f[0] == g[2] && f[1] == g[1] && f[2] == g[0]
    ensures Keys(f) == Keys(g)
  {
    hide Volatile;
    assert forall x :: x in f <==> x in g;
  }

  lemma NamesDiffer()
    ensures "external_record_id"[0] == 'e' && "source"[0] == 's' && "store_id"[0] == 's'
    ensures "source"[1] == 'o' && "store_id"[1] == 't'
    ensures StrLeq("external_record_id", "source") && StrLeq("source", "store_id") && StrLeq("external_record_id", "store_id")
    ensures !Volatile("external_record_id") && !Volatile("source") && !Volatile("store_id")
  {
    assert "_volatile"[0] == '_';
    assert "source"[1..][0] == 'o' && "store_id"[1..][0] == 't';
  }

  /**
   With a non-blank external id, a receipt's identity is a function of the store, the trimmed source and
   the trimmed id, and distinguishes them; nothing else of the receipt enters it.
   */
  lemma ExternalIdentityIff(u: Unicode, r: ReceiptInput, q: ReceiptInput)
    requires OptionalIdentifier(u, r.externalId).Some? && OptionalIdentifier(u, q.externalId).Some?
    ensures ReceiptIdentity(u, r) == ReceiptIdentity(u, q) <==>
      r.storeId == q.storeId && Strip(u, r.source) == Strip(u, q.source)
      && OptionalIdentifier(u, r.externalId) == OptionalIdentifier(u, q.externalId)
  {
    hide Preimage, Stable, Strip, ExternalKey;
    var i, j := OptionalIdentifier(u, r.externalId).value, OptionalIdentifier(u, q.externalId).value;
    var a, b := ExternalKey(r.storeId, Strip(u, r.source), i), ExternalKey(q.storeId, Strip(u, q.source), j);
    ExternalKeyFields(r.storeId, Strip(u, r.source), i);
    ExternalKeyFields(q.storeId, Strip(u, q.source), j);
    PreimageIff(a, b);
    if Stable(a) == Stable(b) {
      SameFields(Stable(a).fields, Stable(b).fields);
    }
  }

  lemma SameFields(f: seq<Field>, g: seq<Field>)
    requires f == g && |f| == 3
    ensures f[0].value == g[0].value && f[1].value == g[1].value && f[2].value == g[2].value
  {}
}
