/**
 Canonical forms said without the functions that compute them: what the hashed text looks like, what decimals are
 written as, and what a receipt's fallback identity is made of. app/core/provenance.py.
 */
module ProvenanceLaws {
  import opened Text
  import opened Ordering
  import opened Decimals
  import opened Provenance

  // ---------- the compact text ----------

  /** Keys that do not reach the canonical form. */
  lemma VolatileIff(key: string)
    ensures Volatile(key) <==> |key| >= 9 && key[..9] == "_volatile"
  {}

  function Texts(items: seq<Value>): seq<string> {
    seq(|items|, i requires 0 <= i < |items| => Json(items[i]))
  }

  function MemberTexts(fields: seq<Field>): seq<string> {
    seq(|fields|, i requires 0 <= i < |fields| => Quoted(fields[i].key) + (":" + Json(fields[i].value)))
  }

  lemma JoinStep(head: string, rest: seq<string>)
    ensures Join(",", [head] + rest) == head + (if rest == [] then "" else "," + Join(",", rest))
  {
    assert ([head] + rest)[1..] == rest;
    if rest == [] { assert head + "" == head; }
  }

  lemma {:induction false} TailIs(items: seq<Value>, head: string)
    ensures head + ListTail(items) == Join(",", [head] + Texts(items)) + "]"
  {
    hide Json, Join;
    JoinStep(head, Texts(items));
    if items != [] {
      var text := Json(items[0]);
      TailIs(items[1..], text);
      assert Texts(items) == [text] + Texts(items[1..]);
      assert head + ("," + (text + ListTail(items[1..]))) == head + ("," + Join(",", Texts(items))) + "]";
    } else {
      assert head + "" == head;
    }
  }

  lemma {:induction false} FieldsTailIs(fields: seq<Field>, head: string)
    ensures head + DictTail(fields) == Join(",", [head] + MemberTexts(fields)) + "}"
  {
    hide Json, Join, Quoted;
    JoinStep(head, MemberTexts(fields));
    if fields != [] {
      var text := Member(fields[0]);
      FieldsTailIs(fields[1..], text);
      assert MemberTexts(fields) == [text] + MemberTexts(fields[1..]);
      assert head + ("," + (text + DictTail(fields[1..]))) == head + ("," + Join(",", MemberTexts(fields))) + "}";
    } else {
      assert head + "" == head;
    }
  }

  /** A list is its items between brackets, a dictionary its members between braces; commas and colons alone, no spaces. */
  lemma JsonIs(items: seq<Value>, fields: seq<Field>)
    ensures Json(List(items)) == "[" + (Join(",", Texts(items)) + "]")
    ensures Json(Dict(fields)) == "{" + (Join(",", MemberTexts(fields)) + "}")
  {
    ListBodyIs(items);
    DictBodyIs(fields);
  }

  lemma ListBodyIs(items: seq<Value>)
    ensures ListBody(items) == Join(",", Texts(items)) + "]"
  {
    hide Json, ListTail;
    if items != [] {
      TailIs(items[1..], Json(items[0]));
      assert Texts(items) == [Json(items[0])] + Texts(items[1..]);
    }
  }

  lemma DictBodyIs(fields: seq<Field>)
    ensures DictBody(fields) == Join(",", MemberTexts(fields)) + "}"
  {
    hide Json, DictTail, Quoted;
    if fields != [] {
      FieldsTailIs(fields[1..], Member(fields[0]));
      assert MemberTexts(fields) == [Member(fields[0])] + MemberTexts(fields[1..]);
    }
  }

  predicate PlainChar(c: char) {
    c != '"' && c != '\\' && c as int >= 32
  }

  /** Texts without quotes, backslashes and control characters are written as they are. */
  lemma {:induction false} PlainTextKept(s: string)
    requires forall c | c in s :: PlainChar(c)
    ensures EscapedText(s) == s
  {
    hide Escaped;
    if s != "" {
      assert s == [s[0]] + s[1..] && s[0] in s && forall c | c in s[1..] :: c in s;
      PlainCharKept(s[0]);
      PlainTextKept(s[1..]);
    }
  }

  lemma PlainCharKept(c: char)
    requires PlainChar(c)
    ensures Escaped(c) == [c]
  {}

  predicate HexDigit(c: char, n: int) {
    n == if '0' <= c <= '9' then c as int - '0' as int else if 'a' <= c <= 'f' then c as int - 'a' as int + 10 else -1
  }

  /** Every other character is escaped: five control characters shortly, the others by their code in hexadecimal. */
  lemma EscapesAre(c: char)
    ensures c == '"' || c == '\\' ==> Escaped(c) == ['\\', c]
    ensures c == '\n' ==> Escaped(c) == "\\n"
    ensures c == '\r' ==> Escaped(c) == "\\r"
    ensures c == '\t' ==> Escaped(c) == "\\t"
    ensures c as int == 8 ==> Escaped(c) == "\\b"
    ensures c as int == 12 ==> Escaped(c) == "\\f"
    ensures c as int < 32 && c != '\n' && c != '\r' && c != '\t' && c as int != 8 && c as int != 12 ==>
      exists hi, lo :: Escaped(c) == ['\\', 'u', '0', '0', hi, lo]
        && HexDigit(hi, c as int / 16) && HexDigit(lo, c as int % 16)
  {
    if c as int < 32 {
      var hi, lo := Hex(c as int / 16), Hex(c as int % 16);
      assert HexDigit(hi, c as int / 16) && HexDigit(lo, c as int % 16);
      assert "\\u00" + [hi, lo] == ['\\', 'u', '0', '0', hi, lo];
    }
  }

  // ---------- decimals ----------

  lemma {:induction false} NaturalTimes(n: nat, k: nat)
    requires n > 0
    ensures Natural(n * Pow10(k)) == Natural(n) + Zeros(k)
  {
    if k == 0 {
      assert Natural(n) + Zeros(0) == Natural(n);
    } else {
      NaturalTimes(n, k - 1);
      var m := n * Pow10(k - 1);
      assert n * Pow10(k) == 10 * m by { Tenfold(n, Pow10(k - 1)); }
      assert m > 0 by { Positive(n, Pow10(k - 1)); }
      assert Natural(10 * m) == Natural(m) + [Digit(0)];
      assert Zeros(k) == Zeros(k - 1) + ['0'];
    }
  }

  lemma Tenfold(n: nat, p: nat)
    ensures n * (10 * p) == 10 * (n * p)
  {}

  lemma Positive(n: nat, p: nat)
    requires n > 0 && p > 0
    ensures n * p > 0
  {}

  /** The digits of `n`: those of its quotient by a power of ten, and as many after them as the power has zeros. */
  lemma {:induction false} NaturalSplit(n: nat, k: nat)
    requires Pow10(k) <= n
    ensures Natural(n) == Natural(Quotient(n, Pow10(k))) + Padded(n, k)
    decreases k
  {
    if k == 0 {
      assert Quotient(n, 1) == n;
      assert Natural(n) + "" == Natural(n);
    } else {
      PowGrows(k - 1);
      QuotientTwice(n, k - 1);
      NaturalSplit(n / 10, k - 1);
      assert Natural(n) == Natural(n / 10) + [Digit(n % 10)];
      assert Padded(n, k) == Padded(n / 10, k - 1) + [Digit(n % 10)];
    }
  }

  lemma PowGrows(k: nat)
    ensures Pow10(k) >= 1 && Pow10(k + 1) == 10 * Pow10(k)
  {}

  lemma QuotientTwice(n: nat, k: nat)
    requires Pow10(k + 1) <= n
    ensures Pow10(k) <= n / 10 && n >= 10 && Quotient(n, Pow10(k + 1)) == Quotient(n / 10, Pow10(k))
  {
    var p := Pow10(k);
    DivideTwice(n, p);
  }

  lemma DivideTwice(n: nat, p: nat)
    requires p >= 1
    ensures n / (10 * p) == n / 10 / p
    ensures 10 * p <= n ==> p <= n / 10
  {
    var q, r := n / 10 / p, n / 10 % p;
    assert n / 10 == p * q + r;
    assert n == 10 * (p * q + r) + n % 10;
    assert n == (10 * p) * q + (10 * r + n % 10) by { Spread(p, q, r, n % 10); }
    assert 0 <= 10 * r + n % 10 < 10 * p;
    Unique(n, 10 * p, q, 10 * r + n % 10);
  }

  lemma Spread(p: nat, q: nat, r: nat, d: nat)
    ensures 10 * (p * q + r) + d == (10 * p) * q + (10 * r + d)
  {}

  lemma Unique(n: nat, p: nat, q: nat, r: nat)
    requires p > 0 && n == p * q + r && r < p
    ensures n / p == q
  {
    Below(p, n / p, q);
    Below(p, q, n / p);
  }

  lemma Below(p: nat, a: nat, b: nat)
    ensures a < b ==> p * a + p <= p * b
  {
    if a < b {
      assert p * b == p * (a + 1) + p * (b - a - 1);
    }
  }

  lemma {:induction false} PaddedShort(n: nat, k: nat)
    requires |Natural(n)| <= k
    ensures Padded(n, k) == Zeros(k - |Natural(n)|) + Natural(n)
    decreases k
  {
    if n < 10 {
      PaddedZero(k - 1);
      assert Padded(n, k) == Padded(0, k - 1) + [Digit(n)];
    } else {
      PaddedShort(n / 10, k - 1);
      assert Natural(n) == Natural(n / 10) + [Digit(n % 10)];
      assert Padded(n, k) == Zeros(k - |Natural(n)|) + Natural(n / 10) + [Digit(n % 10)];
    }
  }

  lemma {:induction false} PaddedZero(k: nat)
    ensures Padded(0, k) == Zeros(k)
  {
    if k > 0 {
      PaddedZero(k - 1);
      assert Zeros(k) == Zeros(k - 1) + ['0'];
    }
  }

  /** A number has more digits than `k` exactly when it is at least the k-th power of ten. */
  lemma {:induction false} LengthIff(n: nat, k: nat)
    requires k > 0
    ensures |Natural(n)| > k <==> n >= Pow10(k)
    decreases k
  {
    PowGrows(k - 1);
    if k == 1 {
      assert Pow10(1) == 10;
    } else if n >= 10 {
      LengthIff(n / 10, k - 1);
      assert n / 10 >= Pow10(k - 1) <==> n >= 10 * Pow10(k - 1);
    }
  }

  /** A decimal with a whole exponent is the whole number that it is. */
  lemma WholeText(d: Decimal)
    requires d.exp >= 0 && d.coeff > 0
    ensures Plain(d) == Minus(d.negative) + Natural(d.coeff * Pow10(d.exp))
  {
    NaturalTimes(d.coeff, d.exp);
  }

  lemma CutAt(a: string, b: string)
    ensures (a + b)[..|a + b| - |b|] == a && (a + b)[|a + b| - |b|..] == b
  {}

  lemma PlainPoint(d: Decimal)
    requires d.exp < 0
    ensures var digits, k: nat := Natural(d.coeff), -d.exp;
      Plain(d) == Minus(d.negative)
        + if |digits| > k then digits[..|digits| - k] + "." + digits[|digits| - k..]
          else "0." + Zeros(k - |digits|) + digits
  {
    hide Natural;
  }

  lemma PointParts(sign: string, a: string, b: string)
    ensures sign + (a + "." + b) == sign + a + "." + b
  {}

  lemma ZeroPoint(zeros: string, digits: string)
    ensures "0." + zeros + digits == "0" + "." + (zeros + digits)
  {}

  /** One with a negative exponent is its integer part, a point, and its decimals. */
  lemma PointText(d: Decimal)
    requires d.exp < 0
    ensures var k: nat := -d.exp;
      Plain(d) == Minus(d.negative) + Natural(Quotient(d.coeff, Pow10(k))) + "." + Padded(d.coeff, k)
  {
    hide Natural, Padded, Zeros, Plain, Minus;
    var k: nat := -d.exp;
    var digits := Natural(d.coeff);
    PlainPoint(d);
    LengthIff(d.coeff, k);
    if |digits| > k {
      NaturalSplit(d.coeff, k);
      CutAt(Natural(Quotient(d.coeff, Pow10(k))), Padded(d.coeff, k));
    } else {
      PaddedShort(d.coeff, k);
      assert Quotient(d.coeff, Pow10(k)) == 0 by { Unique(d.coeff, Pow10(k), 0, d.coeff); }
      NaturalNought();
      ZeroPoint(Zeros(k - |digits|), digits);
    }
    PointParts(Minus(d.negative), Natural(Quotient(d.coeff, Pow10(k))), Padded(d.coeff, k));
  }

  lemma NaturalNought()
    ensures Natural(0) == "0"
  {}

  // ---------- the fallback identity ----------

  lemma BusinessNames(u: Unicode, r: ReceiptInput)
    ensures var fs := BusinessKey(u, r).fields;
      && |fs| == 9
      && |fs[0].key| == 8 && fs[0].key[0] == 's' && |fs[1].key| == 12 && fs[1].key[0] == 'r'
      && |fs[2].key| == 13 && fs[2].key[0] == 'i' && |fs[3].key| == 11 && fs[3].key[0] == 's'
      && |fs[4].key| == 8 && fs[4].key[0] == 'q' && |fs[5].key| == 4 && fs[5].key[0] == 'u'
      && |fs[6].key| == 9 && fs[6].key[0] == 'u' && |fs[7].key| == 11 && fs[7].key[0] == 'e'
      && |fs[8].key| == 10 && fs[8].key[0] == 'b'
  {}

  lemma BusinessKeyFormed(u: Unicode, r: ReceiptInput)
    requires WellFormed(r.receiptDate) && WellFormed(r.supplierId) && WellFormed(r.quantity) && WellFormed(r.unitCost)
    requires WellFormed(r.expiryDate)
    ensures var fs := BusinessKey(u, r).fields;
      && WellFormed(BusinessKey(u, r)) && |fs| == 9
      && (forall i, j | 0 <= i < j < 9 :: fs[i].key != fs[j].key)
      && forall i | 0 <= i < 9 :: !Volatile(fs[i].key)
  {
    hide Strip, Volatile;
    var fs := BusinessKey(u, r).fields;
    BusinessNames(u, r);
    forall i | 0 <= i < 9
      ensures !Volatile(fs[i].key)
    {
      VolatileIff(fs[i].key);
      assert "_volatile"[0] == '_' && fs[i].key[0] != '_';
    }
  }

  lemma SameKeys(fs: seq<Field>, gs: seq<Field>)
    requires |fs| == |gs| && forall i | 0 <= i < |fs| :: fs[i].key == gs[i].key
    ensures Keys(fs) == Keys(gs)
  {
    hide Volatile;
    forall k
      ensures k in Keys(fs) <==> k in Keys(gs)
    {
      if f :| f in fs && !Volatile(f.key) && f.key == k {
        var i :| 0 <= i < |fs| && fs[i] == f;
        assert gs[i] in gs && gs[i].key == k;
      }
      if g :| g in gs && !Volatile(g.key) && g.key == k {
        var i :| 0 <= i < |gs| && gs[i] == g;
        assert fs[i] in fs && fs[i].key == k;
      }
    }
  }

  lemma SameNames(u: Unicode, r: ReceiptInput, q: ReceiptInput)
    ensures var fs, gs := BusinessKey(u, r).fields, BusinessKey(u, q).fields;
      && |fs| == |gs| == 9 && (forall i | 0 <= i < 9 :: fs[i].key == gs[i].key) && Keys(fs) == Keys(gs)
  {
    hide Volatile, Strip, Keys;
    SameKeys(BusinessKey(u, r).fields, BusinessKey(u, q).fields);
  }

  /** A batch code that is missing or blank is none; otherwise the trimmed code counts. */
  predicate SameBatch(u: Unicode, a: Option<string>, b: Option<string>) {
    Trimmed(u, a) == Trimmed(u, b)
  }

  function Trimmed(u: Unicode, a: Option<string>): string {
    if a.None? then "" else Strip(u, a.value)
  }

  lemma BatchIff(u: Unicode, a: Option<string>, b: Option<string>)
    ensures OptionalIdentifier(u, a) == OptionalIdentifier(u, b) <==> SameBatch(u, a, b)
  {
    hide Strip;
  }

  /**
   Without an external id two receipts have the same identity exactly when store, ingredient and unit are equal, batch
   codes are equal once trimmed, and dates, supplier, quantity and unit cost are written alike; source and everything else
   do not matter.
   */
  lemma BusinessIdentityIff(u: Unicode, r: ReceiptInput, q: ReceiptInput)
    requires Trimmed(u, r.externalId) == "" && Trimmed(u, q.externalId) == ""
    requires WellFormed(r.receiptDate) && WellFormed(r.supplierId) && WellFormed(r.quantity) && WellFormed(r.unitCost)
    requires WellFormed(q.receiptDate) && WellFormed(q.supplierId) && WellFormed(q.quantity) && WellFormed(q.unitCost)
    requires WellFormed(r.expiryDate) && WellFormed(q.expiryDate)
    ensures ReceiptIdentity(u, r) == ReceiptIdentity(u, q) <==>
      && r.storeId == q.storeId && r.ingredientId == q.ingredientId && r.unit == q.unit
      && SameBatch(u, r.batchCode, q.batchCode)
      && Indistinct(r.receiptDate, q.receiptDate) && Indistinct(r.supplierId, q.supplierId)
      && Indistinct(r.quantity, q.quantity) && Indistinct(r.unitCost, q.unitCost)
      && Indistinct(r.expiryDate, q.expiryDate)
  {
    hide Preimage, Strip, WellFormed, Volatile, Keys, SameDecimal, DecimalText;
    var a, b := BusinessKey(u, r), BusinessKey(u, q);
    var fs, gs := a.fields, b.fields;
    BusinessKeyFormed(u, r);
    BusinessKeyFormed(u, q);
    SameNames(u, r, q);
    PreimageIffIndistinct(a, b);
    BatchIff(u, r.batchCode, q.batchCode);
    FieldByField(fs, gs);
    LeavesIff(u, r, q);
  }

  lemma FieldByField(fs: seq<Field>, gs: seq<Field>)
    requires |fs| == |gs| == 9 && (forall i | 0 <= i < 9 :: fs[i].key == gs[i].key && !Volatile(fs[i].key)) && Keys(fs) == Keys(gs)
    requires forall i, j | 0 <= i < j < 9 :: gs[i].key != gs[j].key
    ensures Indistinct(Dict(fs), Dict(gs)) <==>
      && Indistinct(fs[0].value, gs[0].value) && Indistinct(fs[1].value, gs[1].value) && Indistinct(fs[2].value, gs[2].value)
      && Indistinct(fs[3].value, gs[3].value) && Indistinct(fs[4].value, gs[4].value) && Indistinct(fs[5].value, gs[5].value)
      && Indistinct(fs[6].value, gs[6].value) && Indistinct(fs[7].value, gs[7].value) && Indistinct(fs[8].value, gs[8].value)
  {
    hide Volatile, Keys, SameDecimal, DecimalText;
    if Indistinct(Dict(fs), Dict(gs)) {
      forall i | 0 <= i < 9
        ensures Indistinct(fs[i].value, gs[i].value)
      {
        assert fs[i].key == gs[i].key && !Volatile(fs[i].key);
      }
    }
  }

  lemma LeavesIff(u: Unicode, r: ReceiptInput, q: ReceiptInput)
    ensures var fs, gs := BusinessKey(u, r).fields, BusinessKey(u, q).fields;
      && |fs| == |gs| == 9
      && (Indistinct(fs[0].value, gs[0].value) <==> r.storeId == q.storeId)
      && (Indistinct(fs[2].value, gs[2].value) <==> r.ingredientId == q.ingredientId)
      && (Indistinct(fs[5].value, gs[5].value) <==> r.unit == q.unit)
      && (Indistinct(fs[8].value, gs[8].value) <==> OptionalIdentifier(u, r.batchCode) == OptionalIdentifier(u, q.batchCode))
      && fs[1].value == r.receiptDate && gs[1].value == q.receiptDate && fs[3].value == r.supplierId && gs[3].value == q.supplierId
      && fs[4].value == r.quantity && gs[4].value == q.quantity && fs[6].value == r.unitCost && gs[6].value == q.unitCost
      && fs[7].value == r.expiryDate && gs[7].value == q.expiryDate
  {
    hide Strip, DecimalText, SameDecimal, Keys, Volatile;
  }
}
