/** What the mention parser reads back from the texts the number printers write. */
module NumericRoundTrip {
  import opened Text
  import opened Decimals
  import opened NumericAuthority

  // ---------- the token scanner on printed numbers ----------

  lemma {:induction false} DigitRunIs(u: Unicode, s: string, i: nat, n: nat)
    requires i + n <= |s|
    requires forall k | i <= k < i + n :: u.digit(s[k]) >= 0
    requires i + n < |s| ==> u.digit(s[i + n]) < 0
    ensures DigitRun(u, s, i) == n
    decreases n
  {
    if n > 0 { DigitRunIs(u, s, i + 1, n - 1); }
  }

  lemma {:induction false} GroupsShift(u: Unicode, a: string, b: string, i: nat)
    requires i <= |b|
    ensures GroupsEnd(u, a + b, |a| + i) == |a| + GroupsEnd(u, b, i)
    decreases |b| - i
  {
    if i + 4 <= |b| && GroupsEnd(u, b, i) > i {
      GroupsShift(u, a, b, i + 4);
    }
  }

  lemma RunShift(u: Unicode, a: string, b: string, i: nat)
    requires i <= |b|
    ensures DigitRun(u, a + b, |a| + i) == DigitRun(u, b, i)
  {
    var n := DigitRun(u, b, i);
    assert forall k | i <= k < i + n :: (a + b)[|a| + k] == b[k];
    DigitRunIs(u, a + b, |a| + i, n);
  }

  lemma TokenShift(u: Unicode, a: string, b: string)
    requires b != "" && u.digit(b[0]) >= 0
    ensures TokenEnd(u, a + b, |a|) == |a| + TokenEnd(u, b, 0)
  {
    hide DigitRun, GroupsEnd;
    var r := DigitRun(u, b, 0);
    RunShift(u, a, b, 0);
    GroupsShift(u, a, b, r);
    if r + 1 <= |b| { RunShift(u, a, b, r + 1); }
  }

  predicate NoDigitFirst(u: Unicode, s: string) {
    s == "" || u.digit(s[0]) < 0
  }

  lemma AsciiRead(u: Unicode, s: string)
    requires u.Numerals() && AsciiDigits(s)
    ensures AllDigits(u, s)
  {}

  lemma {:induction false} SmallNatural(n: nat)
    requires n < 1000
    ensures |Natural(n)| <= 3
  {
    if n >= 10 {
      assert |Natural(n)| == |Natural(n / 10)| + 1;
      if n >= 100 { assert |Natural(n / 10)| == |Natural(n / 10 / 10)| + 1; }
    }
  }

  lemma {:induction false} GroupedShape(n: nat)
    ensures |Grouped(n, '.')| >= 1 && '0' <= Grouped(n, '.')[0] <= '9'
    ensures n >= 1000 ==> |Grouped(n, '.')| >= 5
  {
    if n < 1000 {
      NaturalDigits(n);
    } else {
      GroupedShape(n / 1000);
    }
  }

  lemma ScanHead(u: Unicode, head: string, rest: string)
    requires u.Numerals() && AsciiDigits(head) && NoDigitFirst(u, rest)
    ensures DigitRun(u, head + rest, 0) == |head|
    ensures GroupsEnd(u, head + rest, |head|) == |head| + GroupsEnd(u, rest, 0)
  {
    AsciiRead(u, head);
    DigitRunIs(u, head + rest, 0, |head|);
    GroupsShift(u, head, rest, 0);
  }

  lemma ScanBlock(u: Unicode, block: string, rest: string)
    requires u.Numerals() && AsciiDigits(block) && |block| == 3
    ensures NoDigitFirst(u, "." + block + rest)
    ensures GroupsEnd(u, "." + block + rest, 0) == 4 + GroupsEnd(u, rest, 0)
  {
    AsciiRead(u, block);
    var s := "." + block + rest;
    assert s[1] == block[0] && s[2] == block[1] && s[3] == block[2];
    GroupsShift(u, "." + block, rest, 0);
  }

  lemma BlockRest(head: string, block: string, rest: string)
    ensures head + ['.'] + block + rest == head + ("." + block + rest)
  {}

  /** The scanner's leading run is one to three digits and its groups reach exactly the end of the number. */
  lemma {:induction false} GroupedScan(u: Unicode, n: nat, rest: string)
    requires u.Numerals() && NoDigitFirst(u, rest)
    ensures var s := Grouped(n, '.') + rest;
      && 1 <= DigitRun(u, s, 0) <= 3
      && GroupsEnd(u, s, DigitRun(u, s, 0)) == |Grouped(n, '.')| + GroupsEnd(u, rest, 0)
      && (n < 1000 ==> DigitRun(u, s, 0) == |Grouped(n, '.')|)
  {
    if n < 1000 {
      NaturalDigits(n);
      SmallNatural(n);
      ScanHead(u, Natural(n), rest);
    } else {
      var q, block := n / 1000, Padded(n % 1000, 3);
      PaddedDigits(n % 1000, 3);
      ScanBlock(u, block, rest);
      GroupedScan(u, q, "." + block + rest);
      BlockRest(Grouped(q, '.'), block, rest);
    }
  }

  /** No digit, and no separator before a digit: a number in front of it ends there. */
  predicate Ends(u: Unicode, tail: string) {
    tail == "" || (u.digit(tail[0]) < 0 && (IsSep(tail[0]) ==> |tail| == 1 || u.digit(tail[1]) < 0))
  }

  /** A grouped integer is one whole token. */
  lemma TokenPlain(u: Unicode, n: nat, tail: string)
    requires u.Numerals() && Ends(u, tail)
    ensures var s := Grouped(n, '.') + tail;
      s != "" && u.digit(s[0]) >= 0 && TokenEnd(u, s, 0) == |Grouped(n, '.')|
  {
    GroupedShape(n);
    GroupedScan(u, n, tail);
  }

  /** Fewer than three digits after a separator do not make a group. */
  lemma NoGroup(u: Unicode, sep: char, f: string, tail: string)
    requires u.Numerals() && Ends(u, tail) && IsSep(sep) && |f| <= 2
    ensures var rest := [sep] + f + tail;
      NoDigitFirst(u, rest) && GroupsEnd(u, rest, 0) == 0 && (tail != "" ==> rest[1 + |f|] == tail[0])
  {
    var rest := [sep] + f + tail;
    assert tail != "" ==> rest[1 + |f|] == tail[0];
  }

  /** A separator with at most two digits joins the token below 1000 and is cut off from 1000 on. */
  lemma TokenShortFraction(u: Unicode, n: nat, sep: char, f: string, tail: string)
    requires u.Numerals() && Ends(u, tail) && IsSep(sep) && |f| <= 2 && AsciiDigits(f)
    ensures var s := Grouped(n, '.') + ([sep] + f + tail);
      && s != "" && u.digit(s[0]) >= 0
      && TokenEnd(u, s, 0) == |Grouped(n, '.')| + (if n < 1000 && f != "" then 1 + |f| else 0)
  {
    var g, rest := Grouped(n, '.'), [sep] + f + tail;
    GroupedShape(n);
    NoGroup(u, sep, f, tail);
    GroupedScan(u, n, rest);
    if n < 1000 { SmallFractionEnd(u, g, sep, f, tail); }
  }

  lemma SmallFractionEnd(u: Unicode, g: string, sep: char, f: string, tail: string)
    requires u.Numerals() && Ends(u, tail) && IsSep(sep) && AsciiDigits(f)
    ensures var s := g + ([sep] + f + tail);
      && |g| < |s| && IsSep(s[|g|])
      && (f == "" ==> |g| + 1 == |s| || u.digit(s[|g| + 1]) < 0)
      && (f != "" ==> u.digit(s[|g| + 1]) >= 0 && DigitRun(u, s, |g| + 1) == |f|)
  {
    var s := g + ([sep] + f + tail);
    AsciiRead(u, f);
    if f != "" {
      assert forall k | 0 <= k < |f| :: s[|g| + 1 + k] == f[k];
      DigitRunIs(u, s, |g| + 1, |f|);
    }
  }

  // ---------- reading the token ----------

  /** What `Remove` and `Count` see of one more three-digit group. */
  lemma BlockDigits(u: Unicode, head: string, k: nat)
    requires u.Numerals() && k < 1000 && ',' !in head
    ensures var g := head + ['.'] + Padded(k, 3);
      && ',' !in g && Count(g, '.') == Count(head, '.') + 1
      && Remove(g, '.') == Remove(head, '.') + Padded(k, 3)
  {
    var block := Padded(k, 3);
    PaddedDigits(k, 3);
    Absent(block, '.');
    CountAppend(head + ['.'], block, '.');
    CountAppend(head, ['.'], '.');
    RemoveAppend(head + ['.'], block, '.');
    RemoveAppend(head, ['.'], '.');
    assert Remove(['.'], '.') == "" && Count(['.'], '.') == 1;
  }

  lemma {:induction false} GroupedDigits(u: Unicode, n: nat)
    requires u.Numerals()
    ensures var g := Grouped(n, '.');
      && ',' !in g
      && Count(g, '.') == (if n < 1000 then 0 else 1 + Count(Grouped(n / 1000, '.'), '.'))
      && AsciiDigits(Remove(g, '.')) && Remove(g, '.') != ""
      && NatValue(u, Remove(g, '.')) == n
  {
    if n < 1000 {
      NaturalDigits(n);
      NaturalValue(u, n);
      Absent(Natural(n), '.');
    } else {
      var head := Grouped(n / 1000, '.');
      GroupedDigits(u, n / 1000);
      BlockDigits(u, head, n % 1000);
      PaddedDigits(n % 1000, 3);
      Thousand();
      PaddedValue(u, Remove(head, '.'), n % 1000, 3);
    }
  }

  lemma Thousand()
    ensures Pow10(1) == 10 && Pow10(2) == 100 && Pow10(3) == 1000
  {
    assert Pow10(0) == 1;
  }

  lemma {:induction false} IndexOfAppend(a: string, c: char, b: string)
    requires c !in a
    ensures IndexOf(a + [c] + b, c) == |a|
  {
    if a != "" {
      IndexOfAppend(a[1..], c, b);
      assert (a + [c] + b)[1..] == a[1..] + [c] + b;
    }
  }

  lemma DigitsDecimal(u: Unicode, s: string)
    requires u.Numerals() && AsciiDigits(s) && s != ""
    ensures DecimalOf(u, s) == Some(NatValue(u, s) as real)
  {
    AsciiRead(u, s);
    DigitRunIs(u, s, 0, |s|);
  }

  /** Exactly one group: three digits after the only separator, so the separator is dropped. */
  lemma ParseOneGroup(u: Unicode, left: string, right: string)
    requires u.Numerals() && AsciiDigits(left) && AsciiDigits(right) && 1 <= |left| <= 3 && |right| == 3
    ensures ParseDecimal(u, left + ['.'] + right) == Some(NatValue(u, left + right) as real)
  {
    OneSeparator(left, '.', right);
    DigitsDecimal(u, left + right);
  }

  /** A grouped integer reads back as itself, however many groups it has. */
  lemma {:induction false} ParseGrouped(u: Unicode, n: nat)
    requires u.Numerals()
    ensures ParseDecimal(u, Grouped(n, '.')) == Some(n as real)
  {
    var g := Grouped(n, '.');
    GroupedDigits(u, n);
    if n < 1000 {
      NaturalDigits(n);
      NaturalValue(u, n);
      Absent(g, '.'); Absent(g, ',');
      DigitsDecimal(u, g);
    } else if n < 1000000 {
      SmallNatural(n / 1000);
      NaturalDigits(n / 1000);
      NaturalValue(u, n / 1000);
      PaddedDigits(n % 1000, 3);
      ParseOneGroup(u, Natural(n / 1000), Padded(n % 1000, 3));
      Thousand();
      PaddedValue(u, Natural(n / 1000), n % 1000, 3);
    } else {
      GroupedDigits(u, n / 1000);
      Absent(Remove(g, '.'), ',');
      DigitsDecimal(u, Remove(g, '.'));
    }
  }

  lemma ParsePoint(u: Unicode, left: string, sep: char, f: string)
    requires u.Numerals() && IsSep(sep) && left != "" && 1 <= |f| <= 2 && AsciiDigits(left) && AsciiDigits(f)
    ensures ParseDecimal(u, left + [sep] + f) == Some(NatValue(u, left) as real + FractionValue(u, f))
  {
    OneSeparator(left, sep, f);
    DecimalPoint(u, left, f);
  }

  /** One or two digits after a separator are a decimal fraction. */
  lemma ParseShortFraction(u: Unicode, n: nat, sep: char, f: string)
    requires u.Numerals() && n < 1000 && IsSep(sep) && 1 <= |f| <= 2 && AsciiDigits(f)
    ensures ParseDecimal(u, Grouped(n, '.') + ([sep] + f)) == Some(n as real + FractionValue(u, f))
  {
    var left := Natural(n);
    NaturalDigits(n);
    NaturalValue(u, n);
    ParsePoint(u, left, sep, f);
    assert left + [sep] + f == left + ([sep] + f);
  }

  lemma OneSeparator(left: string, sep: char, right: string)
    requires AsciiDigits(left) && AsciiDigits(right) && IsSep(sep)
    ensures var raw := left + [sep] + right;
      && Count(raw, '.') <= 1 && Count(raw, ',') <= 1
      && sep in raw && (sep == ',' ==> '.' !in raw)
      && IndexOf(raw, sep) == |left| && raw[..|left|] == left && raw[|left| + 1..] == right
  {
    CountAppend(left + [sep], right, '.'); CountAppend(left, [sep], '.');
    CountAppend(left + [sep], right, ','); CountAppend(left, [sep], ',');
    Absent(left, '.'); Absent(left, ','); Absent(right, '.'); Absent(right, ',');
    assert Count([sep], '.') <= 1 && Count([sep], ',') <= 1;
    assert (left + [sep] + right)[|left|] == sep;
    IndexOfAppend(left, sep, right);
  }

  lemma DecimalPoint(u: Unicode, left: string, right: string)
    requires u.Numerals() && AsciiDigits(left) && AsciiDigits(right) && left != "" && right != ""
    ensures DecimalOf(u, left + "." + right)
         == Some(NatValue(u, left) as real + FractionValue(u, right))
  {
    hide NatValue, FractionValue, DigitRun;
    var s := left + "." + right;
    AsciiRead(u, left);
    AsciiRead(u, right);
    assert s[|left|] == '.';
    assert forall k | 0 <= k < |left| :: s[k] == left[k];
    DigitRunIs(u, s, 0, |left|);
    assert DigitRun(u, s, 0) == |left|;
    assert s[..|left|] == left;
    assert s[|left| + 1..] == right;
    assert AllDigits(u, s[|left| + 1..]);
  }

  // ---------- which tokens have no number ----------

  predicate DigitOrSep(u: Unicode, c: char) {
    u.digit(c) >= 0 || IsSep(c)
  }

  /** Digits and separators, with a digit at both ends: the shape of every token. */
  predicate Tokenlike(u: Unicode, t: string) {
    && t != "" && u.digit(t[0]) >= 0 && u.digit(t[|t| - 1]) >= 0
    && forall k | 0 <= k < |t| :: DigitOrSep(u, t[k])
  }

  lemma {:induction false} GroupsChars(u: Unicode, s: string, i: nat)
    requires i <= |s|
    ensures var e := GroupsEnd(u, s, i);
      && (forall k | i <= k < e :: DigitOrSep(u, s[k]))
      && (e > i ==> u.digit(s[e - 1]) >= 0)
    decreases |s| - i
  {
    if GroupsEnd(u, s, i) > i { GroupsChars(u, s, i + 4); }
  }

  lemma TokenShape(u: Unicode, s: string, i: nat)
    requires i < |s| && u.digit(s[i]) >= 0
    ensures Tokenlike(u, s[i..TokenEnd(u, s, i)])
  {
    var j := i + DigitRun(u, s, i);
    var e := TokenEnd(u, s, i);
    GroupsChars(u, s, j);
    assert forall k | i <= k < e :: DigitOrSep(u, s[k]);
    assert u.digit(s[e - 1]) >= 0;
  }

  lemma {:induction false} CountZero(s: string, c: char)
    ensures Count(s, c) == 0 <==> c !in s
  {
    if s != "" {
      CountZero(s[1..], c);
      assert s == [s[0]] + s[1..];
    }
  }

  lemma {:induction false} RemoveSeparators(u: Unicode, s: string, c: char)
    requires forall k | 0 <= k < |s| :: DigitOrSep(u, s[k])
    ensures var r := Remove(s, c);
      && c !in r
      && (forall k | 0 <= k < |r| :: DigitOrSep(u, r[k]))
      && (s != "" && s[0] != c ==> r != "" && r[0] == s[0])
      && (forall x | x in r :: x in s)
  {
    if s != "" {
      RemoveSeparators(u, s[1..], c);
      assert s == [s[0]] + s[1..];
    }
  }

  lemma AllDigitsDecimal(u: Unicode, s: string)
    requires s != "" && AllDigits(u, s)
    ensures DecimalOf(u, s) == Some(NatValue(u, s) as real)
  {
    DigitRunIs(u, s, 0, |s|);
  }

  lemma NoCommaNoPoint(u: Unicode, s: string)
    requires forall k | 0 <= k < |s| :: DigitOrSep(u, s[k])
    requires '.' !in s && ',' !in s
    ensures AllDigits(u, s)
  {
    assert forall k | 0 <= k < |s| :: s[k] in s;
  }

  /** A comma makes Decimal() fail. */
  lemma CommaFails(u: Unicode, s: string)
    requires u.Numerals() && ',' in s
    ensures DecimalOf(u, s).None?
  {
    var c :| 0 <= c < |s| && s[c] == ',';
    var k := DigitRun(u, s, 0);
    assert k <= c;
    if k < c && s[k] == '.' {
      assert s[k + 1..][c - k - 1] == ',';
    }
  }

  /**
   The parser gives up on a token exactly when it mixes one point with one comma; such a match is
   skipped, so it is never checked against the evidence.
   */
  lemma UnparsedToken(u: Unicode, t: string)
    requires u.Numerals() && Tokenlike(u, t)
    ensures ParseDecimal(u, t).None? <==> Count(t, '.') == 1 && Count(t, ',') == 1
  {
    CountZero(t, '.');
    CountZero(t, ',');
    if Count(t, '.') > 1 || Count(t, ',') > 1 {
      RemoveSeparators(u, t, '.');
      RemoveSeparators(u, Remove(t, '.'), ',');
      var r := Remove(Remove(t, '.'), ',');
      NoCommaNoPoint(u, r);
      AllDigitsDecimal(u, r);
    } else if '.' !in t && ',' !in t {
      NoCommaNoPoint(u, t);
      AllDigitsDecimal(u, t);
    } else {
      SplitToken(u, t);
    }
  }

  lemma SplitOnce(t: string, sep: char)
    requires sep in t && Count(t, sep) <= 1
    ensures var k := IndexOf(t, sep);
      sep !in t[..k] && sep !in t[k + 1..] && t == t[..k] + [sep] + t[k + 1..]
  {
    var k := IndexOf(t, sep);
    var left, right := t[..k], t[k + 1..];
    assert t == left + [sep] + right;
    CountAppend(left + [sep], right, sep); CountAppend(left, [sep], sep);
    assert Count([sep], sep) == 1;
    CountZero(right, sep);
  }

  lemma SplitToken(u: Unicode, t: string)
    requires u.Numerals() && Tokenlike(u, t)
    requires Count(t, '.') <= 1 && Count(t, ',') <= 1 && Count(t, '.') + Count(t, ',') >= 1
    ensures ParseDecimal(u, t).None? <==> Count(t, '.') == 1 && Count(t, ',') == 1
  {
    hide DecimalOf, Count;
    CountZero(t, '.');
    CountZero(t, ',');
    var sep := if '.' in t then '.' else ',';
    SplitOnce(t, sep);
    var k := IndexOf(t, sep);
    var left, right := t[..k], t[k + 1..];
    if '.' in t && ',' in t {
      assert ',' in left || ',' in right by { assert ',' in left + [sep] + right; }
      CommaFails(u, left + right);
      CommaFails(u, left + "." + right);
    } else {
      assert ',' !in left && ',' !in right && '.' !in left && '.' !in right;
      OneSepParses(u, left, sep, right);
    }
  }

  lemma OneSepParses(u: Unicode, left: string, sep: char, right: string)
    requires u.Numerals() && IsSep(sep) && Tokenlike(u, left + [sep] + right)
    requires ',' !in left && ',' !in right && '.' !in left && '.' !in right
    ensures DecimalOf(u, left + right).Some? && DecimalOf(u, left + "." + right).Some?
  {
    var t := left + [sep] + right;
    assert t[|left|] == sep;
    assert left != "" && right != "";
    assert forall i | 0 <= i < |left| :: left[i] == t[i];
    assert forall i | 0 <= i < |right| :: right[i] == t[|left| + 1 + i];
    NoCommaNoPoint(u, left);
    NoCommaNoPoint(u, right);
    AllDigitsDecimal(u, left + right);
    PointParses(u, left, right);
  }

  lemma PointParses(u: Unicode, left: string, right: string)
    requires u.Numerals() && left != "" && right != "" && AllDigits(u, left) && AllDigits(u, right)
    ensures DecimalOf(u, left + "." + right).Some?
  {
    var s := left + "." + right;
    assert s[|left|] == '.';
    DigitRunIs(u, s, 0, |left|);
    assert s[|left| + 1..] == right;
  }

  // ---------- a match without a unit word ----------

  lemma SliceShiftAll(s: string, i: nat, e: nat)
    requires i <= e <= |s|
    ensures s == s[..i] + s[i..] && s[i..e] == s[i..][..e - i]
  {}

  lemma {:induction false} GroupsPrefix(u: Unicode, s: string, n: nat, j: nat)
    requires j <= n <= |s|
    ensures GroupsEnd(u, s[..n], j) <= GroupsEnd(u, s, j)
    ensures n == GroupsEnd(u, s, j) ==> GroupsEnd(u, s[..n], j) == n
    decreases n - j
  {
    var t := s[..n];
    if GroupsEnd(u, t, j) > j || (n == GroupsEnd(u, s, j) && n > j) {
      assert j + 4 <= n && t[j] == s[j] && t[j + 1] == s[j + 1] && t[j + 2] == s[j + 2] && t[j + 3] == s[j + 3];
      GroupsPrefix(u, s, n, j + 4);
    }
  }

  lemma RunPrefix(u: Unicode, s: string, n: nat, j: nat)
    requires j <= n <= |s|
    ensures DigitRun(u, s[..n], j) == if j + DigitRun(u, s, j) <= n then DigitRun(u, s, j) else n - j
  {
    var r := if j + DigitRun(u, s, j) <= n then DigitRun(u, s, j) else n - j;
    DigitRunIs(u, s[..n], j, r);
  }

  /** A token is a token on its own. */
  lemma TokenAlone(u: Unicode, s: string)
    requires u.Numerals() && s != "" && u.digit(s[0]) >= 0
    ensures var e := TokenEnd(u, s, 0); TokenEnd(u, s[..e], 0) == e
  {
    hide DigitRun, GroupsEnd;
    var e := TokenEnd(u, s, 0);
    var r := DigitRun(u, s, 0);
    RunPrefix(u, s, e, 0);
    GroupsPrefix(u, s, e, r);
    if r + 1 <= e { RunPrefix(u, s, e, r + 1); }
  }

  /** A digit or separator is its own case folding and is not white space. */
  lemma TokenFold(u: Unicode, t: string)
    requires u.Valid() && Tokenlike(u, t)
    ensures Strip(u, Fold(u, t)) == t
  {
    forall k | 0 <= k < |t|
      ensures u.fold(t[k]) == [t[k]] && !u.space(t[k])
    {
      assert u.Classified(t[k]);
    }
    FoldIdentity(u, t);
  }

  /**
   A match without a unit word yields no mention exactly when its token mixes one point with one comma:
   the guard then never compares it with the evidence.
   */
  lemma BareMatchUnparsed(u: Unicode, s: string, i: nat)
    requires u.Valid() && i < |s| && u.digit(s[i]) >= 0
    ensures var t := s[i..TokenEnd(u, s, i)];
      ParseMention(u, t).None? <==> Count(t, '.') == 1 && Count(t, ',') == 1
  {
    hide ParseDecimal, Classify, Count, TokenEnd;
    var e := TokenEnd(u, s, i);
    var t, rest := s[i..e], s[i..];
    TokenShape(u, s, i);
    SliceShiftAll(s, i, e);
    TokenShift(u, s[..i], rest);
    TokenAlone(u, rest);
    assert t == rest[..e - i];
    TokenFold(u, t);
    UnparsedToken(u, t);
    assert FirstDigit(u, t) == 0 && t[0..|t|] == t;
  }
}
