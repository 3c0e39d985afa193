/** What a match of the mention pattern reads as: the token decides whether there is a number, the unit word cannot. */
module MatchReading {
  import opened Text
  import opened Decimals
  import opened NumericAuthority
  import opened NumericRoundTrip

  predicate WordChar(u: Unicode, c: char) {
    u.digit(c) < 0 && !IsSep(c)
  }

  /** No digits and no separators. */
  predicate Wordy(u: Unicode, s: string) {
    forall c | c in s :: WordChar(u, c)
  }

  // ---------- the unit words have no digits or separators ----------

  predicate UnitWord(w: string) {
    forall k | 0 <= k < |w| :: UnitLetter(w[k]) || w[k] == ' ' || w[k] == '%'
  }

  predicate UnitWords(suffixes: seq<(string, bool)>) {
    forall i | 0 <= i < |suffixes| :: UnitWord(suffixes[i].0)
  }

  lemma MoneyAndWeight()
    ensures UnitWord("triệu") && UnitWord("tr") && UnitWord("nghìn") && UnitWord("ngàn") && UnitWord("kg") && UnitWord("g")
    ensures UnitWord("litres") && UnitWord("litre") && UnitWord("liters") && UnitWord("liter") && UnitWord("l")
  {}

  lemma CountsAndDays()
    ensures UnitWord("cái") && UnitWord("sku") && UnitWord("nguyên liệu") && UnitWord("ingredients") && UnitWord("ingredient")
    ensures UnitWord("ngày") && UnitWord("days") && UnitWord("day")
  {}

  lemma OthersAreWords()
    ensures UnitWord("vnd") && UnitWord("đồng") && UnitWord("k") && UnitWord("%") && UnitWord("phần trăm")
  {}

  lemma SuffixesAreWords()
    ensures UnitWords(SUFFIXES)
  {
    hide UnitWord;
    MoneyAndWeight();
    CountsAndDays();
    OthersAreWords();
    assert |SUFFIXES| == 24;
  }

  lemma AlikeWord(u: Unicode, s: string, j: nat, p: string)
    requires u.Valid() && u.Matching() && UnitWord(p) && AtAlike(u, s, j, p)
    ensures forall k | j <= k < j + |p| :: WordChar(u, s[k])
  {
    forall k | j <= k < j + |p|
      ensures WordChar(u, s[k])
    {
      assert u.alike(s[j + (k - j)], p[k - j]) && u.Caseless(s[k], p[k - j]);
    }
  }

  lemma {:induction false} SuffixChars(u: Unicode, s: string, j: nat, suffixes: seq<(string, bool)>)
    requires u.Valid() && u.Matching() && UnitWords(suffixes) && SuffixEnd(u, s, j, suffixes).Some?
    ensures forall k | j <= k < SuffixEnd(u, s, j, suffixes).value :: WordChar(u, s[k])
  {
    hide UnitWord;
    var (p, bounded) := suffixes[0];
    assert UnitWord(suffixes[0].0);
    if AtAlike(u, s, j, p) && (bounded ==> Boundary(u, s, j + |p|)) {
      AlikeWord(u, s, j, p);
    } else {
      assert forall i | 0 <= i < |suffixes[1..]| :: suffixes[1..][i] == suffixes[i + 1];
      SuffixChars(u, s, j, suffixes[1..]);
    }
  }

  lemma {:induction false} SpaceChars(u: Unicode, s: string, i: nat)
    requires u.Valid() && i <= |s|
    ensures forall k | i <= k < SpaceEnd(u, s, i) :: WordChar(u, s[k])
    decreases |s| - i
  {
    if i < |s| && u.space(s[i]) {
      assert u.Classified(s[i]);
      SpaceChars(u, s, i + 1);
    }
  }

  /** After the token a match holds spaces and a unit word, or nothing. */
  lemma MatchTail(u: Unicode, s: string, i: nat)
    requires u.Valid() && u.Matching() && i < |s| && u.digit(s[i]) >= 0
    ensures Wordy(u, s[TokenEnd(u, s, i)..MatchEnd(u, s, i)])
  {
    hide TokenEnd;
    var t, e := TokenEnd(u, s, i), MatchEnd(u, s, i);
    SuffixesAreWords();
    SpaceChars(u, s, t);
    var j := SpaceEnd(u, s, t);
    if e > t {
      SuffixChars(u, s, j, SUFFIXES);
      assert forall k | t <= k < e :: WordChar(u, s[k]);
      assert forall c | c in s[t..e] :: exists k :: t <= k < e && s[k] == c;
    }
  }

  // ---------- the text of a match, folded and stripped ----------

  lemma {:induction false} FoldWordy(u: Unicode, w: string)
    requires u.Matching() && Wordy(u, w)
    ensures Wordy(u, Fold(u, w))
  {
    if w != "" {
      assert w[0] in w && forall c | c in w[1..] :: c in w;
      assert u.FoldsApart(w[0]) by { assert u.fold(w[0]) == u.fold(w[0]); }
      FoldWordy(u, w[1..]);
    }
  }

  lemma {:induction false} GroupsThen(u: Unicode, t: string, rest: string, j: nat)
    requires j <= |t| && (rest == "" || WordChar(u, rest[0]))
    ensures GroupsEnd(u, t + rest, j) == GroupsEnd(u, t, j)
    decreases |t| - j
  {
    var s := t + rest;
    assert forall k | 0 <= k < |t| :: s[k] == t[k];
    assert rest != "" ==> s[|t|] == rest[0];
    if j + 4 <= |t| {
      GroupsThen(u, t, rest, j + 4);
    }
  }

  lemma RunThen(u: Unicode, t: string, rest: string, j: nat)
    requires j <= |t| && (rest == "" || WordChar(u, rest[0]))
    ensures DigitRun(u, t + rest, j) == DigitRun(u, t, j)
  {
    var s, n := t + rest, DigitRun(u, t, j);
    assert forall k | 0 <= k < |t| :: s[k] == t[k];
    assert rest != "" ==> s[|t|] == rest[0];
    DigitRunIs(u, s, j, n);
  }

  /** What follows a token without starting with a digit or separator does not change where it ends. */
  lemma TokenThen(u: Unicode, t: string, rest: string)
    requires t != "" && u.digit(t[0]) >= 0 && (rest == "" || WordChar(u, rest[0]))
    ensures TokenEnd(u, t + rest, 0) == TokenEnd(u, t, 0)
  {
    hide DigitRun, GroupsEnd;
    var s, r := t + rest, DigitRun(u, t, 0);
    RunThen(u, t, rest, 0);
    GroupsThen(u, t, rest, r);
    assert s[0] == t[0];
    if r + 1 <= |t| {
      RunThen(u, t, rest, r + 1);
      assert s[r] == t[r];
      if r + 1 < |t| { assert s[r + 1] == t[r + 1]; } else { assert rest != "" ==> s[r + 1] == rest[0]; }
    } else {
      assert rest != "" ==> s[r] == rest[0];
    }
  }

  lemma LoweredMatch(u: Unicode, t: string, w: string) returns (rest: string)
    requires u.Valid() && u.Matching() && Tokenlike(u, t) && Wordy(u, w)
    ensures Strip(u, Fold(u, t + w)) == t + rest && Wordy(u, rest)
  {
    hide Tokenlike, Wordy, Fold, RStrip;
    var f := Fold(u, w);
    FoldAppend(u, t, w);
    TokenFoldAlone(u, t);
    FoldWordy(u, w);
    assert (t + f)[0] == t[0];
    assert LStrip(u, t + f) == t + f;
    var n := RStripKeeps(u, t, f);
    rest := f[..n];
    PrefixWordy(u, f, n);
  }

  lemma PrefixWordy(u: Unicode, f: string, n: nat)
    requires n <= |f| && Wordy(u, f)
    ensures Wordy(u, f[..n])
  {}

  lemma TokenFoldAlone(u: Unicode, t: string)
    requires u.Valid() && Tokenlike(u, t)
    ensures Fold(u, t) == t && !u.space(t[0]) && !u.space(t[|t| - 1]) && t != ""
  {
    forall k | 0 <= k < |t|
      ensures u.fold(t[k]) == [t[k]] && !u.space(t[k])
    {
      assert u.Classified(t[k]);
    }
    FoldIdentity(u, t);
  }

  /** Reading a token with a unit word after it: the number is the token's. */
  lemma ReadMatch(u: Unicode, t: string, w: string)
    requires u.Valid() && u.Matching() && Tokenlike(u, t) && TokenEnd(u, t, 0) == |t| && Wordy(u, w)
    ensures ReadToken(u, Strip(u, Fold(u, t + w))) == ParseDecimal(u, t)
    ensures ParseMention(u, t + w).Some? <==> ParseDecimal(u, t).Some?
  {
    hide ParseDecimal, Classify, Fold, Strip, TokenEnd;
    var rest := LoweredMatch(u, t, w);
    var s := t + rest;
    TokenThen(u, t, rest);
    assert s[0] == t[0] && FirstDigit(u, s) == 0;
    assert s[0..|t|] == t;
  }

  /** The token of a match, on its own, and what follows it. */
  lemma MatchParts(u: Unicode, s: string, i: nat)
    requires u.Valid() && u.Matching() && i < |s| && u.digit(s[i]) >= 0
    ensures var t, w := s[i..TokenEnd(u, s, i)], s[TokenEnd(u, s, i)..MatchEnd(u, s, i)];
      && s[i..MatchEnd(u, s, i)] == t + w && Wordy(u, w) && Tokenlike(u, t) && TokenEnd(u, t, 0) == |t|
  {
    hide TokenEnd, MatchEnd, Tokenlike, Wordy;
    var e := TokenEnd(u, s, i);
    var rest := s[i..];
    MatchTail(u, s, i);
    TokenShape(u, s, i);
    SliceShiftAll(s, i, e);
    TokenShift(u, s[..i], rest);
    TokenAlone(u, rest);
    assert s[i..e] == rest[..e - i];
    assert s[i..MatchEnd(u, s, i)] == s[i..e] + s[e..MatchEnd(u, s, i)];
  }

  /**
   A match, with or without a unit word, yields no mention exactly when its token mixes one point with one comma:
   the guard then never compares it with the evidence.
   */
  lemma MatchUnparsed(u: Unicode, s: string, i: nat)
    requires u.Valid() && u.Matching() && i < |s| && u.digit(s[i]) >= 0
    ensures var t := s[i..TokenEnd(u, s, i)];
      ParseMention(u, s[i..MatchEnd(u, s, i)]).None? <==> Count(t, '.') == 1 && Count(t, ',') == 1
  {
    hide TokenEnd, MatchEnd, Tokenlike, Wordy, ParseMention, ParseDecimal, Count;
    MatchParts(u, s, i);
    var t, w := s[i..TokenEnd(u, s, i)], s[TokenEnd(u, s, i)..MatchEnd(u, s, i)];
    ReadMatch(u, t, w);
    UnparsedToken(u, t);
  }

  // ---------- mentions are not negative ----------

  lemma {:induction false} FractionNotNegative(u: Unicode, s: string)
    ensures FractionValue(u, s) >= 0.0
  {
    if s != "" { FractionNotNegative(u, s[1..]); }
  }

  lemma DecimalNotNegative(u: Unicode, s: string)
    ensures DecimalOf(u, s).Some? ==> DecimalOf(u, s).value >= 0.0
  {
    hide FractionValue, NatValue, AllDigits;
    var k := DigitRun(u, s, 0);
    if k + 1 < |s| { FractionNotNegative(u, s[k + 1..]); }
  }

  lemma TokenNotNegative(u: Unicode, raw: string)
    ensures ParseDecimal(u, raw).Some? ==> ParseDecimal(u, raw).value >= 0.0
  {
    hide DecimalOf, Remove, Count, IndexOf;
    DecimalNotNegative(u, Remove(Remove(raw, '.'), ','));
    DecimalNotNegative(u, raw);
    if '.' in raw || ',' in raw {
      var k := IndexOf(raw, if '.' in raw then '.' else ',');
      DecimalNotNegative(u, raw[..k] + raw[k + 1..]);
      DecimalNotNegative(u, raw[..k] + "." + raw[k + 1..]);
    }
  }

  /** A mention reads as a number that is not negative: the pattern never takes a sign in. */
  lemma MentionNotNegative(u: Unicode, text: string)
    ensures ParseMention(u, text).Some? ==> ParseMention(u, text).value.value >= 0.0
  {
    hide ParseDecimal, NormalizeUnit, SaysMoney, Contains, ContainsWord, TokenEnd;
    var lowered := Strip(u, Fold(u, text));
    var i := FirstDigit(u, lowered);
    if i < |lowered| {
      TokenNotNegative(u, lowered[i..TokenEnd(u, lowered, i)]);
    }
  }
}
