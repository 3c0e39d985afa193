/**
 What the mention scanner finds in a sentence whose last number is a printed one: the mentions the guard checks one by one.
 From 1000 on a number with decimals is found as two numbers, the grouped integer part and the decimals.
 */
module PrintedMentions {
  import opened Text
  import opened Decimals
  import opened NumericAuthority
  import opened NumericRoundTrip
  import opened DisplayProofs
  import opened MatchReading
  import opened Endings

  // ---------- where a match ends ----------

  lemma CommaMatch(u: Unicode, s: string, i: nat, t: nat)
    requires u.Valid() && u.Matching() && i < |s| && u.digit(s[i]) >= 0
    requires TokenEnd(u, s, i) == t && t < |s| && s[t] == ','
    ensures MatchEnd(u, s, i) == t
  {
    hide TokenEnd, SuffixEnd;
    assert u.Classified(',') by { assert u.space(',') || !u.space(','); }
    SuffixesAreWords();
    SuffixesNotEmpty();
    NoSuffixAt(u, s, t, SUFFIXES);
  }

  // ---------- the matches of a text ----------

  lemma {:induction false} SkipTo(u: Unicode, s: string, i: nat, j: nat)
    requires i <= j <= |s| && forall k | i <= k < j :: !Starts(u, s, k)
    ensures Matches(u, s, i) == Matches(u, s, j)
    decreases j - i
  {
    if i < j { SkipTo(u, s, i + 1, j); }
  }

  lemma NothingFrom(u: Unicode, s: string, i: nat)
    requires i <= |s| && forall k | i <= k < |s| :: u.digit(s[k]) < 0
    ensures Matches(u, s, i) == []
  {
    SkipTo(u, s, i, |s|);
  }

  /** No digits, and a number right after it is not glued to it. */
  predicate Quiet(u: Unicode, lead: string) {
    && (forall k | 0 <= k < |lead| :: u.digit(lead[k]) < 0)
    && (lead == "" || (!u.word(lead[|lead| - 1]) && lead[|lead| - 1] != '-'))
  }

  lemma LastSlices(s: string, i: nat, a: string, tail: string)
    requires i <= |s| && s[i..] == a + tail
    ensures s == s[..i] + s[i..] && i + |a| <= |s| && s[i + |a|..] == tail
  {
    assert s[i + |a|..] == s[i..][|a|..];
  }

  lemma RestQuiet(u: Unicode, s: string, t: nat, e: Ending, trail: string)
    requires u.Valid() && t <= |s| && s[t..] == TailOf(e, trail) && Trails(u, e, trail)
    ensures t + |WordOf(e)| <= |s| && forall k | t + |WordOf(e)| <= k < |s| :: u.digit(s[k]) < 0
  {
    hide WordOf, RestOf, Trails;
    var end, rest := t + |WordOf(e)|, RestOf(e) + trail;
    TailQuiet(u, e, trail);
    forall k | end <= k < |s|
      ensures u.digit(s[k]) < 0
    {
      assert s[k] == s[t..][k - t] == rest[k - end];
    }
  }

  /** The last number of a text. */
  lemma LastMatch(u: Unicode, s: string, i: nat, a: string, e: Ending, trail: string)
    requires u.Valid() && Trails(u, e, trail) && i < |s| && Starts(u, s, i) && s[i..] == a + TailOf(e, trail) && a != ""
    requires u.digit(a[0]) >= 0 && TokenEnd(u, a + TailOf(e, trail), 0) == |a|
    ensures i + |a| + |WordOf(e)| <= |s|
    ensures Matches(u, s, i) == [Span(i, i + |a| + |WordOf(e)|)]
  {
    hide TokenEnd, MatchEnd, WordOf, TailOf, Trails;
    var t := i + |a|;
    LastSlices(s, i, a, TailOf(e, trail));
    TokenShift(u, s[..i], s[i..]);
    EndingMatch(u, s, i, t, e, trail);
    RestQuiet(u, s, t, e, trail);
    var end := t + |WordOf(e)|;
    NothingFrom(u, s, end);
    MatchesFirst(u, s, i, end);
  }

  /** A grouped number, a comma, and the last number of the text, from position `i` on. */
  lemma CutMatches(u: Unicode, s: string, i: nat, g: string, f: string, e: Ending, trail: string)
    requires u.Valid() && u.Matching() && Trails(u, e, trail) && i < |s| && Starts(u, s, i)
    requires s[i..] == g + ([','] + (f + TailOf(e, trail)))
    requires g != "" && u.digit(g[0]) >= 0 && TokenEnd(u, g + ([','] + (f + TailOf(e, trail))), 0) == |g|
    requires f != "" && u.digit(f[0]) >= 0 && TokenEnd(u, f + TailOf(e, trail), 0) == |f|
    ensures var p := i + |g|;
      && p + 1 + |f| + |WordOf(e)| <= |s|
      && Matches(u, s, i) == [Span(i, p), Span(p + 1, p + 1 + |f| + |WordOf(e)|)]
  {
    hide TokenEnd, TailOf, MatchEnd, WordOf, Matches, Trails;
    var p, rest := i + |g|, g + ([','] + (f + TailOf(e, trail)));
    CutSlices(s, i, g, f, TailOf(e, trail));
    TokenShift(u, s[..i], rest);
    CommaMatch(u, s, i, p);
    NotGlued(u, s, p);
    MatchesFirst(u, s, i, p);
    SkipTo(u, s, p, p + 1);
    LastMatch(u, s, p + 1, f, e, trail);
  }

  lemma CutSlices(s: string, i: nat, g: string, f: string, tail: string)
    requires i <= |s| && s[i..] == g + ([','] + (f + tail)) && g != "" && f != ""
    ensures var p := i + |g|;
      && p + 1 < |s| && s == s[..i] + s[i..] && s[p] == ',' && s[p + 1] == f[0] && s[p + 1..] == f + tail
  {
    var p, rest := i + |g|, s[i..];
    assert s[p] == rest[|g|] && s[p + 1] == rest[|g| + 1] && s[p + 1..] == rest[|g| + 1..];
  }

  lemma QuietSkipped(u: Unicode, s: string, lead: string)
    requires Quiet(u, lead) && |lead| < |s| && s[..|lead|] == lead && u.digit(s[|lead|]) >= 0
    ensures Starts(u, s, |lead|) && Matches(u, s, 0) == Matches(u, s, |lead|)
  {
    assert forall k | 0 <= k < |lead| :: s[k] == lead[k];
    SkipTo(u, s, 0, |lead|);
  }

  lemma NotGlued(u: Unicode, s: string, p: nat)
    requires u.Valid() && p + 1 < |s| && s[p] == ',' && u.digit(s[p + 1]) >= 0
    ensures !Starts(u, s, p) && Starts(u, s, p + 1)
  {
    assert u.Classified(',') by { assert u.word(',') || !u.word(','); }
  }

  lemma MatchesFirst(u: Unicode, s: string, i: nat, p: nat)
    requires i < |s| && Starts(u, s, i) && MatchEnd(u, s, i) == p
    ensures Matches(u, s, i) == [Span(i, p)] + Matches(u, s, p)
  {}

  // ---------- what the matches read as ----------

  lemma WordEnds(u: Unicode, e: Ending)
    requires u.Valid()
    ensures Ends(u, WordOf(e))
  {
    hide UnitLetter, WordOf;
    WordLetters(e);
    LettersQuiet(u, WordOf(e));
  }

  lemma WordPrintable(e: Ending)
    ensures AllPrintable(WordOf(e)) && (WordOf(e) != "" ==> WordOf(e)[|WordOf(e)| - 1] != ' ')
  {
    WordLetters(e);
  }

  lemma NumericNotSpace(a: string)
    requires Numeric(a) && a != ""
    ensures AllPrintable(a) && a[0] != ' ' && a[|a| - 1] != ' '
  {}

  lemma WithWordPrintable(a: string, e: Ending)
    requires Numeric(a) && a != ""
    ensures var s := a + WordOf(e); AllPrintable(s) && s != "" && s[0] != ' ' && s[|s| - 1] != ' '
  {
    hide WordOf;
    WordPrintable(e);
    NumericNotSpace(a);
    assert WordOf(e) == "" ==> a + WordOf(e) == a;
  }

  lemma PercentKind(u: Unicode, a: string, value: real)
    requires u.Valid() && Numeric(a)
    ensures Classify(u, a + "%", value) == Parsed(value, Some(Percent), None)
  {
    hide Contains, ContainsWord, NormalizeUnit, MoneyScale, Numeric;
    var s := a + "%";
    forall p | p in MONEY_WORDS
      ensures !Contains(s, p)
    {
      LetterBefore(a, p);
    }
    LetterBefore(a, "tr");
    LetterBefore(a, "k");
    AbsentWord(u, s, "tr", 't');
    AbsentWord(u, s, "k", 'k');
    PercentInside(a);
  }

  lemma PercentInside(a: string)
    ensures Contains(a + "%", "%")
  {
    var s := a + "%";
    assert s[|a|..|a| + 1] == "%";
    assert At(s, |a|, "%");
  }

  /** Digits, separators and a percent sign contain no word that starts with a letter. */
  lemma LetterBefore(a: string, w: string)
    requires Numeric(a) && LetterFirst(w) && w[0] != '%'
    ensures !Contains(a + "%", w) && w[0] !in a + "%"
  {
    NumericLacks(a, w[0]);
    AbsentLetter(a + "%", w, w[0]);
  }

  // ---------- measures ----------

  lemma LacksLetter(a: string, w: string, c: char)
    requires Numeric(a) && !('0' <= c <= '9') && c != '.' && c != ',' && c != '-' && c !in w
    ensures c !in a + w
  {
    NumericLacks(a, c);
  }

  lemma WordLacks(u: Unicode, a: string, w: string, p: string, c: char)
    requires Numeric(a) && !('0' <= c <= '9') && c != '.' && c != ',' && c != '-' && c !in w && c in p
    ensures !Contains(a + w, p) && !ContainsWord(u, a + w, p)
  {
    LacksLetter(a, w, c);
    AbsentLetter(a + w, p, c);
    AbsentWord(u, a + w, p, c);
  }

  predicate Measure(w: string) {
    w == " kg" || w == " g" || w == " cái" || w == " ngày" || w == " sku" || w == " nguyên liệu"
  }

  /** In " kg" and " sku" the "k" is no word of its own. */
  lemma NoThousands(u: Unicode, a: string, w: string)
    requires u.Valid() && Numeric(a) && Measure(w)
    ensures !ContainsWord(u, a + w, "k")
  {
    var s := a + w;
    if w == " kg" {
      assert u.Classified('k') && u.Classified('g') by { assert u.word('k') || !u.word('k'); assert u.word('g') || !u.word('g'); }
      NumericLacks(a, 'k');
      assert forall j | 0 <= j < |a| :: s[j] == a[j] && a[j] in a;
      forall i | 0 <= i <= |s|
        ensures !(At(s, i, "k") && Boundary(u, s, i + 1))
      {
        if i < |s| && s[i..i + 1] == "k" { KiloAt(a, s, i); }
      }
    } else if w == " sku" {
      SkuLetters(u, a);
    } else {
      WordLacks(u, a, w, "k", 'k');
    }
  }

  lemma SkuLetters(u: Unicode, a: string)
    requires u.Valid() && Numeric(a)
    ensures !ContainsWord(u, a + " sku", "k")
  {
    hide UnitLetter, Numeric;
    var s := a + " sku";
    NumericLacks(a, 'k');
    LettersOf();
    LetterIsWord(u, 's');
    LetterIsWord(u, 'k');
    assert forall j | 0 <= j < |a| :: s[j] == a[j] && a[j] in a;
    forall i | 0 <= i <= |s|
      ensures !(At(s, i, "k") && Boundary(u, s, i))
    {
      if i < |s| && s[i..i + 1] == "k" {
        assert s[i..i + 1][0] == s[i] == 'k';
        assert i == |a| + 2 && s[i - 1] == 's';
      }
    }
  }

  lemma KiloAt(a: string, s: string, i: nat)
    requires s == a + " kg" && (forall j | 0 <= j < |a| :: s[j] != 'k') && i < |s| && s[i..i + 1] == "k"
    ensures i + 2 == |s| && s[i] == 'k' && s[i + 1] == 'g'
  {
    assert s[i..i + 1][0] == s[i] == 'k';
  }

  lemma DayLetters(a: string)
    requires Numeric(a)
    ensures !Contains(a + " ngày", "ngàn")
  {
    hide Numeric;
    var s := a + " ngày";
    NumericLacks(a, 'n');
    assert forall j | 0 <= j < |a| :: s[j] == a[j] && a[j] in a;
    forall i | 0 <= i <= |s|
      ensures !At(s, i, "ngàn")
    {
      if i + 4 <= |s| {
        assert s[i..i + 4][0] == s[i] && s[i..i + 4][3] == s[i + 3];
      }
    }
  }

  lemma NoMoney(u: Unicode, a: string, w: string)
    requires u.Valid() && Numeric(a) && Measure(w)
    ensures !SaysMoney(u, a + w) && !Contains(a + w, "%") && !Contains(a + w, "phần trăm")
  {
    hide Contains, ContainsWord, Numeric;
    NoThousands(u, a, w);
    WordLacks(u, a, w, "triệu", 't');
    WordLacks(u, a, w, "nghìn", 'h');
    if w == " ngày" { DayLetters(a); } else { WordLacks(u, a, w, "ngàn", 'à'); }
    WordLacks(u, a, w, "đồng", 'đ');
    WordLacks(u, a, w, "vnd", 'v');
    WordLacks(u, a, w, "tr", 't');
    WordLacks(u, a, w, "%", '%');
    WordLacks(u, a, w, "phần trăm", 'p');
  }

  lemma {:induction false} AliasAt(u: Unicode, s: string, aliases: seq<(string, string)>, k: nat)
    requires k < |aliases| && ContainsWord(u, s, aliases[k].0)
    requires forall i | 0 <= i < k :: !ContainsWord(u, s, aliases[i].0)
    ensures FirstAlias(u, s, aliases) == Some(aliases[k].1)
  {
    hide ContainsWord;
    if k > 0 {
      assert forall i | 0 <= i < |aliases[1..]| :: aliases[1..][i] == aliases[i + 1];
      AliasAt(u, s, aliases[1..], k - 1);
    }
  }

  /** The unit stands between the space and the end of the text. */
  lemma UnitIsWord(u: Unicode, a: string, unit: string)
    requires u.Valid() && unit != "" && UnitLetter(unit[0]) && UnitLetter(unit[|unit| - 1])
    ensures ContainsWord(u, a + (" " + unit), unit)
  {
    var s, i := a + (" " + unit), |a| + 1;
    assert s[i..i + |unit|] == unit && s[i - 1] == ' ' && s[i] == unit[0] && s[|s| - 1] == unit[|unit| - 1];
    LetterIsWord(u, unit[0]);
    LetterIsWord(u, unit[|unit| - 1]);
    assert u.Classified(' ') by { assert u.word(' ') || !u.word(' '); }
    assert At(s, i, unit) && Boundary(u, s, i) && Boundary(u, s, i + |unit|);
  }

  lemma LetterIsWord(u: Unicode, c: char)
    requires u.Valid() && UnitLetter(c)
    ensures u.word(c)
  {
    assert u.Classified(c) by { assert u.word(c) || !u.word(c); }
  }

  lemma GramAlias(u: Unicode, a: string)
    requires u.Valid() && Numeric(a)
    ensures FirstAlias(u, a + " g", UNIT_ALIASES) == Some("g")
  {
    hide ContainsWord, Numeric, UnitLetter;
    var w := " g";
    WordLacks(u, a, w, "kg", 'k'); WordLacks(u, a, w, "liters", 'l'); WordLacks(u, a, w, "litres", 'l');
    WordLacks(u, a, w, "lít", 'l'); WordLacks(u, a, w, "cái", 'c'); WordLacks(u, a, w, "ngày", 'n');
    WordLacks(u, a, w, "days", 'd'); WordLacks(u, a, w, "sku", 's'); WordLacks(u, a, w, "nguyên liệu", 'n');
    WordLacks(u, a, w, "ingredients", 'n');
    LettersOf();
    UnitIsWord(u, a, "g");
    assert " " + "g" == w;
    AliasAt(u, a + w, UNIT_ALIASES, 10);
  }

  lemma PieceAlias(u: Unicode, a: string)
    requires u.Valid() && Numeric(a)
    ensures FirstAlias(u, a + " cái", UNIT_ALIASES) == Some("cái")
  {
    hide ContainsWord, Numeric, UnitLetter;
    var w := " cái";
    WordLacks(u, a, w, "kg", 'k'); WordLacks(u, a, w, "liters", 'l'); WordLacks(u, a, w, "litres", 'l');
    WordLacks(u, a, w, "lít", 'l');
    LettersOf();
    UnitIsWord(u, a, "cái");
    assert " " + "cái" == w;
    AliasAt(u, a + w, UNIT_ALIASES, 4);
  }

  lemma KiloAlias(u: Unicode, a: string)
    requires u.Valid() && Numeric(a)
    ensures FirstAlias(u, a + " kg", UNIT_ALIASES) == Some("kg")
  {
    hide ContainsWord, Numeric, UnitLetter;
    LettersOf();
    UnitIsWord(u, a, "kg");
    assert " " + "kg" == " kg";
    AliasAt(u, a + " kg", UNIT_ALIASES, 0);
  }

  lemma DayAlias(u: Unicode, a: string)
    requires u.Valid() && Numeric(a)
    ensures FirstAlias(u, a + " ngày", UNIT_ALIASES) == Some("ngày")
  {
    hide ContainsWord, Numeric, UnitLetter;
    var w := " ngày";
    WordLacks(u, a, w, "kg", 'k'); WordLacks(u, a, w, "liters", 'l'); WordLacks(u, a, w, "litres", 'l');
    WordLacks(u, a, w, "lít", 'l'); WordLacks(u, a, w, "cái", 'c');
    LettersOf();
    UnitIsWord(u, a, "ngày");
    assert " " + "ngày" == w;
    AliasAt(u, a + w, UNIT_ALIASES, 5);
  }

  lemma SkuAlias(u: Unicode, a: string)
    requires u.Valid() && Numeric(a)
    ensures FirstAlias(u, a + " sku", UNIT_ALIASES) == Some("sku")
  {
    hide ContainsWord, Numeric, UnitLetter;
    var w := " sku";
    WordLacks(u, a, w, "kg", 'g'); WordLacks(u, a, w, "liters", 'l'); WordLacks(u, a, w, "litres", 'l');
    WordLacks(u, a, w, "lít", 'l'); WordLacks(u, a, w, "cái", 'c'); WordLacks(u, a, w, "ngày", 'n');
    WordLacks(u, a, w, "days", 'd');
    LettersOf();
    UnitIsWord(u, a, "sku");
    assert " " + "sku" == w;
    AliasAt(u, a + w, UNIT_ALIASES, 7);
  }

  lemma IngredientAlias(u: Unicode, a: string)
    requires u.Valid() && Numeric(a)
    ensures FirstAlias(u, a + " nguyên liệu", UNIT_ALIASES) == Some("nguyên liệu")
  {
    hide ContainsWord, Numeric, UnitLetter;
    var w := " nguyên liệu";
    WordLacks(u, a, w, "kg", 'k'); WordLacks(u, a, w, "liters", 't'); WordLacks(u, a, w, "litres", 't');
    WordLacks(u, a, w, "lít", 't'); WordLacks(u, a, w, "cái", 'c'); WordLacks(u, a, w, "ngày", 'à');
    WordLacks(u, a, w, "days", 'd'); WordLacks(u, a, w, "sku", 's');
    LettersOf();
    UnitIsWord(u, a, "nguyên liệu");
    assert " " + "nguyên liệu" == w;
    AliasAt(u, a + w, UNIT_ALIASES, 8);
  }

  lemma MeasureKind(u: Unicode, a: string, e: Ending, value: real)
    requires u.Valid() && Numeric(a) && UnitOf(e).Some?
    ensures Classify(u, a + WordOf(e), value) == Parsed(value, KindOf(e), UnitOf(e))
  {
    hide Contains, SaysMoney, FirstAlias, Numeric, AllPrintable, MoneyScale;
    var s := a + WordOf(e);
    NoMoney(u, a, WordOf(e));
    NumericPrintable(a);
    WordPrintable(e);
    BothPrintable(a, WordOf(e));
    PrintableFold(u, s);
    match e {
      case Kilograms => KiloAlias(u, a);
      case Grams => GramAlias(u, a);
      case Pieces => PieceAlias(u, a);
      case Daily => DayAlias(u, a);
      case Skus => SkuAlias(u, a);
      case Ingredients => IngredientAlias(u, a);
    }
  }

  lemma NumericPrintable(a: string)
    requires Numeric(a)
    ensures AllPrintable(a)
  {}

  lemma BothPrintable(a: string, b: string)
    requires AllPrintable(a) && AllPrintable(b)
    ensures AllPrintable(a + b)
  {}

  lemma WordKind(u: Unicode, a: string, e: Ending, value: real)
    requires u.Valid() && Numeric(a)
    ensures Classify(u, a + WordOf(e), value) == Parsed(value * ScaleOf(e), KindOf(e), UnitOf(e))
  {
    hide Classify, Contains, Numeric;
    var s := a + WordOf(e);
    match e {
      case Bare =>
        assert s == a;
        PlainKind(u, a, value);
      case Percents => PercentKind(u, a, value);
      case Millions =>
        assert " " + "triệu" + "" == " triệu";
        WordInside(s, a, "triệu", "");
        MillionKind(u, s, value);
      case Thousands =>
        assert " " + "nghìn" + "" == " nghìn";
        WordInside(s, a, "nghìn", "");
        NotIn(a, " nghìn", 't');
        ThousandKind(u, s, value);
      case Dongs =>
        assert " " + "đồng" + "" == " đồng";
        WordInside(s, a, "đồng", "");
        NotIn(a, " đồng", 't'); NotIn(a, " đồng", 'h'); NotIn(a, " đồng", 'à'); NotIn(a, " đồng", 'k');
        DongKind(u, s, value);
      case _ => MeasureKind(u, a, e, value);
    }
  }

  lemma ReadEnding(u: Unicode, a: string, e: Ending, value: real)
    requires u.Valid() && Numeric(a) && a != "" && ReadToken(u, a + WordOf(e)) == Some(value)
    ensures ParseMention(u, a + WordOf(e)) == Some(Parsed(value * ScaleOf(e), KindOf(e), UnitOf(e)))
  {
    hide ReadToken, Classify, ParseMention, WordOf, ScaleOf, KindOf, UnitOf, Numeric, AllPrintable;
    WithWordPrintable(a, e);
    ReadPrinted(u, a + WordOf(e), value);
    WordKind(u, a, e, value);
  }

  lemma ReadAtStart(u: Unicode, body: string, t: nat, value: real)
    requires u.Numerals() && body != "" && u.digit(body[0]) >= 0
    requires t == TokenEnd(u, body, 0) && ParseDecimal(u, body[..t]) == Some(value)
    ensures ReadToken(u, body) == Some(value)
  {
    TokenAfterSign(u, "", body, t, value);
    assert "" + body == body;
  }

  /** The mention of printed hundredths as a whole. */
  function WholeMention(m: nat, e: Ending): Parsed {
    Parsed(Seen(m) * ScaleOf(e), KindOf(e), UnitOf(e))
  }

  lemma ReadWhole(u: Unicode, m: nat, e: Ending)
    requires u.Valid()
    ensures ParseMention(u, Hundredths(m) + WordOf(e)) == Some(WholeMention(m, e))
  {
    hide ParseDecimal, TokenEnd, Hundredths, ParseMention, WordOf, ReadToken, Numeric, Seen, ScaleOf, KindOf, UnitOf, Ends;
    var s, value := Hundredths(m) + WordOf(e), Seen(m);
    WordEnds(u, e);
    HundredthsShape(u, m);
    HundredthsToken(u, s, m, WordOf(e));
    ReadAtStart(u, s, TokenEnd(u, s, 0), value);
    ReadEnding(u, Hundredths(m), e, value);
    assert WholeMention(m, e) == Parsed(value * ScaleOf(e), KindOf(e), UnitOf(e));
  }

  /** The number that the decimals of `f` hundredths read as on their own. */
  function DecimalsAlone(f: nat): nat {
    if f % 10 == 0 then f / 10 else f
  }

  lemma FractionDigits(u: Unicode, f: nat)
    requires u.Valid() && 0 < f < 100
    ensures var t := FractionText(f);
      AsciiDigits(t) && 1 <= |t| <= 2 && Numeric(t) && NatValue(u, t) == DecimalsAlone(f)
  {
    FractionRead(u, f);
    AppendDigit(u, "", f / 10);
    AppendDigit(u, [Digit(f / 10)], f % 10);
    assert "" + [Digit(f / 10)] == [Digit(f / 10)];
    assert [Digit(f / 10)] + [Digit(f % 10)] == [Digit(f / 10), Digit(f % 10)];
    assert f == 10 * (f / 10) + f % 10;
  }

  /** One or two digits followed by the end of the text, a space or a percent sign are a token. */
  lemma ShortToken(u: Unicode, t: string, tail: string)
    requires u.Numerals() && Ends(u, tail) && AsciiDigits(t) && t != ""
    ensures var s := t + tail;
      u.digit(s[0]) >= 0 && TokenEnd(u, s, 0) == |t| && s[..|t|] == t && ParseDecimal(u, t) == Some(NatValue(u, t) as real)
  {
    hide NatValue;
    var s := t + tail;
    AsciiRead(u, t);
    DigitRunIs(u, s, 0, |t|);
    assert tail != "" ==> s[|t|] == tail[0];
    Absent(t, '.');
    Absent(t, ',');
    DigitsDecimal(u, t);
  }

  function LeftOver(f: nat, e: Ending): Parsed {
    Parsed(DecimalsAlone(f) as real * ScaleOf(e), KindOf(e), UnitOf(e))
  }

  lemma ReadLeftOver(u: Unicode, f: nat, e: Ending)
    requires u.Valid() && 0 < f < 100
    ensures ParseMention(u, FractionText(f) + WordOf(e)) == Some(LeftOver(f, e))
  {
    hide ParseDecimal, TokenEnd, FractionText, ParseMention, WordOf, ReadToken, Numeric, NatValue, ScaleOf, KindOf;
    hide DecimalsAlone, AsciiDigits, Ends;
    var t, value := FractionText(f), DecimalsAlone(f) as real;
    FractionReads(u, f, e);
    ReadAtStart(u, t + WordOf(e), |t|, value);
    ReadEnding(u, t, e, value);
    assert LeftOver(f, e) == Parsed(value * ScaleOf(e), KindOf(e), UnitOf(e));
  }

  lemma FractionReads(u: Unicode, f: nat, e: Ending)
    requires u.Valid() && 0 < f < 100
    ensures var t := FractionText(f);
      var s := t + WordOf(e);
      && t != "" && Numeric(t) && s != "" && u.digit(s[0]) >= 0 && TokenEnd(u, s, 0) == |t|
      && ParseDecimal(u, s[..|t|]) == Some(DecimalsAlone(f) as real)
  {
    hide ParseDecimal, TokenEnd, FractionText, WordOf, Numeric, NatValue, DecimalsAlone;
    WordEnds(u, e);
    FractionDigits(u, f);
    ShortToken(u, FractionText(f), WordOf(e));
  }

  // ---------- the mentions ----------

  /** Printed as one token: below 1000, or without decimals. */
  predicate OneToken(m: nat) {
    m < 100000 || m % 100 == 0
  }

  /** The mentions of `lead`, `m` printed hundredths and the ending. */
  function PrintedAs(lead: nat, m: nat, e: Ending): seq<Mention> {
    var g := Grouped(m / 100, '.');
    if OneToken(m) then
      var t := Hundredths(m) + WordOf(e);
      [Mention(WholeMention(m, e), t, lead, lead + |t|)]
    else
      var t := FractionText(m % 100) + WordOf(e);
      [Mention(Parsed((m / 100) as real, None, None), g, lead, lead + |g|),
       Mention(LeftOver(m % 100, e), t, lead + |g| + 1, lead + |g| + 1 + |t|)]
  }

  lemma OneParsed(u: Unicode, s: string, a: Span, p: Parsed)
    requires a.start < a.end <= |s| && ParseMention(u, s[a.start..a.end]) == Some(p)
    ensures ParsedMentions(u, s, [a]) == [Mention(p, s[a.start..a.end], a.start, a.end)]
  {
    hide ParseMention;
    assert ParsedMentions(u, s, [a][1..]) == [];
  }

  lemma TwoParsed(u: Unicode, s: string, a: Span, b: Span, p: Parsed, q: Parsed)
    requires a.start < a.end <= |s| && ParseMention(u, s[a.start..a.end]) == Some(p)
    requires b.start < b.end <= |s| && ParseMention(u, s[b.start..b.end]) == Some(q)
    ensures ParsedMentions(u, s, [a, b])
         == [Mention(p, s[a.start..a.end], a.start, a.end), Mention(q, s[b.start..b.end], b.start, b.end)]
  {
    hide ParseMention;
    OneParsed(u, s, b, q);
    assert [a, b][1..] == [b];
  }

  /** The scanner comes to position `i` without a match, and the number there is the last one. */
  lemma OneAt(u: Unicode, s: string, i: nat, a: string, e: Ending, trail: string, p: Parsed)
    requires u.Valid() && Trails(u, e, trail) && i < |s| && Starts(u, s, i) && Matches(u, s, 0) == Matches(u, s, i)
    requires s[i..] == a + TailOf(e, trail) && a != "" && u.digit(a[0]) >= 0 && TokenEnd(u, a + TailOf(e, trail), 0) == |a|
    requires ParseMention(u, a + WordOf(e)) == Some(p)
    ensures Mentions(u, s) == [Mention(p, a + WordOf(e), i, i + |a + WordOf(e)|)]
  {
    hide TokenEnd, TailOf, WordOf, Matches, ParsedMentions, ParseMention, Trails, Starts;
    LastMatch(u, s, i, a, e, trail);
    WordStarts(e, trail);
    LastSpan(s, i, a, WordOf(e), TailOf(e, trail));
    OneParsed(u, s, Span(i, i + |a| + |WordOf(e)|), p);
  }

  lemma LastSpan(s: string, i: nat, a: string, w: string, tail: string)
    requires i <= |s| && s[i..] == a + tail && |w| <= |tail| && tail[..|w|] == w
    ensures i + |a| + |w| <= |s| && s[i..i + |a| + |w|] == a + w
  {
    assert s[i..i + |a| + |w|] == s[i..][..|a| + |w|];
  }

  /** The scanner comes to position `i` without a match and finds a grouped number, and its decimals as another. */
  lemma TwoAt(u: Unicode, s: string, i: nat, g: string, t: string, e: Ending, trail: string, p: Parsed, q: Parsed)
    requires u.Valid() && u.Matching() && Trails(u, e, trail) && i < |s| && Starts(u, s, i)
    requires Matches(u, s, 0) == Matches(u, s, i) && s[i..] == g + ([','] + (t + TailOf(e, trail)))
    requires g != "" && u.digit(g[0]) >= 0 && TokenEnd(u, g + ([','] + (t + TailOf(e, trail))), 0) == |g|
    requires t != "" && u.digit(t[0]) >= 0 && TokenEnd(u, t + TailOf(e, trail), 0) == |t|
    requires ParseMention(u, g) == Some(p) && ParseMention(u, t + WordOf(e)) == Some(q)
    ensures var k := i + |g|;
      Mentions(u, s) == [Mention(p, g, i, k), Mention(q, t + WordOf(e), k + 1, k + 1 + |t + WordOf(e)|)]
  {
    hide TokenEnd, TailOf, WordOf, Matches, ParsedMentions, ParseMention, Trails, Starts;
    CutMatches(u, s, i, g, t, e, trail);
    WordStarts(e, trail);
    CutSpans(s, i, g, t, WordOf(e), TailOf(e, trail));
    var k := i + |g|;
    TwoParsed(u, s, Span(i, k), Span(k + 1, k + 1 + |t| + |WordOf(e)|), p, q);
  }

  lemma CutSpans(s: string, i: nat, g: string, t: string, w: string, tail: string)
    requires i <= |s| && s[i..] == g + ([','] + (t + tail)) && |w| <= |tail| && tail[..|w|] == w
    ensures var p := i + |g|;
      && p + 1 + |t| + |w| <= |s| && s[i..p] == g && s[p + 1..p + 1 + |t| + |w|] == t + w
  {
    var p, rest := i + |g|, s[i..];
    assert s[i..p] == rest[..|g|];
    assert s[p + 1..] == rest[|g| + 1..] == t + tail;
    LastSpan(s, p + 1, t, w, tail);
  }

  lemma HundredthsTokenEnd(u: Unicode, m: nat, e: Ending, trail: string)
    requires u.Valid() && Trails(u, e, trail)
    ensures var h, s := Hundredths(m), Hundredths(m) + TailOf(e, trail);
      && h != "" && u.digit(h[0]) >= 0
      && TokenEnd(u, s, 0) == if OneToken(m) then |h| else |Grouped(m / 100, '.')|
  {
    hide TokenEnd, TailOf, FractionText, Trails, Ends;
    var n, f, g, tail := m / 100, m % 100, Grouped(m / 100, '.'), TailOf(e, trail);
    TailEnds(u, e, trail);
    HundredthsShape(u, m);
    HundredthsText(m);
    assert m == 100 * n + f;
    if f == 0 {
      TokenPlain(u, n, tail);
    } else {
      FractionRead(u, f);
      TokenShortFraction(u, n, ',', FractionText(f), tail);
      assert Hundredths(m) + tail == g + ([','] + FractionText(f) + tail);
    }
  }

  lemma WholeSlices(s: string, lead: string, rest: string)
    requires s == lead + rest && rest != ""
    ensures |lead| < |s| && s[..|lead|] == lead && s[|lead|] == rest[0] && s[|lead|..] == rest
  {}

  /** Everything the scanner finds in a sentence whose last number is a printed one. */
  lemma PrintedMentionsAre(u: Unicode, lead: string, m: nat, e: Ending, trail: string)
    requires u.Valid() && u.Matching() && Quiet(u, lead) && Trails(u, e, trail)
    ensures Mentions(u, lead + (Hundredths(m) + TailOf(e, trail))) == PrintedAs(|lead|, m, e)
  {
    hide TokenEnd, TailOf, WordOf, Hundredths, FractionText, Matches, ParsedMentions, ParseMention, OneToken, Quiet, Grouped;
    hide Trails, Starts, WholeMention, LeftOver;
    var s := lead + (Hundredths(m) + TailOf(e, trail));
    HundredthsTokenEnd(u, m, e, trail);
    WholeSlices(s, lead, Hundredths(m) + TailOf(e, trail));
    QuietSkipped(u, s, lead);
    if OneToken(m) {
      ReadWhole(u, m, e);
      OneAt(u, s, |lead|, Hundredths(m), e, trail, WholeMention(m, e));
    } else {
      CutText(m, e, trail);
      CutFraction(u, m % 100, e, trail);
      GroupStart(u, m / 100);
      ReadGrouped(u, m / 100);
      ReadLeftOver(u, m % 100, e);
      TwoAt(u, s, |lead|, Grouped(m / 100, '.'), FractionText(m % 100), e, trail,
            Parsed((m / 100) as real, None, None), LeftOver(m % 100, e));
    }
  }

  lemma CutText(m: nat, e: Ending, trail: string)
    requires !OneToken(m)
    ensures m % 100 != 0
    ensures Hundredths(m) + TailOf(e, trail) == Grouped(m / 100, '.') + ([','] + (FractionText(m % 100) + TailOf(e, trail)))
  {
    hide TailOf, FractionText, Grouped, Hundredths;
    HundredthsText(m);
  }

  /** The decimals are a token of their own in front of the ending. */
  lemma CutFraction(u: Unicode, f: nat, e: Ending, trail: string)
    requires u.Valid() && 0 < f < 100 && Trails(u, e, trail)
    ensures var t := FractionText(f);
      t != "" && u.digit(t[0]) >= 0 && TokenEnd(u, t + TailOf(e, trail), 0) == |t|
  {
    hide TokenEnd, TailOf, FractionText, NatValue, Ends, Trails;
    FractionDigits(u, f);
    TailEnds(u, e, trail);
    ShortToken(u, FractionText(f), TailOf(e, trail));
  }

  lemma GroupStart(u: Unicode, n: nat)
    requires u.Numerals()
    ensures var g := Grouped(n, '.'); g != "" && u.digit(g[0]) >= 0
  {
    GroupedShape(n);
  }

  lemma ReadGrouped(u: Unicode, n: nat)
    requires u.Valid()
    ensures ParseMention(u, Grouped(n, '.')) == Some(Parsed(n as real, None, None))
  {
    hide ParseMention, Grouped, Hundredths;
    WholeIsHundredths(n);
    ReadHundredths(u, false, 100 * n);
    assert Sign(false) + Grouped(n, '.') == Grouped(n, '.');
  }
}
