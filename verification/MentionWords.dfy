/**
 What a number means with one word after it, for every word: the kinds and scales of `parse_numeric_mention` and
 `_normalize_unit`, app/decision_intelligence/numeric_authority.py, lines 115 to 128 and 204 to 213.
 */
module MentionWords {
  import opened Text
  import opened Decimals
  import opened NumericAuthority
  import opened NumericRoundTrip
  import opened DisplayProofs
  import opened PrintedMentions

  // ---------- one word after a number ----------

  predicate Letters(w: string) {
    w != "" && forall k | 0 <= k < |w| :: UnitLetter(w[k])
  }

  /** What starts with a letter can only stand inside the word. */
  lemma InWord(a: string, w: string, p: string, i: nat)
    requires Numeric(a) && Letters(w) && p != "" && UnitLetter(p[0])
    ensures At(a + " " + w, i, p) <==> i >= |a| + 1 && At(w, i - |a| - 1, p)
  {
    var s, n := a + " " + w, |a| + 1;
    assert s[n..] == w;
    if i + |p| <= |s| {
      assert s[i..i + |p|][0] == s[i];
      if i < |a| {
        assert s[i] == a[i];
        NoLetter(a[i]);
      } else if i == |a| {
        assert s[i] == ' ' && !UnitLetter(' ');
      } else {
        assert s[i..i + |p|] == w[i - n..i - n + |p|];
      }
    }
  }

  lemma NoLetter(c: char)
    requires '0' <= c <= '9' || c == '.' || c == ',' || c == '-'
    ensures !UnitLetter(c)
  {}

  lemma ContainedIff(a: string, w: string, p: string)
    requires Numeric(a) && Letters(w) && p != "" && UnitLetter(p[0])
    ensures Contains(a + " " + w, p) <==> Contains(w, p)
  {
    hide At, Numeric, UnitLetter;
    var s, n := a + " " + w, |a| + 1;
    forall i: nat
      ensures At(s, i, p) <==> i >= n && At(w, i - n, p)
    {
      InWord(a, w, p, i);
    }
    if i: nat :| i <= |w| && At(w, i, p) {
      assert At(s, n + i, p) by { assert i == n + i - n; }
    }
  }

  /** The only word it contains is the word itself. */
  lemma OnlyWord(u: Unicode, a: string, w: string, p: string)
    requires u.Valid() && Numeric(a) && Letters(w) && p != "" && UnitLetter(p[0])
    ensures ContainsWord(u, a + " " + w, p) <==> p == w
  {
    hide Numeric, UnitLetter;
    var s, n := a + " " + w, |a| + 1;
    LettersAreWords(u, w);
    assert forall k | n <= k < |s| :: s[k] == w[k - n];
    assert u.Classified(' ') by { assert u.word(' ') || !u.word(' '); }
    if i :| 0 <= i <= |s| && At(s, i, p) && Boundary(u, s, i) && Boundary(u, s, i + |p|) {
      InWord(a, w, p, i);
      assert i == n && i + |p| == |s|;
      assert p == w;
    }
    if p == w {
      assert s[n..] == w && At(s, n, p) && s[n - 1] == ' ';
      assert Boundary(u, s, n) && Boundary(u, s, n + |p|);
    }
  }

  lemma LettersAreWords(u: Unicode, w: string)
    requires u.Valid() && Letters(w)
    ensures forall k | 0 <= k < |w| :: u.word(w[k])
  {
    hide UnitLetter;
    forall k | 0 <= k < |w|
      ensures u.word(w[k])
    {
      LetterIsWord(u, w[k]);
    }
  }

  // ---------- the kinds ----------

  predicate MoneyWord(w: string) {
    || Contains(w, "triệu") || w == "tr" || Contains(w, "nghìn") || Contains(w, "ngàn") || w == "k"
    || Contains(w, "đồng") || Contains(w, "vnd")
  }

  function ScaleWord(w: string): real {
    if Contains(w, "triệu") || w == "tr" then 1000000.0
    else if Contains(w, "nghìn") || Contains(w, "ngàn") || w == "k" then 1000.0
    else 1.0
  }

  /** What a number followed by the word `w` reads as. */
  function WithWord(value: real, w: string): Parsed {
    if MoneyWord(w) then Parsed(value * ScaleWord(w), Some(Money), None)
    else if w == "kg" || w == "g" || w == "cái" then Parsed(value, Some(Quantity), Some(w))
    else if w == "l" || w == "lít" || w == "liters" || w == "litres" then Parsed(value, Some(Quantity), Some("l"))
    else if w == "ngày" then Parsed(value, Some(Days), Some("ngày"))
    else if w == "days" then Parsed(value, Some(Days), Some("day"))
    else if w == "sku" then Parsed(value, Some(Tally), Some("sku"))
    else if w == "ingredients" then Parsed(value, Some(Tally), Some("ingredient"))
    else Parsed(value, None, None)
  }

  lemma FirstLetters()
    ensures UnitLetter('t') && UnitLetter('n') && UnitLetter('đ') && UnitLetter('v') && UnitLetter('k') && UnitLetter('l')
    ensures UnitLetter('c') && UnitLetter('d') && UnitLetter('s') && UnitLetter('i') && UnitLetter('g') && UnitLetter('p')
  {}

  lemma MoneyIff(u: Unicode, a: string, w: string)
    requires u.Valid() && Numeric(a) && Letters(w)
    ensures SaysMoney(u, a + " " + w) <==> MoneyWord(w)
    ensures MoneyScale(u, a + " " + w) == ScaleWord(w)
  {
    hide Contains, ContainsWord, Numeric, UnitLetter, Letters;
    FirstLetters();
    ContainedIff(a, w, "triệu");
    ContainedIff(a, w, "nghìn");
    ContainedIff(a, w, "ngàn");
    ContainedIff(a, w, "đồng");
    ContainedIff(a, w, "vnd");
    OnlyWord(u, a, w, "tr");
    OnlyWord(u, a, w, "k");
    var ps := MONEY_WORDS;
    assert ps[0] in ps && ps[1] in ps && ps[2] in ps && ps[3] in ps && ps[4] in ps;
  }

  lemma NoPercent(a: string, w: string)
    requires Numeric(a) && Letters(w)
    ensures !Contains(a + " " + w, "%") && !Contains(a + " " + w, "phần trăm")
  {
    var s := a + " " + w;
    assert '%' !in s && !UnitLetter('%');
    AbsentLetter(s, "%", '%');
    ContainedIff(a, w, "phần trăm");
    assert ' ' !in w && "phần trăm"[4] == ' ';
    AbsentLetter(w, "phần trăm", ' ');
  }

  lemma AliasesStart()
    ensures |UNIT_ALIASES| == 12
      && forall i | 0 <= i < 12 :: UNIT_ALIASES[i].0 != "" && UnitLetter(UNIT_ALIASES[i].0[0])
  {}

  lemma {:induction false} AliasOf(u: Unicode, a: string, w: string, aliases: seq<(string, string)>)
    requires u.Valid() && Numeric(a) && Letters(w)
    requires forall i | 0 <= i < |aliases| :: aliases[i].0 != "" && UnitLetter(aliases[i].0[0])
    ensures FirstAlias(u, a + " " + w, aliases) == Named(w, aliases)
  {
    hide ContainsWord, Numeric, UnitLetter, Letters;
    if aliases != [] {
      OnlyWord(u, a, w, aliases[0].0);
      assert forall i | 0 <= i < |aliases[1..]| :: aliases[1..][i] == aliases[i + 1];
      AliasOf(u, a, w, aliases[1..]);
    }
  }

  /** The unit under which a word is listed. */
  function Named(w: string, aliases: seq<(string, string)>): Option<string> {
    if aliases == [] then None else if aliases[0].0 == w then Some(aliases[0].1) else Named(w, aliases[1..])
  }

  lemma Table()
    ensures |UNIT_ALIASES| == 12
    ensures UNIT_ALIASES[0] == ("kg", "kg") && UNIT_ALIASES[1] == ("liters", "l") && UNIT_ALIASES[2] == ("litres", "l")
    ensures UNIT_ALIASES[3] == ("lít", "l") && UNIT_ALIASES[4] == ("cái", "cái") && UNIT_ALIASES[5] == ("ngày", "ngày")
    ensures UNIT_ALIASES[6] == ("days", "day") && UNIT_ALIASES[7] == ("sku", "sku")
    ensures UNIT_ALIASES[8] == ("nguyên liệu", "nguyên liệu") && UNIT_ALIASES[9] == ("ingredients", "ingredient")
    ensures UNIT_ALIASES[10] == ("g", "g") && UNIT_ALIASES[11] == ("l", "l")
  {}

  lemma NamedAre(w: string)
    requires Letters(w)
    ensures Named(w, UNIT_ALIASES) ==
      if w == "kg" || w == "g" || w == "cái" || w == "ngày" || w == "sku" then Some(w)
      else if w == "l" || w == "lít" || w == "liters" || w == "litres" then Some("l")
      else if w == "days" then Some("day") else if w == "ingredients" then Some("ingredient") else None
  {
    hide UnitLetter, Named, UNIT_ALIASES;
    assert w != "nguyên liệu" by { assert "nguyên liệu"[6] == ' '; SpaceNoLetter(); }
    Table();
    assert UNIT_ALIASES[0..] == UNIT_ALIASES && UNIT_ALIASES[12..] == [];
    assert Named(w, []) == None by { NothingNamed(w); }
    NamedStep(w, 11); NamedStep(w, 10); NamedStep(w, 9); NamedStep(w, 8); NamedStep(w, 7); NamedStep(w, 6);
    NamedStep(w, 5); NamedStep(w, 4); NamedStep(w, 3); NamedStep(w, 2); NamedStep(w, 1); NamedStep(w, 0);
  }

  lemma SpaceNoLetter()
    ensures !UnitLetter(' ')
  {}

  lemma NothingNamed(w: string)
    ensures Named(w, []) == None
  {}

  lemma NamedStep(w: string, k: nat)
    requires k < |UNIT_ALIASES|
    ensures Named(w, UNIT_ALIASES[k..]) ==
      if UNIT_ALIASES[k].0 == w then Some(UNIT_ALIASES[k].1) else Named(w, UNIT_ALIASES[k + 1..])
  {
    hide UNIT_ALIASES;
    assert UNIT_ALIASES[k..][0] == UNIT_ALIASES[k] && UNIT_ALIASES[k..][1..] == UNIT_ALIASES[k + 1..];
  }

  lemma ClassifyIs(u: Unicode, a: string, w: string, value: real)
    requires u.Valid() && Numeric(a) && Letters(w)
    ensures Classify(u, a + " " + w, value) == WithWord(value, w)
  {
    hide Contains, SaysMoney, MoneyScale, FirstAlias, Named, Numeric, UnitLetter, MoneyWord, ScaleWord, UNIT_ALIASES;
    MoneyIff(u, a, w);
    NoPercent(a, w);
    AliasesStart();
    AliasOf(u, a, w, UNIT_ALIASES);
    NamedAre(w);
    LetteredPrintable(a, w);
    PrintableFold(u, a + " " + w);
  }

  lemma LetteredPrintable(a: string, w: string)
    requires Numeric(a) && Letters(w)
    ensures var s := a + " " + w; AllPrintable(s) && s[|s| - 1] != ' ' && (a != "" ==> s[0] != ' ')
  {}

  /** A printed number and one word, read whole, for every word of lower-case letters. */
  lemma WordReads(u: Unicode, m: nat, w: string)
    requires u.Valid() && Letters(w)
    ensures ParseMention(u, Hundredths(m) + " " + w) == Some(WithWord(Seen(m), w))
  {
    hide ParseDecimal, TokenEnd, Hundredths, ParseMention, ReadToken, Numeric, Seen, WithWord, Classify, UnitLetter;
    var s := Hundredths(m) + " " + w;
    assert s == Hundredths(m) + (" " + w);
    assert Ends(u, " " + w) by { assert (" " + w)[0] == ' '; }
    HundredthsShape(u, m);
    HundredthsToken(u, s, m, " " + w);
    ReadAtStart(u, s, TokenEnd(u, s, 0), Seen(m));
    LetteredPrintable(Hundredths(m), w);
    ReadPrinted(u, s, Seen(m));
    ClassifyIs(u, Hundredths(m), w, Seen(m));
  }

  /** "day", "liter", "litre" and "ingredient" name no kind: only their plurals are listed. */
  lemma SingularsAreKindless(u: Unicode, m: nat, w: string)
    requires u.Valid() && (w == "day" || w == "liter" || w == "litre" || w == "ingredient")
    ensures ParseMention(u, Hundredths(m) + " " + w) == Some(Parsed(Seen(m), None, None))
  {
    hide ParseMention, Contains, Hundredths, Seen, UnitLetter;
    SingularLetters(w);
    WordReads(u, m, w);
    SingularNoMoney(w);
  }

  lemma SingularNoMoney(w: string)
    requires w == "day" || w == "liter" || w == "litre" || w == "ingredient"
    ensures !MoneyWord(w)
  {
    hide Contains;
    if w == "day" { Lack("day", 't', 'n', 'đ', 'v'); }
    else if w == "liter" { Lack("liter", 'u', 'n', 'đ', 'v'); }
    else if w == "litre" { Lack("litre", 'u', 'n', 'đ', 'v'); }
    else { Lack("ingredient", 'u', 'h', 'đ', 'v'); AbsentLetter("ingredient", "ngàn", 'à'); }
  }

  lemma SingularLetters(w: string)
    requires w == "day" || w == "liter" || w == "litre" || w == "ingredient"
    ensures Letters(w)
  {}

  lemma Lack(w: string, million: char, thousand: char, dong: char, vnd: char)
    requires million !in w && thousand !in w && dong !in w && vnd !in w
    requires million in "triệu" && thousand in "nghìn" && dong in "đồng" && vnd in "vnd"
    ensures !Contains(w, "triệu") && !Contains(w, "nghìn") && !Contains(w, "đồng") && !Contains(w, "vnd")
    ensures thousand == 'n' ==> !Contains(w, "ngàn")
  {
    AbsentLetter(w, "triệu", million);
    AbsentLetter(w, "nghìn", thousand);
    AbsentLetter(w, "đồng", dong);
    AbsentLetter(w, "vnd", vnd);
    if thousand == 'n' { AbsentLetter(w, "ngàn", 'n'); }
  }
}
