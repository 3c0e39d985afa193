/** How a sentence goes on after a printed number: which unit word the mention scanner takes in, and what that word means. */
module Endings {
  import opened Text
  import opened NumericAuthority
  import opened NumericRoundTrip
  import opened MatchReading

  datatype Ending =
    Bare | Percents | Millions | Thousands | Dongs | Kilograms | Grams | Pieces | Daily | Skus | Ingredients

  /** The unit word that a match takes in. */
  function WordOf(e: Ending): string {
    match e
    case Bare => ""
    case Percents => "%"
    case Millions => " triệu"
    case Thousands => " nghìn"
    case Dongs => " đồng"
    case Kilograms => " kg"
    case Grams => " g"
    case Pieces => " cái"
    case Daily => " ngày"
    case Skus => " sku"
    case Ingredients => " nguyên liệu"
  }

  /** The display goes on after the unit word. */
  function RestOf(e: Ending): string {
    match e
    case Millions => " đồng"
    case Thousands => " đồng"
    case _ => ""
  }

  /** The ending and what follows it up to the end of the sentence. */
  function TailOf(e: Ending, trail: string): string {
    WordOf(e) + (RestOf(e) + trail)
  }

  function KindOf(e: Ending): Option<Kind> {
    match e
    case Bare => None
    case Percents => Some(Percent)
    case Kilograms => Some(Quantity)
    case Grams => Some(Quantity)
    case Pieces => Some(Quantity)
    case Daily => Some(Days)
    case Skus => Some(Tally)
    case Ingredients => Some(Tally)
    case _ => Some(Money)
  }

  function UnitOf(e: Ending): Option<string> {
    match e
    case Kilograms => Some("kg")
    case Grams => Some("g")
    case Pieces => Some("cái")
    case Daily => Some("ngày")
    case Skus => Some("sku")
    case Ingredients => Some("nguyên liệu")
    case _ => None
  }

  function ScaleOf(e: Ending): real {
    match e
    case Millions => 1000000.0
    case Thousands => 1000.0
    case _ => 1.0
  }

  /** After a number that is followed by `t`, the match takes in `w` and nothing more. */
  predicate Taken(u: Unicode, w: string, t: string) {
    SuffixEnd(u, t, SpaceEnd(u, t, 0), SUFFIXES) == if w == "" then None else Some(|w|)
  }

  /**
   A trail without digits, dates and ranges from which the match of a number takes in no more than the ending's word. A
   final mark is one, see `MarkTrails`; so is every text that the suffixes of the mention pattern do not match.
   */
  ghost predicate Trails(u: Unicode, e: Ending, trail: string) {
    && (forall k | 0 <= k < |trail| :: u.digit(trail[k]) < 0 && trail[k] != '/' && trail[k] != '–')
    && (trail == "" || trail[0] != '-')
    && Taken(u, WordOf(e), TailOf(e, trail))
  }

  // ---------- the tail has no digits ----------

  lemma WordLetters(e: Ending)
    ensures forall k | 0 <= k < |WordOf(e)| :: UnitLetter(WordOf(e)[k]) || WordOf(e)[k] == ' ' || WordOf(e)[k] == '%'
    ensures forall k | 0 <= k < |RestOf(e)| :: UnitLetter(RestOf(e)[k]) || RestOf(e)[k] == ' '
  {}

  lemma LettersQuiet(u: Unicode, s: string)
    requires u.Valid() && forall k | 0 <= k < |s| :: UnitLetter(s[k]) || s[k] == ' ' || s[k] == '%'
    ensures forall k | 0 <= k < |s| :: u.digit(s[k]) < 0
  {
    forall k | 0 <= k < |s|
      ensures u.digit(s[k]) < 0
    {
      assert u.Classified(s[k]) by { assert u.word(s[k]) || !u.word(s[k]); }
    }
  }

  lemma TailQuiet(u: Unicode, e: Ending, trail: string)
    requires u.Valid() && Trails(u, e, trail)
    ensures forall k | 0 <= k < |TailOf(e, trail)| :: u.digit(TailOf(e, trail)[k]) < 0
    ensures forall k | 0 <= k < |RestOf(e) + trail| :: u.digit((RestOf(e) + trail)[k]) < 0
  {
    hide WordOf, RestOf, UnitLetter, Taken;
    WordLetters(e);
    LettersQuiet(u, WordOf(e));
    LettersQuiet(u, RestOf(e));
  }

  lemma TailEnds(u: Unicode, e: Ending, trail: string)
    requires u.Valid() && Trails(u, e, trail)
    ensures Ends(u, TailOf(e, trail)) && Ends(u, WordOf(e))
  {
    hide WordOf, TailOf, UnitLetter, Taken;
    TailQuiet(u, e, trail);
    WordLetters(e);
    LettersQuiet(u, WordOf(e));
  }

  lemma TailCharacters(u: Unicode, e: Ending, trail: string)
    requires Trails(u, e, trail)
    ensures var t := TailOf(e, trail);
      && (forall k | 0 <= k < |t| :: t[k] != '/' && t[k] != '–')
      && (t == "" || t[0] != '-')
  {
    hide Taken, UnitLetter, RestOf, WordOf;
    TailStart(e, trail);
    WordLetters(e);
    NoLetters();
    assert Plain(WordOf(e)) && Plain(RestOf(e)) && Plain(trail);
    PlainJoin(RestOf(e), trail);
    PlainJoin(WordOf(e), RestOf(e) + trail);
  }

  /** Without slashes and en dashes. */
  predicate Plain(s: string) {
    forall k | 0 <= k < |s| :: s[k] != '/' && s[k] != '–'
  }

  lemma PlainJoin(a: string, b: string)
    requires Plain(a) && Plain(b)
    ensures Plain(a + b)
  {}

  lemma NoLetters()
    ensures !UnitLetter('/') && !UnitLetter('–') && !UnitLetter('-')
  {}

  lemma TailStart(e: Ending, trail: string)
    ensures e == Bare ==> TailOf(e, trail) == trail
    ensures e != Bare ==> WordOf(e) != "" && TailOf(e, trail) != "" && TailOf(e, trail)[0] == WordOf(e)[0]
  {}

  lemma WordStarts(e: Ending, trail: string)
    ensures |WordOf(e)| <= |TailOf(e, trail)| && TailOf(e, trail)[..|WordOf(e)|] == WordOf(e)
  {
    hide WordOf, RestOf;
  }

  // ---------- the match depends on what follows the number ----------

  lemma {:induction false} SpaceShift(u: Unicode, a: string, b: string, i: nat)
    requires i <= |b|
    ensures SpaceEnd(u, a + b, |a| + i) == |a| + SpaceEnd(u, b, i)
    decreases |b| - i
  {
    if i < |b| {
      assert (a + b)[|a| + i] == b[i];
      SpaceShift(u, a, b, i + 1);
    }
  }

  lemma AlikeShift(u: Unicode, a: string, b: string, j: nat, p: string)
    ensures AtAlike(u, a + b, |a| + j, p) <==> AtAlike(u, b, j, p)
    ensures AtAlike(u, b, j, p) ==> j + |p| <= |b|
  {
    var s := a + b;
    if j + |p| <= |b| {
      assert forall k | 0 <= k < |p| :: u.alike(s[|a| + j + k], p[k]) == u.alike(b[j + k], p[k]);
    }
  }

  lemma {:induction false} SuffixShift(u: Unicode, a: string, b: string, j: nat, suffixes: seq<(string, bool)>)
    requires j <= |b| && forall i | 0 <= i < |suffixes| :: suffixes[i].0 != ""
    ensures SuffixEnd(u, a + b, |a| + j, suffixes)
         == match SuffixEnd(u, b, j, suffixes) case None => None case Some(e) => Some(|a| + e)
  {
    hide AtAlike;
    if suffixes != [] {
      var p := suffixes[0].0;
      AlikeShift(u, a, b, j, p);
      if AtAlike(u, b, j, p) { BoundaryShift(u, a, b, j + |p|); }
      assert forall i | 0 <= i < |suffixes[1..]| :: suffixes[1..][i] == suffixes[i + 1];
      SuffixShift(u, a, b, j, suffixes[1..]);
    }
  }

  lemma BoundaryShift(u: Unicode, a: string, b: string, i: nat)
    requires 0 < i <= |b|
    ensures Boundary(u, a + b, |a| + i) <==> Boundary(u, b, i)
  {
    var s := a + b;
    assert s[|a| + i - 1] == b[i - 1];
    assert i < |b| ==> s[|a| + i] == b[i];
  }

  /** The match of a number takes in the unit word of what follows. */
  lemma EndingMatch(u: Unicode, s: string, i: nat, t: nat, e: Ending, trail: string)
    requires i < |s| && u.digit(s[i]) >= 0 && Trails(u, e, trail)
    requires TokenEnd(u, s, i) == t && s[t..] == TailOf(e, trail)
    ensures MatchEnd(u, s, i) == t + |WordOf(e)|
  {
    hide TokenEnd, SuffixEnd, SpaceEnd, WordOf, TailOf;
    var rest := s[t..];
    assert s == s[..t] + rest;
    SuffixesNotEmpty();
    SpaceShift(u, s[..t], rest, 0);
    SuffixShift(u, s[..t], rest, SpaceEnd(u, rest, 0), SUFFIXES);
  }

  // ---------- which words are taken in ----------

  predicate StartsOther(w: string, c: char) {
    w != "" && w[0] != c && (UnitLetter(w[0]) || w[0] == '%')
  }

  ghost predicate OthersBefore(c: char, n: nat) {
    n <= |SUFFIXES| && forall i | 0 <= i < n :: StartsOther(SUFFIXES[i].0, c)
  }

  /** None of the first eleven suffixes starts with `c`. */
  lemma FirstWords(c: char)
    requires c !in "tnkgl"
    ensures OthersBefore(c, 11)
  {
    assert StartsOther("triệu", c) && StartsOther("tr", c) && StartsOther("nghìn", c) && StartsOther("ngàn", c);
    assert StartsOther("kg", c) && StartsOther("g", c) && StartsOther("litres", c) && StartsOther("litre", c);
    assert StartsOther("liters", c) && StartsOther("liter", c) && StartsOther("l", c);
  }

  /** None of the next nine does. */
  lemma LaterWords(c: char)
    requires c !in "csnidv"
    ensures forall i | 11 <= i < 20 :: StartsOther(SUFFIXES[i].0, c)
  {
    assert StartsOther("cái", c) && StartsOther("sku", c) && StartsOther("nguyên liệu", c);
    assert StartsOther("ingredients", c) && StartsOther("ingredient", c) && StartsOther("ngày", c);
    assert StartsOther("days", c) && StartsOther("day", c) && StartsOther("vnd", c);
  }

  lemma LastWords(c: char)
    requires c !in "đk%p"
    ensures forall i | 20 <= i < 24 :: StartsOther(SUFFIXES[i].0, c)
  {
    assert StartsOther("đồng", c) && StartsOther("k", c) && StartsOther("%", c) && StartsOther("phần trăm", c);
  }

  lemma BeforeThousand()
    ensures OthersBefore('n', 2)
  {
    assert StartsOther("triệu", 'n') && StartsOther("tr", 'n');
  }

  lemma BeforeMass()
    ensures OthersBefore('k', 4) && OthersBefore('g', 5)
  {
    assert StartsOther("triệu", 'k') && StartsOther("tr", 'k') && StartsOther("nghìn", 'k') && StartsOther("ngàn", 'k');
    assert StartsOther("triệu", 'g') && StartsOther("tr", 'g') && StartsOther("nghìn", 'g') && StartsOther("ngàn", 'g');
    assert StartsOther("kg", 'g');
  }

  lemma BeforeDong()
    ensures OthersBefore('đ', 20)
  {
    hide UnitLetter;
    FirstWords('đ');
    LaterWords('đ');
  }

  lemma BeforePercent()
    ensures OthersBefore('%', 22)
  {
    hide UnitLetter;
    FirstWords('%');
    LaterWords('%');
    DongAndThousand();
  }

  lemma DongAndThousand()
    ensures StartsOther("đồng", '%') && StartsOther("k", '%')
  {}

  lemma SuffixesNotEmpty()
    ensures forall i | 0 <= i < |SUFFIXES| :: SUFFIXES[i].0 != ""
  {
    hide UnitLetter;
    FirstWords('m');
    LaterWords('m');
    LastWords('m');
    assert |SUFFIXES| == 24;
  }

  lemma {:induction false} NoSuffixAt(u: Unicode, s: string, j: nat, suffixes: seq<(string, bool)>)
    requires u.Matching() && UnitWords(suffixes) && forall i | 0 <= i < |suffixes| :: suffixes[i].0 != ""
    requires j <= |s| && (j == |s| || (Punctuation(s[j]) && s[j] != '%'))
    ensures SuffixEnd(u, s, j, suffixes).None?
  {
    if suffixes != [] {
      var p := suffixes[0].0;
      assert UnitWord(p);
      assert !AtAlike(u, s, j, p) by {
        if j + |p| <= |s| { assert u.Caseless(s[j + 0], p[0]) by { assert u.alike(s[j], p[0]) || !u.alike(s[j], p[0]); } }
      }
      assert forall i | 0 <= i < |suffixes[1..]| :: suffixes[1..][i] == suffixes[i + 1];
      NoSuffixAt(u, s, j, suffixes[1..]);
    }
  }

  lemma OtherLetter(u: Unicode, s: string, j: nat, p: string)
    requires u.Matching() && j < |s| && (UnitLetter(s[j]) || s[j] == '%') && StartsOther(p, s[j])
    ensures !AtAlike(u, s, j, p)
  {
    if j + |p| <= |s| { assert u.Caseless(s[j + 0], p[0]) by { assert u.alike(s[j], p[0]) || !u.alike(s[j], p[0]); } }
  }

  /** The first suffix that starts with the letter at `j` decides, if it is there. */
  lemma {:induction false} SuffixAt(u: Unicode, s: string, j: nat, suffixes: seq<(string, bool)>, k: nat)
    requires u.Matching() && k < |suffixes| && suffixes[k].0 != "" && At(s, j, suffixes[k].0)
    requires suffixes[k].1 ==> Boundary(u, s, j + |suffixes[k].0|)
    requires UnitLetter(s[j]) || s[j] == '%'
    requires forall i | 0 <= i < k :: StartsOther(suffixes[i].0, s[j])
    ensures SuffixEnd(u, s, j, suffixes) == Some(j + |suffixes[k].0|)
  {
    hide AtAlike, UnitLetter;
    var p := suffixes[0].0;
    if k == 0 {
      AlikeSelf(u, s, j, p);
    } else {
      OtherLetter(u, s, j, p);
      assert forall i | 0 <= i < |suffixes[1..]| :: suffixes[1..][i] == suffixes[i + 1];
      SuffixAt(u, s, j, suffixes[1..], k - 1);
    }
  }

  ghost predicate Fails(u: Unicode, s: string, j: nat, suffix: (string, bool)) {
    !AtAlike(u, s, j, suffix.0) || (suffix.1 && !Boundary(u, s, j + |suffix.0|))
  }

  lemma {:induction false} AllFail(u: Unicode, s: string, j: nat, suffixes: seq<(string, bool)>)
    requires j <= |s| && forall i | 0 <= i < |suffixes| :: Fails(u, s, j, suffixes[i])
    ensures SuffixEnd(u, s, j, suffixes).None?
  {
    hide AtAlike;
    if suffixes != [] {
      assert Fails(u, s, j, suffixes[0]);
      assert forall i | 0 <= i < |suffixes[1..]| :: suffixes[1..][i] == suffixes[i + 1];
      AllFail(u, s, j, suffixes[1..]);
    }
  }

  lemma AlikeSelf(u: Unicode, s: string, j: nat, p: string)
    requires u.Matching() && At(s, j, p)
    ensures AtAlike(u, s, j, p)
  {
    forall k | 0 <= k < |p|
      ensures u.alike(s[j + k], p[k])
    {
      assert s[j..j + |p|][k] == s[j + k];
      assert u.Caseless(p[k], p[k]) by { assert u.alike(p[k], p[k]) || !u.alike(p[k], p[k]); }
    }
  }

  // ---------- final marks ----------

  predicate Mark(trail: string) {
    trail == "" || trail == "." || trail == "!" || trail == "?"
  }

  lemma MarkQuiet(u: Unicode, trail: string)
    requires u.Valid() && Mark(trail)
    ensures forall k | 0 <= k < |trail| ::
      u.digit(trail[k]) < 0 && !u.word(trail[k]) && !u.space(trail[k]) && Punctuation(trail[k])
      && trail[k] != '/' && trail[k] != '–' && trail[k] != '%' && trail[k] != '-'
  {
    if trail != "" {
      var c := trail[0];
      assert u.Classified(c) by { assert u.word(c) || !u.word(c); }
    }
  }

  lemma SpaceThen(u: Unicode, t: string, c: char)
    requires u.Valid() && |t| >= 2 && t[0] == ' ' && t[1] == c && UnitLetter(c)
    ensures SpaceEnd(u, t, 0) == 1
  {
    assert u.Classified(' ') by { assert u.space(' ') || !u.space(' '); }
    assert u.Classified(c) by { assert u.word(c) || !u.word(c); }
  }

  /** A word after one space is taken in, if it is the first suffix with its letter. */
  lemma SpacedTaken(u: Unicode, w: string, rest: string, k: nat)
    requires u.Valid() && u.Matching() && w != "" && UnitLetter(w[0])
    requires k < |SUFFIXES| && SUFFIXES[k].0 == w && OthersBefore(w[0], k)
    requires SUFFIXES[k].1 ==> Boundary(u, " " + w + rest, 1 + |w|)
    ensures Taken(u, " " + w, " " + w + rest)
  {
    hide SuffixEnd, UnitLetter, SpaceEnd, SUFFIXES;
    var t := " " + w + rest;
    assert t[1..1 + |w|] == w && t[1] == w[0];
    SpaceThen(u, t, w[0]);
    SuffixAt(u, t, 1, SUFFIXES, k);
  }

  lemma BareTaken(u: Unicode, trail: string)
    requires u.Valid() && u.Matching() && Mark(trail)
    ensures Taken(u, "", trail)
  {
    hide SuffixEnd, UnitLetter, SUFFIXES;
    MarkQuiet(u, trail);
    SuffixesAreWords();
    SuffixesNotEmpty();
    NoSuffixAt(u, trail, 0, SUFFIXES);
  }

  lemma PercentTaken(u: Unicode, trail: string)
    requires u.Valid() && u.Matching()
    ensures Taken(u, "%", "%" + trail)
  {
    hide SuffixEnd, UnitLetter;
    var t := "%" + trail;
    assert t[0] == '%' && t[0..1] == "%";
    assert u.Classified('%') by { assert !u.space('%') || u.space('%'); }
    BeforePercent();
    SuffixAt(u, t, 0, SUFFIXES, 22);
  }

  lemma MoneyTaken(u: Unicode, rest: string)
    requires u.Valid() && u.Matching()
    ensures Taken(u, " triệu", " triệu" + rest) && Taken(u, " nghìn", " nghìn" + rest) && Taken(u, " đồng", " đồng" + rest)
  {
    hide Taken, UnitLetter;
    LettersOf();
    BeforeThousand();
    BeforeDong();
    SpacedTaken(u, "triệu", rest, 0);
    SpacedTaken(u, "nghìn", rest, 2);
    SpacedTaken(u, "đồng", rest, 20);
    assert " " + "triệu" == " triệu" && " " + "nghìn" == " nghìn" && " " + "đồng" == " đồng";
  }

  lemma LettersOf()
    ensures UnitLetter('t') && UnitLetter('n') && UnitLetter('đ') && UnitLetter('k') && UnitLetter('g') && UnitLetter('c')
    ensures UnitLetter('s') && UnitLetter('l') && UnitLetter('m') && UnitLetter('í') && UnitLetter('i') && UnitLetter('á')
  {}

  lemma MeasureTaken(u: Unicode, trail: string)
    requires u.Valid() && u.Matching() && Mark(trail)
    ensures Taken(u, " kg", " kg" + trail) && Taken(u, " g", " g" + trail) && Taken(u, " cái", " cái" + trail)
  {
    hide Taken, UnitLetter, SUFFIXES;
    LettersOf();
    BeforeMass();
    FirstWords('c');
    MeasureWords();
    GramEnds(u, trail);
    SpacedTaken(u, "kg", trail, 4);
    SpacedTaken(u, "g", trail, 5);
    SpacedTaken(u, "cái", trail, 11);
    assert " " + "kg" == " kg" && " " + "g" == " g" && " " + "cái" == " cái";
  }

  lemma SkuTaken(u: Unicode, trail: string)
    requires u.Valid() && u.Matching()
    ensures Taken(u, " sku", " sku" + trail)
  {
    hide Taken, UnitLetter;
    LettersOf();
    FirstWords('s');
    PieceStarts();
    assert |SUFFIXES| == 24 && SUFFIXES[11].0 == "cái" && SUFFIXES[12] == ("sku", false);
    SpacedTaken(u, "sku", trail, 12);
    assert " " + "sku" == " sku";
  }

  lemma PieceStarts()
    ensures StartsOther("cái", 's')
  {}

  // ---------- words that share their first letters with others ----------

  /** The words part at some letter. */
  predicate Parts(w: string, p: string) {
    exists k | 0 <= k < |w| :: k < |p| && w[k] != p[k] && UnitLetter(w[k]) && UnitLetter(p[k])
  }

  lemma PartsAlike(u: Unicode, s: string, j: nat, w: string, p: string)
    requires u.Matching() && At(s, j, w) && Parts(w, p)
    ensures !AtAlike(u, s, j, p)
  {
    hide UnitLetter;
    var k :| 0 <= k < |w| && k < |p| && w[k] != p[k] && UnitLetter(w[k]) && UnitLetter(p[k]);
    assert s[j..j + |w|][k] == s[j + k];
    if j + |p| <= |s| { assert u.Caseless(s[j + k], p[k]) by { assert u.alike(s[j + k], p[k]) || !u.alike(s[j + k], p[k]); } }
  }

  lemma {:induction false} SuffixFirst(u: Unicode, s: string, j: nat, suffixes: seq<(string, bool)>, k: nat)
    requires u.Matching() && k < |suffixes| && suffixes[k].0 != "" && At(s, j, suffixes[k].0) && !suffixes[k].1
    requires forall i | 0 <= i < k :: Parts(suffixes[k].0, suffixes[i].0)
    ensures SuffixEnd(u, s, j, suffixes) == Some(j + |suffixes[k].0|)
  {
    hide AtAlike, Parts;
    if k == 0 {
      AlikeSelf(u, s, j, suffixes[0].0);
    } else {
      PartsAlike(u, s, j, suffixes[k].0, suffixes[0].0);
      assert forall i | 0 <= i < |suffixes[1..]| :: suffixes[1..][i] == suffixes[i + 1];
      SuffixFirst(u, s, j, suffixes[1..], k - 1);
    }
  }

  lemma PartsAt(w: string, p: string, k: nat)
    requires k < |w| && k < |p| && w[k] != p[k] && UnitLetter(w[k]) && UnitLetter(p[k])
    ensures Parts(w, p)
  {}

  lemma IngredientWord()
    ensures forall i | 0 <= i < 13 :: Parts("nguyên liệu", SUFFIXES[i].0)
  {
    hide Parts;
    var w := "nguyên liệu";
    PartsAt(w, "triệu", 0); PartsAt(w, "tr", 0); PartsAt(w, "nghìn", 2); PartsAt(w, "ngàn", 2); PartsAt(w, "kg", 0);
    PartsAt(w, "g", 0); PartsAt(w, "litres", 0); PartsAt(w, "litre", 0); PartsAt(w, "liters", 0); PartsAt(w, "liter", 0);
    PartsAt(w, "l", 0); PartsAt(w, "cái", 0); PartsAt(w, "sku", 0);
  }

  lemma DayWord()
    ensures forall i | 0 <= i < 16 :: Parts("ngày", SUFFIXES[i].0)
  {
    hide Parts;
    var w := "ngày";
    PartsAt(w, "triệu", 0); PartsAt(w, "tr", 0); PartsAt(w, "nghìn", 2); PartsAt(w, "ngàn", 3); PartsAt(w, "kg", 0);
    PartsAt(w, "g", 0); PartsAt(w, "litres", 0); PartsAt(w, "litre", 0); PartsAt(w, "liters", 0); PartsAt(w, "liter", 0);
    PartsAt(w, "l", 0); PartsAt(w, "cái", 0); PartsAt(w, "sku", 0); PartsAt(w, "nguyên liệu", 2);
    PartsAt(w, "ingredients", 0); PartsAt(w, "ingredient", 0);
  }

  lemma LongTaken(u: Unicode, trail: string)
    requires u.Valid() && u.Matching()
    ensures Taken(u, " ngày", " ngày" + trail) && Taken(u, " nguyên liệu", " nguyên liệu" + trail)
  {
    hide SuffixEnd, UnitLetter, SpaceEnd, Parts;
    LettersOf();
    LongWords();
    DayWord();
    IngredientWord();
    var t, v := " ngày" + trail, " nguyên liệu" + trail;
    assert t[1..5] == "ngày" && v[1..12] == "nguyên liệu" && t[1] == 'n' && v[1] == 'n';
    SpaceThen(u, t, 'n');
    SpaceThen(u, v, 'n');
    SuffixFirst(u, t, 1, SUFFIXES, 16);
    SuffixFirst(u, v, 1, SUFFIXES, 13);
  }

  lemma LongWords()
    ensures |SUFFIXES| == 24 && SUFFIXES[16] == ("ngày", false) && SUFFIXES[13] == ("nguyên liệu", false)
  {}

  lemma MeasureWords()
    ensures |SUFFIXES| == 24 && SUFFIXES[4] == ("kg", false) && SUFFIXES[5] == ("g", true) && SUFFIXES[11] == ("cái", false)
  {}

  lemma GramEnds(u: Unicode, trail: string)
    requires u.Valid() && Mark(trail)
    ensures Boundary(u, " " + "g" + trail, 2)
  {
    var t := " " + "g" + trail;
    MarkQuiet(u, trail);
    assert t[1] == 'g' && u.Classified('g') by { assert u.word('g') || !u.word('g'); }
    assert trail != "" ==> t[2] == trail[0];
  }

  /** The final mark of a sentence is no part of a match. */
  lemma MarkTrails(u: Unicode, e: Ending, trail: string)
    requires u.Valid() && u.Matching() && Mark(trail)
    ensures Trails(u, e, trail)
  {
    hide Taken, UnitLetter, Punctuation;
    MarkQuiet(u, trail);
    match e {
      case Bare => BareTaken(u, trail); assert TailOf(e, trail) == trail;
      case Percents => PercentTaken(u, trail);
      case Millions => MoneyTaken(u, " đồng" + trail);
      case Thousands => MoneyTaken(u, " đồng" + trail);
      case Dongs => MoneyTaken(u, trail);
      case Kilograms => MeasureTaken(u, trail);
      case Grams => MeasureTaken(u, trail);
      case Pieces => MeasureTaken(u, trail);
      case Daily => LongTaken(u, trail);
      case Skus => SkuTaken(u, trail);
      case Ingredients => LongTaken(u, trail);
    }
    assert "" + trail == trail;
  }

  // ---------- unit words that are not taken in ----------

  lemma MillilitresFail(u: Unicode, t: string)
    requires u.Matching() && |t| >= 2 && t[1] == 'm'
    ensures forall i | 0 <= i < |SUFFIXES| :: Fails(u, t, 1, SUFFIXES[i])
  {
    hide UnitLetter, AtAlike, StartsOther;
    LettersOf();
    FirstWords('m');
    LaterWords('m');
    LastWords('m');
    assert |SUFFIXES| == 24;
    forall i | 0 <= i < |SUFFIXES|
      ensures Fails(u, t, 1, SUFFIXES[i])
    {
      OtherLetter(u, t, 1, SUFFIXES[i].0);
    }
  }

  lemma OtherSecond(u: Unicode, t: string, p: string)
    requires u.Matching() && |t| >= 3 && t[2] == 'í' && |p| >= 2 && p[1] == 'i'
    ensures !AtAlike(u, t, 1, p)
  {
    LettersOf();
    if 1 + |p| <= |t| { assert u.Caseless(t[1 + 1], p[1]) by { assert u.alike(t[2], p[1]) || !u.alike(t[2], p[1]); } }
  }

  lemma LitresFail(u: Unicode, t: string)
    requires u.Valid() && u.Matching() && |t| >= 3 && t[1] == 'l' && t[2] == 'í'
    ensures forall i | 0 <= i < |SUFFIXES| :: Fails(u, t, 1, SUFFIXES[i])
  {
    hide UnitLetter, AtAlike;
    LettersOf();
    LitreLetters(u, t);
    LaterWords('l');
    LastWords('l');
    BeforeLitres();
    forall i | 0 <= i < |SUFFIXES|
      ensures Fails(u, t, 1, SUFFIXES[i])
    {
      if i < 6 || 11 <= i { OtherLetter(u, t, 1, SUFFIXES[i].0); }
    }
  }

  lemma BeforeLitres()
    ensures OthersBefore('l', 6) && |SUFFIXES| == 24
  {
    assert StartsOther("triệu", 'l') && StartsOther("tr", 'l') && StartsOther("nghìn", 'l') && StartsOther("ngàn", 'l');
    assert StartsOther("kg", 'l') && StartsOther("g", 'l');
  }

  lemma LitreLetters(u: Unicode, t: string)
    requires u.Valid() && u.Matching() && |t| >= 3 && t[1] == 'l' && t[2] == 'í'
    ensures forall i | 6 <= i < 11 :: Fails(u, t, 1, SUFFIXES[i])
  {
    hide UnitLetter, AtAlike;
    LettersOf();
    OtherSecond(u, t, "litres");
    OtherSecond(u, t, "litre");
    OtherSecond(u, t, "liters");
    OtherSecond(u, t, "liter");
    assert u.Classified('l') && u.Classified('í') by { assert u.word('l') || !u.word('l'); assert u.word('í') || !u.word('í'); }
    assert !Boundary(u, t, 2);
    assert Fails(u, t, 1, ("litres", false)) && Fails(u, t, 1, ("litre", false)) && Fails(u, t, 1, ("liters", false));
    assert Fails(u, t, 1, ("liter", false)) && Fails(u, t, 1, ("l", true));
  }

  /** The pattern does not know the words "ml" and "lít": a number in front of them is scanned without a unit. */
  lemma UnknownUnits(u: Unicode, trail: string)
    requires u.Valid() && u.Matching() && Mark(trail)
    ensures Trails(u, Bare, " ml" + trail) && Trails(u, Bare, " lít" + trail)
  {
    hide UnitLetter, SuffixEnd, Punctuation;
    LettersOf();
    MarkQuiet(u, trail);
    var ml, lit := " ml" + trail, " lít" + trail;
    assert ml[0] == ' ' && ml[1] == 'm' && lit[0] == ' ' && lit[1] == 'l' && lit[2] == 'í';
    SpaceThen(u, ml, 'm');
    SpaceThen(u, lit, 'l');
    MillilitresFail(u, ml);
    LitresFail(u, lit);
    AllFail(u, ml, 1, SUFFIXES);
    AllFail(u, lit, 1, SUFFIXES);
    assert TailOf(Bare, ml) == ml && TailOf(Bare, lit) == lit;
    WordQuiet(u, ml, trail, 3);
    WordQuiet(u, lit, trail, 4);
  }

  lemma WordQuiet(u: Unicode, t: string, trail: string, n: nat)
    requires u.Valid() && Mark(trail) && n <= |t| && t[n..] == trail
    requires forall k | 0 <= k < n :: UnitLetter(t[k]) || t[k] == ' '
    ensures forall k | 0 <= k < |t| :: u.digit(t[k]) < 0 && t[k] != '/' && t[k] != '–'
  {
    hide UnitLetter;
    NoLetters();
    MarkQuiet(u, trail);
    LettersQuiet(u, t[..n]);
    assert forall k | 0 <= k < n :: t[k] == t[..n][k];
    assert forall k | n <= k < |t| :: t[k] == trail[k - n];
  }
}
