/**
 The verdict of the number check said of the sentence and of the evidence's own fields: what counts as a date or a
 supplied range, what announces an approximation, and when a sentence passes. `_validate_numbers` of
 app/decision_intelligence/narrative.py.
 */
module CheckLaws {
  import opened Text
  import opened Records
  import opened NumericAuthority
  import opened NumberCheck
  import FieldAuthority

  // ---------- dates ----------

  predicate AllDigits(u: Unicode, t: string) {
    forall k | 0 <= k < |t| :: u.digit(t[k]) >= 0
  }

  /** yyyy-mm-dd */
  predicate IsoDate(u: Unicode, t: string) {
    |t| == 10 && AllDigits(u, t[..4]) && t[4] == '-' && AllDigits(u, t[5..7]) && t[7] == '-' && AllDigits(u, t[8..])
  }

  /** One or two digits, a slash, one or two digits. */
  predicate DayAndMonth(u: Unicode, t: string, slash: nat) {
    && 1 <= slash <= 2 && slash + 2 <= |t| <= slash + 3
    && AllDigits(u, t[..slash]) && t[slash] == '/' && AllDigits(u, t[slash + 1..])
  }

  predicate IsDateText(u: Unicode, t: string) {
    IsoDate(u, t) || DayAndMonth(u, t, 1) || DayAndMonth(u, t, 2)
  }

  /** A date stands at `i`, apart from the word characters around it. */
  predicate DateAt(u: Unicode, s: string, i: nat, e: nat) {
    i < e <= |s| && Boundary(u, s, i) && Boundary(u, s, e) && IsDateText(u, s[i..e])
  }

  lemma DigitsAre(u: Unicode, s: string, i: nat, e: nat)
    requires i <= e <= |s|
    ensures DigitsAt(u, s, i, e - i) <==> AllDigits(u, s[i..e])
  {
    if AllDigits(u, s[i..e]) {
      forall k | i <= k < e
        ensures u.digit(s[k]) >= 0
      {
        assert s[i..e][k - i] == s[k];
      }
    }
  }

  lemma SlashAt(s: string, i: nat, p: string)
    requires |p| == 1
    ensures At(s, i, p) <==> i < |s| && s[i] == p[0]
  {
    if i < |s| { assert s[i..i + 1] == [s[i]]; }
  }

  lemma Within(s: string, i: nat, e: nat, a: nat, b: nat)
    requires i <= e <= |s| && a <= b <= e - i
    ensures s[i..e][a..b] == s[i + a..i + b]
  {
    var inner, outer := s[i..e][a..b], s[i + a..i + b];
    assert |inner| == |outer| && forall k | 0 <= k < |inner| :: inner[k] == s[i..e][a + k] == s[i + a + k] == outer[k];
  }

  lemma IsoIff(u: Unicode, s: string, i: nat)
    requires i <= |s|
    ensures (DigitsAt(u, s, i, 4) && At(s, i + 4, "-") && DigitsAt(u, s, i + 5, 2) && At(s, i + 7, "-") && DigitsAt(u, s, i + 8, 2))
      <==> i + 10 <= |s| && IsoDate(u, s[i..i + 10])
  {
    SlashAt(s, i + 4, "-");
    SlashAt(s, i + 7, "-");
    if i + 10 <= |s| {
      var t := s[i..i + 10];
      Within(s, i, i + 10, 0, 4);
      Within(s, i, i + 10, 5, 7);
      Within(s, i, i + 10, 8, 10);
      assert t[4] == s[i + 4] && t[7] == s[i + 7];
      DigitsAre(u, s, i, i + 4);
      DigitsAre(u, s, i + 5, i + 7);
      DigitsAre(u, s, i + 8, i + 10);
    }
  }

  lemma DayIff(u: Unicode, s: string, i: nat, slash: nat, e: nat)
    requires 1 <= slash <= 2 && i + slash + 2 <= e <= i + slash + 3 && e <= |s|
    ensures DayAndMonth(u, s[i..e], slash) <==>
      DigitsAt(u, s, i, slash) && At(s, i + slash, "/") && DigitsAt(u, s, i + slash + 1, e - i - slash - 1)
  {
    var t := s[i..e];
    SlashAt(s, i + slash, "/");
    Within(s, i, e, 0, slash);
    Within(s, i, e, slash + 1, e - i);
    DigitsAre(u, s, i, i + slash);
    DigitsAre(u, s, i + slash + 1, e);
  }

  /** Between two digits there is no word boundary. */
  lemma InsideDigits(u: Unicode, s: string, i: nat)
    requires u.Valid() && 0 < i < |s| && u.digit(s[i - 1]) >= 0 && u.digit(s[i]) >= 0
    ensures !Boundary(u, s, i)
  {
    assert u.Classified(s[i - 1]) && u.Classified(s[i]) by {
      assert u.word(s[i - 1]) || !u.word(s[i - 1]); assert u.word(s[i]) || !u.word(s[i]);
    }
  }

  lemma SlashNoDigit(u: Unicode)
    requires u.Valid()
    ensures u.digit('/') < 0 && u.digit('-') < 0
  {}

  lemma DayEndIff(u: Unicode, s: string, i: nat, e: nat)
    requires u.Valid() && i <= |s|
    ensures DayEnd(u, s, i) == Some(e) <==>
      i < e <= i + 2 && e <= |s| && DigitsAt(u, s, i, e - i) && Boundary(u, s, e)
  {
    hide Boundary;
    if DigitsAt(u, s, i, 2) { InsideDigits(u, s, i + 1); }
  }

  /** The dates that are left out of the number check: exactly yyyy-mm-dd and d/m with one or two digits each. */
  lemma DateIff(u: Unicode, s: string, i: nat, e: nat)
    requires u.Valid() && i <= |s|
    ensures DateEnd(u, s, i) == Some(e) <==> DateAt(u, s, i, e)
  {
    hide Boundary, DayEnd, IsoDate, DayAndMonth;
    SlashNoDigit(u);
    IsoIff(u, s, i);
    SlashAt(s, i + 1, "/");
    SlashAt(s, i + 2, "/");
    if i + 3 <= |s| { DayEndIff(u, s, i + 3, e); }
    if i + 2 <= |s| { DayEndIff(u, s, i + 2, e); }
    if i < e <= |s| {
      Shapes(u, s[i..e]);
      if i + 3 <= e <= i + 4 { DayIff(u, s, i, 1, e); }
      if i + 4 <= e <= i + 5 { DayIff(u, s, i, 2, e); }
    }
  }

  /** The lengths and first characters of the three shapes. */
  lemma Shapes(u: Unicode, t: string)
    ensures IsoDate(u, t) ==> |t| == 10 && u.digit(t[1]) >= 0 && u.digit(t[2]) >= 0
    ensures DayAndMonth(u, t, 1) ==> 3 <= |t| <= 4 && t[1] == '/'
    ensures DayAndMonth(u, t, 2) ==> 4 <= |t| <= 5 && t[2] == '/' && u.digit(t[1]) >= 0
  {
    if IsoDate(u, t) { assert t[..4][1] == t[1] && t[..4][2] == t[2]; }
    if DayAndMonth(u, t, 2) { assert t[..2][1] == t[1]; }
  }

  /** Blanking goes from left to right: what stands before the first date stays, the date becomes one space. */
  lemma {:induction false} FirstDateBlanked(u: Unicode, s: string, i: nat, n: nat, e: nat)
    requires u.Valid() && i <= n <= |s| && DateAt(u, s, n, e) && forall k: nat, f: nat | i <= k < n && f <= |s| :: !DateAt(u, s, k, f)
    ensures BlankDates(u, s, i) == s[i..n] + " " + BlankDates(u, s, e)
    decreases n - i
  {
    hide DateAt, DateEnd;
    DateIff(u, s, n, e);
    if i == n {
      assert s[i..n] == [];
    } else {
      NoDate(u, s, i);
      FirstDateBlanked(u, s, i + 1, n, e);
      assert s[i..n] == [s[i]] + s[i + 1..n];
    }
  }

  lemma NoDate(u: Unicode, s: string, i: nat)
    requires u.Valid() && i <= |s| && forall f: nat | f <= |s| :: !DateAt(u, s, i, f)
    ensures DateEnd(u, s, i) == None
  {
    hide DateAt;
    if DateEnd(u, s, i).Some? { DateIff(u, s, i, DateEnd(u, s, i).value); }
  }

  lemma {:induction false} NoDateBlanked(u: Unicode, s: string, i: nat)
    requires u.Valid() && i <= |s| && forall k: nat, f: nat | i <= k < |s| && f <= |s| :: !DateAt(u, s, k, f)
    ensures BlankDates(u, s, i) == s[i..]
    decreases |s| - i
  {
    hide DateAt, DateEnd;
    if i < |s| {
      NoDate(u, s, i);
      NoDateBlanked(u, s, i + 1);
      assert s[i..] == [s[i]] + s[i + 1..];
    }
  }

  // ---------- supplied ranges ----------

  /** A display value of the item that holds an en dash. */
  ghost predicate Supplies(item: Record, t: string) {
    && Get(item, "display_values").Dict? && Contains(t, "–")
    && exists f :: f in Get(item, "display_values").fields && Show(f.1) == t
  }

  lemma {:induction false} RangesInAre(fields: Record, t: string)
    ensures t in RangesIn(fields) <==> Contains(t, "–") && exists f :: f in fields && Show(f.1) == t
  {
    hide Contains, Show;
    if fields != [] {
      RangesInAre(fields[1..], t);
      assert forall f :: f in fields <==> f == fields[0] || f in fields[1..];
    }
  }

  lemma {:induction false} RangesAre(payloads: seq<Record>, t: string)
    ensures t in SuppliedRanges(payloads) <==> exists item :: item in payloads && Supplies(item, t)
  {
    hide Get, Supplies;
    if payloads != [] {
      RangesAre(payloads[1..], t);
      assert forall item :: item in payloads <==> item == payloads[0] || item in payloads[1..];
      HeadSupplies(payloads[0], t);
    }
  }

  lemma HeadSupplies(item: Record, t: string)
    ensures t in (match Get(item, "display_values") case Dict(fields) => RangesIn(fields) case _ => []) <==> Supplies(item, t)
  {
    hide Get, Contains, Show;
    if Get(item, "display_values").Dict? { RangesInAre(Get(item, "display_values").fields, t); }
  }

  // ---------- the verdict ----------

  predicate SaysAverage(u: Unicode, text: string) {
    Contains(Lower(u, text), "trung bình") || Contains(Lower(u, text), "average") || Contains(Lower(u, text), "mean")
  }

  /** Up to sixteen characters before position `n`. */
  function Before(text: string, n: nat): string {
    var end := if n <= |text| then n else |text|;
    var start := if n < 16 then 0 else n - 16;
    if start <= end then text[start..end] else ""
  }

  predicate SaysAbout(u: Unicode, words: string) {
    var w := Lower(u, words);
    || Contains(w, "khoảng") || Contains(w, "xấp xỉ") || Contains(w, "gần")
    || Contains(w, "approximately") || Contains(w, "about") || Contains(w, "around")
  }

  /** Four digits, and a hyphen at the mention's offset in the sentence. */
  predicate LooksLikeYear(u: Unicode, text: string, m: Mention) {
    |m.text| == 4 && AllDigits(u, m.text) && m.end < |text| && text[m.end] == '-'
  }

  lemma YearIff(u: Unicode, text: string, m: Mention)
    ensures YearDash(u, text, m) <==> LooksLikeYear(u, text, m)
  {
    SlashAt(text, m.end, "-");
  }

  lemma AboutIff(u: Unicode, text: string, m: Mention)
    ensures Approximated(u, text, m) <==> SaysAbout(u, Before(text, m.start))
  {
    hide Contains;
    assert APPROXIMATE_WORDS[0] in APPROXIMATE_WORDS && APPROXIMATE_WORDS[1] in APPROXIMATE_WORDS
      && APPROXIMATE_WORDS[2] in APPROXIMATE_WORDS && APPROXIMATE_WORDS[3] in APPROXIMATE_WORDS
      && APPROXIMATE_WORDS[4] in APPROXIMATE_WORDS && APPROXIMATE_WORDS[5] in APPROXIMATE_WORDS;
  }

  lemma AverageIff(u: Unicode, text: string)
    ensures ContainsAny(Lower(u, text), AVERAGE_WORDS) <==> SaysAverage(u, text)
  {
    hide Contains;
    assert AVERAGE_WORDS[0] in AVERAGE_WORDS && AVERAGE_WORDS[1] in AVERAGE_WORDS && AVERAGE_WORDS[2] in AVERAGE_WORDS;
  }

  ghost predicate RangeAveraged(u: Unicode, text: string, payloads: seq<Record>) {
    SaysAverage(u, text) && exists t, item :: item in payloads && Supplies(item, t) && Contains(text, t)
  }

  /** A mention stands: it looks like a year, or some item's field or allowed mention backs it. */
  ghost predicate MentionStands(u: Unicode, text: string, payloads: seq<Record>, m: Mention) {
    || LooksLikeYear(u, text, m)
    || exists item :: item in payloads && FieldAuthority.Backs(u, item, m.parsed, SaysAbout(u, Before(text, m.start)))
  }

  /**
   The number check, over every sentence and every evidence: it refuses the answer when a supplied range is repeated in a
   sentence that speaks of an average; otherwise the sentence passes exactly when each mention left after blanking
   stands.
   */
  lemma VerdictIs(u: Unicode, text: string, payloads: seq<Record>)
    ensures var verdict := NumbersVerdict(u, text, payloads);
      && (verdict == Fatal("range_semantics_contradicted") <==> RangeAveraged(u, text, payloads))
      && (verdict == Pass <==>
            && !RangeAveraged(u, text, payloads)
            && forall m | m in Mentions(u, Protected(u, text, payloads)) :: MentionStands(u, text, payloads, m))
      && (verdict.Fatal? ==> RangeAveraged(u, text, payloads))
  {
    hide Contains, Mentions, Protected, Authority, Authorized, YearDash, Approximated, FieldAuthority.Backs, Supplies, SaysAverage;
    hide LooksLikeYear, SaysAbout;
    AverageIff(u, text);
    forall t
      ensures t in SuppliedRanges(payloads) <==> exists item :: item in payloads && Supplies(item, t)
    {
      RangesAre(payloads, t);
    }
    forall m
      ensures MentionPasses(u, text, Authority(u, payloads), m) <==> MentionStands(u, text, payloads, m)
    {
      YearIff(u, text, m);
      AboutIff(u, text, m);
      FieldAuthority.AuthorisedIff(u, payloads, m.parsed, Approximated(u, text, m));
    }
  }

  /** The id an item is known by. */
  predicate Identified(item: Record, id: string) {
    if Has(item, "evidence_id") then id == Show(Get(item, "evidence_id")) else id == "legacy"
  }

  /** Every fact carries the id of the item it is made from. */
  lemma FactsIdentified(u: Unicode, evidence: seq<Record>, fact: Fact)
    requires fact in Authority(u, evidence)
    ensures exists item :: item in evidence && fact in ItemFacts(u, item) && Identified(item, fact.evidenceId)
  {
    hide Get, Has, ItemFacts, Authority;
    FactsComeFromItems(u, evidence, fact);
    var item :| item in evidence && fact in ItemFacts(u, item) && fact.evidenceId == EvidenceId(item);
    assert Identified(item, fact.evidenceId);
  }
}
