/**
 What a repair writes in place of a number, and whether that reads back as the fact it stands for: `render_fact` of
 app/decision_intelligence/numeric_authority.py, lines 147 to 169.
 */
module RenderLaws {
  import opened Text
  import opened Decimals
  import opened NumericAuthority
  import opened DisplayProofs
  import opened MoneyDisplay
  import opened Endings
  import opened PrintedMentions
  import ContractFacts

  // ---------- the display or a rendering of its own ----------

  /** A money fact whose display does not name money is not shown by its display. */
  predicate NamesMoney(u: Unicode, shown: string) {
    var t := Fold(u, shown);
    Contains(t, "triệu") || Contains(t, "nghìn") || Contains(t, "đồng") || Contains(t, "vnd")
  }

  predicate Displayable(u: Unicode, fact: Fact) {
    fact.display.Some? && fact.display.value != "" && (fact.kind == Money ==> NamesMoney(u, fact.display.value))
  }

  /** A repair writes the fact's display where that will do, with the fact's unit where a quantity's display lacks it. */
  lemma RenderIs(u: Unicode, fact: Fact)
    ensures !Displayable(u, fact) ==> RenderFact(u, fact) == RenderPlain(fact)
    ensures Displayable(u, fact) ==>
      RenderFact(u, fact) ==
        if fact.kind == Quantity && fact.unit.Some? && !Contains(Fold(u, fact.display.value), fact.unit.value)
        then fact.display.value + " " + fact.unit.value else fact.display.value
  {
    hide Contains, RenderPlain;
    if fact.display.Some? {
      var ws := ["triệu", "nghìn", "đồng", "vnd"];
      assert ws[0] in ws && ws[1] in ws && ws[2] in ws && ws[3] in ws;
      assert ContainsAny(Fold(u, fact.display.value), ws) <==> NamesMoney(u, fact.display.value);
    }
  }

  // ---------- how it prints numbers ----------

  lemma ViTwo(v: real)
    ensures Vi(v, 2) == Sign(v < 0.0) + Hundredths(HalfEven(v, 2))
  {
    PrintedHundredths(v < 0.0, HalfEven(v, 2));
  }

  lemma ViWhole(v: real)
    requires HalfEven(v, 0) % 10 != 0
    ensures Vi(v, 0) == Sign(v < 0.0) + Hundredths(100 * HalfEven(v, 0))
  {
    ViFull(v < 0.0, HalfEven(v, 0));
    WholeIsHundredths(HalfEven(v, 0));
  }

  /** A rounded number below 1000 loses its trailing zeros. */
  lemma ViTrimmed(v: real)
    requires 0 < HalfEven(v, 0) < 1000
    ensures Vi(v, 0) == Sign(v < 0.0) + Hundredths(100 * Trimmed(HalfEven(v, 0)))
  {
    var n := HalfEven(v, 0);
    ViSmall(v < 0.0, n);
    WholeIsHundredths(Trimmed(n));
  }

  // ---------- reading it back ----------

  /** A percentage reads back as the rounded value, with its magnitude below 1000 or in whole percents. */
  lemma PercentReads(u: Unicode, fact: Fact)
    requires u.Valid() && fact.kind == Percent
    ensures ParseMention(u, RenderPlain(fact)) == Some(WholeMention(HalfEven(fact.value, 2), Percents))
  {
    hide ParseMention, Vi, Hundredths, WholeMention;
    ViTwo(fact.value);
    ContractFacts.ReadSignedWord(u, fact.value < 0.0, HalfEven(fact.value, 2), Percents);
    assert WordOf(Percents) == "%";
  }

  /** So does a quantity, with its unit, and a number without a unit. */
  lemma QuantityReads(u: Unicode, fact: Fact, e: Ending)
    requires u.Valid() && fact.kind != Percent && fact.kind != Money
    requires match fact.unit case None => e == Bare case Some(unit) => WordOf(e) == " " + unit && RestOf(e) == ""
    ensures ParseMention(u, RenderPlain(fact)) == Some(WholeMention(HalfEven(fact.value, 2), e))
  {
    hide ParseMention, Vi, Hundredths, WholeMention;
    ViTwo(fact.value);
    ContractFacts.ReadSignedWord(u, fact.value < 0.0, HalfEven(fact.value, 2), e);
    assert RenderPlain(fact) == Sign(fact.value < 0.0) + Hundredths(HalfEven(fact.value, 2)) + WordOf(e);
  }

  /** Millions of money read back like any number with two decimals. */
  lemma MillionsRead(u: Unicode, fact: Fact)
    requires u.Valid() && fact.kind == Money && Magnitude(fact.value) >= 1000000.0
    ensures ParseMention(u, RenderPlain(fact))
      == Some(Parsed(Seen(HalfEven(fact.value / 1000000.0, 2)) * 1000000.0, Some(Money), None))
  {
    hide ParseMention, Vi, Hundredths, Seen;
    ViTwo(fact.value / 1000000.0);
    ReadMoney(u, RenderPlain(fact), fact.value / 1000000.0 < 0.0, HalfEven(fact.value / 1000000.0, 2), Million);
  }

  /** Below a million: the number of thousands, or of dong below a thousand. */
  function Share(v: real): real {
    if Magnitude(v) >= 1000.0 then v / 1000.0 else v
  }

  function Scale(v: real): real {
    if Magnitude(v) >= 1000.0 then 1000.0 else 1.0
  }

  lemma SmallMoneyText(fact: Fact)
    requires fact.kind == Money && Magnitude(fact.value) < 1000000.0
    ensures RenderPlain(fact) == Vi(Share(fact.value), 0) + TailText(if Magnitude(fact.value) >= 1000.0 then ThousandDong else Dong)
  {
    hide Vi;
  }

  /**
   Below a million the rounded amount reads back exactly when its count of thousands, or of dong, is not a multiple of
   ten; otherwise the zeros of the count itself are gone.
   */
  lemma SmallMoneyReadsIff(u: Unicode, fact: Fact)
    requires u.Valid() && fact.kind == Money && Magnitude(fact.value) < 1000000.0
    requires 0 < HalfEven(Share(fact.value), 0) < 1000
    ensures var n := HalfEven(Share(fact.value), 0);
      && ParseMention(u, RenderPlain(fact)) == Some(Parsed(Trimmed(n) as real * Scale(fact.value), Some(Money), None))
      && (ParseMention(u, RenderPlain(fact)) == Some(Parsed(n as real * Scale(fact.value), Some(Money), None)) <==> n % 10 != 0)
  {
    hide ParseMention, Vi, Hundredths, Seen, Trimmed;
    var v := Share(fact.value);
    var n, tail := HalfEven(v, 0), if Magnitude(fact.value) >= 1000.0 then ThousandDong else Dong;
    SmallMoneyText(fact);
    ViTrimmed(v);
    ReadMoney(u, RenderPlain(fact), v < 0.0, 100 * Trimmed(n), tail);
    WholeIsHundredths(Trimmed(n));
    TrimmedIff(n);
  }

  lemma TrimmedIff(n: nat)
    requires n > 0
    ensures Trimmed(n) == n <==> n % 10 != 0
  {}

  /** Twenty thousand dong without a display is written "2 nghìn đồng" and read as two thousand. */
  lemma TwentyThousand(u: Unicode, fact: Fact)
    requires u.Valid() && fact.kind == Money && fact.value == 20000.0 && fact.display == None
    ensures RenderFact(u, fact) == "2 nghìn đồng"
    ensures ParseMention(u, RenderFact(u, fact)) == Some(Parsed(2000.0, Some(Money), None))
  {
    hide ParseMention;
    TwentyReadsAsTwo(u);
    assert Pow10(0) == 1 && HalfEven(20.0, 0) == 20;
    assert Trimmed(20) == Trimmed(2) == 2;
    SmallMoneyReadsIff(u, fact);
  }
}
