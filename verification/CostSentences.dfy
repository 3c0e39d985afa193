/** A sentence whose last number is the display of a purchase cost, checked against evidence of that cost. */
module CostSentences {
  import opened Text
  import opened Records
  import opened Decimals
  import opened Display
  import opened NumericAuthority
  import opened NumericRoundTrip
  import opened DisplayProofs
  import opened MoneyDisplay
  import opened NumberCheck
  import opened Endings
  import opened PrintedMentions
  import opened NegativeMentions
  import opened PrintedVerdicts

  /**
   All the money of the evidence is the cost `amount`, at least once as the number itself. Facts of other kinds do not
   matter.
   */
  ghost predicate Supports(u: Unicode, payloads: seq<Record>, amount: real) {
    && (forall f | f in Authority(u, payloads) && f.kind == Money :: f.value == amount)
    && exists f :: f in Authority(u, payloads) && f.kind == Money && f.approximate
  }

  /** All the money of the evidence is the cost `amount` or what its display reads as, at least once the latter. */
  ghost predicate Displays(u: Unicode, payloads: seq<Record>, amount: real) {
    && (forall f | f in Authority(u, payloads) && f.kind == Money :: f.value == amount || f.value == Displayed(amount))
    && exists f :: f in Authority(u, payloads) && f.kind == Money && f.value == Displayed(amount)
  }

  lemma RatioBound(error: real, amount: real)
    requires amount > 0.0
    ensures error <= 0.03 * amount <==> error / amount <= 0.03
  {
    if error <= 0.03 * amount {
      assert error / amount <= (0.03 * amount) / amount == 0.03;
    } else {
      assert error / amount > (0.03 * amount) / amount == 0.03;
    }
  }

  /** Equal to the cost, or within three percent of it where the sentence says so. */
  predicate Close(shown: real, amount: real, announced: bool) {
    shown == amount || (announced && Magnitude(shown - amount) <= 0.03 * amount)
  }

  /** What a money mention needs of a money fact. */
  lemma MoneyMatch(p: Parsed, fact: Fact, approximate: bool)
    requires p.kind == Some(Money) && fact.kind == Money && fact.value >= 0.0
    ensures EquivalentOrRounded(p, fact, approximate) <==> Close(p.value, fact.value, approximate && fact.approximate)
  {
    if fact.value > 0.0 { RatioBound(Magnitude(p.value - fact.value), fact.value); }
  }

  /** Only money backs money: against such evidence a money mention passes exactly when it is close to the cost. */
  lemma SupportedMoney(u: Unicode, payloads: seq<Record>, amount: real, p: Parsed, approximate: bool)
    requires Supports(u, payloads, amount) && p.kind == Some(Money) && amount >= 0.0
    ensures Authorized(p, Authority(u, payloads), approximate) <==> Close(p.value, amount, approximate)
  {
    hide Authority, EquivalentOrRounded, Close;
    var facts := Authority(u, payloads);
    var number :| number in facts && number.kind == Money && number.approximate;
    MoneyMatch(p, number, approximate);
    if Authorized(p, facts, approximate) {
      var fact :| fact in facts && EquivalentOrRounded(p, fact, approximate);
      OfOneKind(p, fact, approximate);
      MoneyMatch(p, fact, approximate);
      LessApproximate(p.value, amount, approximate && fact.approximate, approximate);
    }
  }

  lemma OfOneKind(p: Parsed, fact: Fact, approximate: bool)
    requires EquivalentOrRounded(p, fact, approximate) && p.kind == Some(Money)
    ensures fact.kind == Money
  {}

  lemma LessApproximate(shown: real, amount: real, less: bool, more: bool)
    requires Close(shown, amount, less) && (less ==> more)
    ensures Close(shown, amount, more)
  {}

  /** A money mention far from all the money of the evidence is refused. */
  lemma FarMoney(u: Unicode, payloads: seq<Record>, p: Parsed, approximate: bool)
    requires p.kind == Some(Money)
    requires forall f | f in Authority(u, payloads) && f.kind == Money :: f.value >= 0.0 && !Close(p.value, f.value, true)
    ensures !Authorized(p, Authority(u, payloads), approximate)
  {
    hide Authority, EquivalentOrRounded, Close;
    if Authorized(p, Authority(u, payloads), approximate) {
      var fact :| fact in Authority(u, payloads) && EquivalentOrRounded(p, fact, approximate);
      OfOneKind(p, fact, approximate);
      MoneyMatch(p, fact, approximate);
      LessApproximate(p.value, fact.value, approximate && fact.approximate, true);
      assert false;
    }
  }

  function CostEnding(amount: real): Ending {
    match CostTail(amount) case Million => Millions case ThousandDong => Thousands case Dong => Dongs
  }

  lemma CostTails(amount: real)
    ensures TailText(CostTail(amount)) == TailOf(CostEnding(amount), "")
    ensures KindOf(CostEnding(amount)) == Some(Money) && ScaleOf(CostEnding(amount)) == TailScale(CostTail(amount))
    ensures UnitOf(CostEnding(amount)) == None
  {}

  lemma SignApart(negative: bool, a: string, b: string)
    ensures Sign(negative) + a + b == if negative then "-" + (a + b) else a + b
  {}

  lemma CostSpelled(amount: real)
    ensures amount >= 0.0 ==> PurchaseCostDisplay(amount) == Hundredths(CostHundredths(amount)) + TailOf(CostEnding(amount), "")
    ensures amount < 0.0 ==>
      PurchaseCostDisplay(amount) == "-" + (Hundredths(CostHundredths(amount)) + TailOf(CostEnding(amount), ""))
    ensures KindOf(CostEnding(amount)) == Some(Money)
    ensures WholeMention(CostHundredths(amount), CostEnding(amount)) == Parsed(Displayed(amount), Some(Money), None)
  {
    hide PurchaseCostDisplay, CostHundredths, Hundredths, Displayed, Seen, TailText, TailOf, Sign, CostTail, CostEnding;
    hide KindOf, ScaleOf, TailScale, UnitOf;
    CostText(amount);
    DisplayedIs(amount);
    CostTails(amount);
    SignApart(amount < 0.0, Hundredths(CostHundredths(amount)), TailOf(CostEnding(amount), ""));
  }

  lemma CostSentence(amount: real, trail: string)
    ensures amount >= 0.0 ==>
      PurchaseCostDisplay(amount) + trail == Hundredths(CostHundredths(amount)) + TailOf(CostEnding(amount), trail)
    ensures amount < 0.0 ==>
      PurchaseCostDisplay(amount) + trail == "-" + (Hundredths(CostHundredths(amount)) + TailOf(CostEnding(amount), trail))
    ensures KindOf(CostEnding(amount)) == Some(Money) && UnitOf(CostEnding(amount)) == None
    ensures WholeMention(CostHundredths(amount), CostEnding(amount)) == Parsed(Displayed(amount), Some(Money), None)
  {
    hide PurchaseCostDisplay, CostHundredths, Hundredths, Displayed, WordOf, RestOf, CostEnding, WholeMention;
    CostSpelled(amount);
    CostTails(amount);
  }

  lemma BelowMillionWhole(amount: real)
    requires amount < 1000000.0
    ensures OneToken(CostHundredths(amount)) && CostHundredths(amount) % 100 == 0
  {}

  /** What is cut off a display past 1000 million is nowhere near the cost, nor near what the display reads as. */
  lemma CutFar(amount: real)
    requires amount >= 0.0 && !OneToken(CostHundredths(amount))
    ensures var p := LeftOver(CostHundredths(amount) % 100, CostEnding(amount));
      && p.kind == Some(Money) && Displayed(amount) >= 0.0
      && !Close(p.value, amount, true) && !Close(p.value, Displayed(amount), true)
  {
    if amount < 1000000.0 { BelowMillionWhole(amount); }
    var m := CostHundredths(amount);
    Thousand();
    HalfUpNearest(amount / 1000000.0, 2);
    assert DecimalsAlone(m % 100) <= 99;
    assert m / 100 >= 1000;
  }

  lemma SupportsOnly(u: Unicode, payloads: seq<Record>, amount: real)
    requires Supports(u, payloads, amount)
    ensures forall f | f in Authority(u, payloads) && f.kind == Money :: f.value == amount
  {
    hide Authority;
  }

  /**
   A sentence whose last number is the display of a cost passes against evidence of that cost exactly when the display
   is scanned as one number and that number is close enough. A negative cost passes exactly below 1000, where the check
   does not see it.
   */
  lemma AcceptedIff(u: Unicode, lead: string, trail: string, amount: real, payloads: seq<Record>)
    requires u.Valid() && u.Matching() && Introduces(u, lead) && Trails(u, CostEnding(amount), trail)
    requires Supports(u, payloads, amount)
    ensures NumbersVerdict(u, lead + (PurchaseCostDisplay(amount) + trail), payloads) == Pass <==>
      if amount < 0.0 then HalfUp(amount, 0) < 1000
      else OneToken(CostHundredths(amount)) && Close(Displayed(amount), amount, Announced(u, lead))
  {
    hide PurchaseCostDisplay, NumbersVerdict, Authority, Authorized, Announced, Displayed, TailOf, Introduces, Hundredths;
    hide Supports, OneToken, EquivalentOrRounded, Close, CostEnding, CostHundredths, LeftOver, WholeMention, Trails, Grouped;
    var m, e := CostHundredths(amount), CostEnding(amount);
    CostSentence(amount, trail);
    if amount < 0.0 {
      SupportsOnly(u, payloads, amount);
      NegativeCost(u, lead, trail, amount, payloads);
    } else {
      PrintedVerdict(u, lead, m, e, trail, payloads);
      if OneToken(m) {
        SupportedMoney(u, payloads, amount, WholeMention(m, e), Announced(u, lead));
      } else {
        var approximate := Announced(u, lead + (Grouped(m / 100, '.') + ","));
        CutFar(amount);
        SupportedMoney(u, payloads, amount, LeftOver(m % 100, e), approximate);
        if Close(LeftOver(m % 100, e).value, amount, approximate) {
          LessApproximate(LeftOver(m % 100, e).value, amount, approximate, true);
        }
      }
    }
  }

  // ---------- negative costs ----------

  /** A number that is not negative is no mention of a negative cost, and the rest after the first block not of the whole. */
  lemma NegativeFar(p: Parsed, fact: Fact, amount: real, n: nat, approximate: bool)
    requires amount < 0.0 && n >= 1000 && p.kind == Some(Money) && p.value == Below(n) as real
    requires fact.kind == Money ==> fact.value == amount || fact.value == n as real
    ensures !EquivalentOrRounded(p, fact, approximate)
  {
    hide Below;
    BelowHalf(n);
    if fact.kind == Money && fact.value == amount {
      RatioBound(Magnitude(p.value - amount), -amount);
    } else if fact.kind == Money {
      RatioBound(Magnitude(p.value - n as real), n as real);
    }
  }

  /** What is left after the first block is less than half of the number. */
  lemma {:induction false} BelowHalf(n: nat)
    requires n >= 1000
    ensures 2 * Below(n) < n
  {
    if n >= 1000000 { BelowHalf(n / 1000); }
  }

  lemma NegativeRead(n: nat)
    requires n >= 1000
    ensures BelowWhole(100 * n) && BelowMention(100 * n, Dongs) == Parsed(Below(n) as real, Some(Money), None)
  {
    hide Below;
    var m := 100 * n;
    assert m / 100 == n && m % 100 == 0;
    assert (Below(n) as real + 0.0 / 100.0) * 1.0 == Below(n) as real;
  }

  lemma NegativeCost(u: Unicode, lead: string, trail: string, amount: real, payloads: seq<Record>)
    requires u.Valid() && u.Matching() && Introduces(u, lead) && Trails(u, CostEnding(amount), trail) && amount < 0.0
    requires forall f | f in Authority(u, payloads) && f.kind == Money :: f.value == amount || f.value == Displayed(amount)
    ensures NumbersVerdict(u, lead + (PurchaseCostDisplay(amount) + trail), payloads) == Pass <==> HalfUp(amount, 0) < 1000
  {
    hide PurchaseCostDisplay, NumbersVerdict, Authority, Announced, TailOf, Introduces, Hundredths, EquivalentOrRounded;
    hide LeftOver, HalfUp, BelowMention, BelowWhole, Below, BelowText, Trails, Grouped, Natural, TopBlock;
    var n := HalfUp(amount, 0);
    assert CostEnding(amount) == Dongs && CostHundredths(amount) == 100 * n && Displayed(amount) == n as real;
    CostSentence(amount, trail);
    NegativeVerdict(u, lead, 100 * n, Dongs, trail, payloads);
    if n >= 1000 {
      NegativeRead(n);
      forall fact | fact in Authority(u, payloads)
        ensures !EquivalentOrRounded(BelowMention(100 * n, Dongs), fact,
                                     Announced(u, lead + ("-" + (Natural(TopBlock(100 * n / 100)) + "."))))
      {
        NegativeFar(BelowMention(100 * n, Dongs), fact, amount, n,
                    Announced(u, lead + ("-" + (Natural(TopBlock(100 * n / 100)) + "."))));
      }
    }
  }

  // ---------- evidence that shows the cost ----------

  /**
   Where the evidence shows the cost itself, the display passes whenever it is scanned as one number, however far its
   rounding takes it; otherwise it never does.
   */
  lemma DisplayedPassesIff(u: Unicode, lead: string, trail: string, amount: real, payloads: seq<Record>)
    requires u.Valid() && u.Matching() && Introduces(u, lead) && Trails(u, CostEnding(amount), trail)
    requires Displays(u, payloads, amount)
    ensures NumbersVerdict(u, lead + (PurchaseCostDisplay(amount) + trail), payloads) == Pass <==>
      if amount < 0.0 then HalfUp(amount, 0) < 1000 else OneToken(CostHundredths(amount))
  {
    hide PurchaseCostDisplay, NumbersVerdict, Authority, Announced, Displayed, TailOf, Introduces, Hundredths;
    hide OneToken, EquivalentOrRounded, Close, CostEnding, CostHundredths, LeftOver, WholeMention, Trails, Grouped;
    var m, e := CostHundredths(amount), CostEnding(amount);
    CostSentence(amount, trail);
    if amount < 0.0 {
      NegativeCost(u, lead, trail, amount, payloads);
    } else {
      PrintedVerdict(u, lead, m, e, trail, payloads);
      if OneToken(m) {
        var fact :| fact in Authority(u, payloads) && fact.kind == Money && fact.value == Displayed(amount);
        SameMoney(WholeMention(m, e), fact, Announced(u, lead));
      } else {
        CutFar(amount);
        FarMoney(u, payloads, LeftOver(m % 100, e), Announced(u, lead + (Grouped(m / 100, '.') + ",")));
      }
    }
  }

  lemma SameMoney(p: Parsed, fact: Fact, approximate: bool)
    requires p.kind == Some(Money) && fact.kind == Money && p.value == fact.value
    ensures EquivalentOrRounded(p, fact, approximate)
  {}

  // ---------- how far the rounding takes a cost ----------

  /**
   After an approximating word, from 16,667 up, a cost display passes against its own cost exactly when it is scanned as
   one number: below 1000 million, or at a whole number of millions.
   */
  lemma CostDisplayAuthorised(u: Unicode, lead: string, trail: string, amount: real, payloads: seq<Record>)
    requires u.Valid() && u.Matching() && Introduces(u, lead) && Trails(u, CostEnding(amount), trail)
    requires Announced(u, lead) && Supports(u, payloads, amount)
    requires amount >= 50000.0 / 3.0
    ensures NumbersVerdict(u, lead + (PurchaseCostDisplay(amount) + trail), payloads) == Pass <==> OneToken(CostHundredths(amount))
  {
    hide PurchaseCostDisplay, NumbersVerdict, Announced, Introduces, Supports, Displayed, HalfUp, Trails;
    AcceptedIff(u, lead, trail, amount, payloads);
    DisplayError(amount);
    if amount >= 1000000.0 && HalfUp(amount / 1000000.0, 2) >= 100000 {
      Thousand();
      HalfUpNearest(amount / 1000000.0, 2);
    }
  }

  /**
   After an approximating word, in the thousands branch, the display passes exactly when the nearest thousand lies
   within three percent of the amount.
   */
  lemma ThousandsAuthorisedIff(u: Unicode, lead: string, trail: string, amount: real, payloads: seq<Record>)
    requires u.Valid() && u.Matching() && Introduces(u, lead) && Trails(u, CostEnding(amount), trail)
    requires Announced(u, lead) && Supports(u, payloads, amount)
    requires 1000.0 <= amount < 1000000.0
    ensures NumbersVerdict(u, lead + (PurchaseCostDisplay(amount) + trail), payloads) == Pass
       <==> 0.97 * amount <= 1000.0 * HalfUp(amount / 1000.0, 0) as real <= 1.03 * amount
  {
    hide PurchaseCostDisplay, NumbersVerdict, Announced, Introduces, Supports, HalfUp, Trails;
    AcceptedIff(u, lead, trail, amount, payloads);
    BelowMillionWhole(amount);
  }
}
