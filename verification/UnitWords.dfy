/** The unit words of records: `_normalize_unit` of app/decision_intelligence/numeric_authority.py, word by word. */
module UnitWords {
  import opened Text
  import opened NumericAuthority
  import opened Endings
  import opened PrintedMentions
  import opened ContractFacts
  import opened MeasureSentences

  /** A word that is an alias and contains none of the earlier ones is normalised to the alias's unit. */
  lemma WordAt(u: Unicode, w: string, k: nat)
    requires u.Valid() && w != "" && UnitLetter(w[0]) && UnitLetter(w[|w| - 1]) && Fold(u, w) == w
    requires k < |UNIT_ALIASES| && UNIT_ALIASES[k].0 == w
    requires forall i | 0 <= i < k :: !ContainsWord(u, w, UNIT_ALIASES[i].0)
    ensures NormalizeUnit(u, w) == Some(UNIT_ALIASES[k].1)
  {
    hide ContainsWord, UNIT_ALIASES, UnitLetter;
    EndsAreWords(u, w);
    AliasAt(u, w, UNIT_ALIASES, k);
  }

  lemma EndsAreWords(u: Unicode, w: string)
    requires u.Valid() && w != "" && UnitLetter(w[0]) && UnitLetter(w[|w| - 1])
    ensures ContainsWord(u, w, w)
  {
    hide UnitLetter;
    LetterIsWord(u, w[0]);
    LetterIsWord(u, w[|w| - 1]);
    assert At(w, 0, w) && Boundary(u, w, 0) && Boundary(u, w, |w|);
  }

  lemma Reordered(u: Unicode)
    ensures !ContainsWord(u, "litres", "liters")
  {
    assert "litres"[3] == 'r' && "liters"[3] == 'e';
    forall i | 0 <= i <= 6
      ensures !At("litres", i, "liters")
    {
      if i == 0 { assert "litres"[0..6] == "litres"; }
    }
  }

  lemma FoldSpaced(u: Unicode)
    requires u.Valid()
    ensures Fold(u, "nguyên liệu") == "nguyên liệu"
  {
    hide UnitLetter;
    LettersFold2(u);
    assert "nguyên liệu" == "nguyên" + " liệu";
    FoldAppend(u, "nguyên", " liệu");
  }

  lemma LettersFold2(u: Unicode)
    requires u.Valid()
    ensures Fold(u, "nguyên") == "nguyên" && Fold(u, " liệu") == " liệu"
  {
    LettersFold(u, "nguyên");
    LettersFold(u, "liệu");
    assert u.Classified(' ') by { assert u.word(' ') || !u.word(' '); }
    FoldIdentity(u, " ");
    FoldAppend(u, " ", "liệu");
    assert " " + "liệu" == " liệu";
  }

  /** Every unit word and the unit it stands for. */
  lemma UnitsNormalised(u: Unicode)
    requires u.Valid()
    ensures NormalizeUnit(u, "kg") == Some("kg") && NormalizeUnit(u, "g") == Some("g")
    ensures NormalizeUnit(u, "liters") == Some("l") && NormalizeUnit(u, "litres") == Some("l")
    ensures NormalizeUnit(u, "lít") == Some("l") && NormalizeUnit(u, "l") == Some("l")
    ensures NormalizeUnit(u, "cái") == Some("cái") && NormalizeUnit(u, "sku") == Some("sku")
    ensures NormalizeUnit(u, "ngày") == Some("ngày") && NormalizeUnit(u, "days") == Some("day")
    ensures NormalizeUnit(u, "nguyên liệu") == Some("nguyên liệu") && NormalizeUnit(u, "ingredients") == Some("ingredient")
  {
    hide NormalizeUnit;
    Measures(u);
    Volumes(u);
    Durations(u);
    Counts(u);
  }

  lemma Measures(u: Unicode)
    requires u.Valid()
    ensures NormalizeUnit(u, "kg") == Some("kg") && NormalizeUnit(u, "g") == Some("g") && NormalizeUnit(u, "cái") == Some("cái")
  {
    hide NormalizeUnit;
    UnitAlone(u, Kilograms);
    UnitAlone(u, Grams);
    UnitAlone(u, Pieces);
  }

  lemma Volumes(u: Unicode)
    requires u.Valid()
    ensures NormalizeUnit(u, "liters") == Some("l") && NormalizeUnit(u, "litres") == Some("l")
    ensures NormalizeUnit(u, "lít") == Some("l") && NormalizeUnit(u, "l") == Some("l")
  {
    hide NormalizeUnit;
    Liters(u);
    Litres(u);
    Lit(u);
    Litre(u);
  }

  lemma Liters(u: Unicode)
    requires u.Valid()
    ensures NormalizeUnit(u, "liters") == Some("l")
  {
    hide ContainsWord, NormalizeUnit;
    LettersFold(u, "liters");
    Lacks(u, "liters", "kg", 'k');
    WordAt(u, "liters", 1);
  }

  lemma Litres(u: Unicode)
    requires u.Valid()
    ensures NormalizeUnit(u, "litres") == Some("l")
  {
    hide ContainsWord, NormalizeUnit;
    LettersFold(u, "litres");
    Lacks(u, "litres", "kg", 'k');
    Reordered(u);
    WordAt(u, "litres", 2);
  }

  lemma Lit(u: Unicode)
    requires u.Valid()
    ensures NormalizeUnit(u, "lít") == Some("l")
  {
    hide ContainsWord, NormalizeUnit;
    LettersFold(u, "lít");
    Lacks(u, "lít", "kg", 'k'); Lacks(u, "lít", "liters", 's'); Lacks(u, "lít", "litres", 's');
    WordAt(u, "lít", 3);
  }

  lemma Litre(u: Unicode)
    requires u.Valid()
    ensures NormalizeUnit(u, "l") == Some("l")
  {
    hide ContainsWord, NormalizeUnit;
    LettersFold(u, "l");
    LitreLetter(u);
    WordAt(u, "l", 11);
  }

  lemma LitreLetter(u: Unicode)
    ensures forall i | 0 <= i < 11 :: !ContainsWord(u, "l", UNIT_ALIASES[i].0)
  {
    hide ContainsWord;
    Lacks(u, "l", "kg", 'k'); Lacks(u, "l", "liters", 's'); Lacks(u, "l", "litres", 's'); Lacks(u, "l", "lít", 't');
    Lacks(u, "l", "cái", 'c'); Lacks(u, "l", "ngày", 'n'); Lacks(u, "l", "days", 'd'); Lacks(u, "l", "sku", 's');
    Lacks(u, "l", "nguyên liệu", 'n'); Lacks(u, "l", "ingredients", 'n'); Lacks(u, "l", "g", 'g');
  }

  lemma Durations(u: Unicode)
    requires u.Valid()
    ensures NormalizeUnit(u, "ngày") == Some("ngày") && NormalizeUnit(u, "days") == Some("day")
  {
    hide ContainsWord, NormalizeUnit;
    LettersFold(u, "ngày"); LettersFold(u, "days");
    Lacks(u, "ngày", "kg", 'k'); Lacks(u, "ngày", "liters", 'l'); Lacks(u, "ngày", "litres", 'l');
    Lacks(u, "ngày", "lít", 'l'); Lacks(u, "ngày", "cái", 'c');
    WordAt(u, "ngày", 5);
    Lacks(u, "days", "kg", 'k'); Lacks(u, "days", "liters", 'l'); Lacks(u, "days", "litres", 'l');
    Lacks(u, "days", "lít", 'l'); Lacks(u, "days", "cái", 'c'); Lacks(u, "days", "ngày", 'n');
    WordAt(u, "days", 6);
  }

  lemma Counts(u: Unicode)
    requires u.Valid()
    ensures NormalizeUnit(u, "sku") == Some("sku") && NormalizeUnit(u, "nguyên liệu") == Some("nguyên liệu")
    ensures NormalizeUnit(u, "ingredients") == Some("ingredient")
  {
    hide ContainsWord, NormalizeUnit;
    LettersFold(u, "sku"); LettersFold(u, "ingredients"); FoldSpaced(u);
    Lacks(u, "sku", "kg", 'g'); Lacks(u, "sku", "liters", 'l'); Lacks(u, "sku", "litres", 'l'); Lacks(u, "sku", "lít", 'l');
    Lacks(u, "sku", "cái", 'c'); Lacks(u, "sku", "ngày", 'n'); Lacks(u, "sku", "days", 'd');
    WordAt(u, "sku", 7);
    IngredientLacks(u);
    WordAt(u, "nguyên liệu", 8);
    IngredientsLack(u);
    WordAt(u, "ingredients", 9);
  }

  lemma IngredientLacks(u: Unicode)
    ensures forall i | 0 <= i < 8 :: !ContainsWord(u, "nguyên liệu", UNIT_ALIASES[i].0)
  {
    hide ContainsWord;
    var w := "nguyên liệu";
    Lacks(u, w, "kg", 'k'); Lacks(u, w, "liters", 't'); Lacks(u, w, "litres", 't'); Lacks(u, w, "lít", 't');
    Lacks(u, w, "cái", 'c'); Lacks(u, w, "ngày", 'à'); Lacks(u, w, "days", 'd'); Lacks(u, w, "sku", 's');
  }

  lemma IngredientsLack(u: Unicode)
    ensures forall i | 0 <= i < 9 :: !ContainsWord(u, "ingredients", UNIT_ALIASES[i].0)
  {
    hide ContainsWord;
    var w := "ingredients";
    Lacks(u, w, "kg", 'k'); Lacks(u, w, "liters", 'l'); Lacks(u, w, "litres", 'l'); Lacks(u, w, "lít", 'l');
    Lacks(u, w, "cái", 'c'); Lacks(u, w, "ngày", 'y'); Lacks(u, w, "days", 'y'); Lacks(u, w, "sku", 'k');
    Lacks(u, w, "nguyên liệu", 'u');
  }
}
