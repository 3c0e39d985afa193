/** The number check of the what-if narration: `_validate_numbers` of app/decision_intelligence/what_if_evidence.py. */
module WhatIfNumbers {
  import opened Text
  import opened Ordering

  /** s.replace(old, " "); an empty pattern puts a space around every character */
  function Blanked(s: string, old_: string): string {
    if old_ == "" then " " + Spaced(s) else ReplaceFrom(s, old_, " ", 0)
  }

  function Spaced(s: string): string {
    if s == "" then "" else [s[0], ' '] + Spaced(s[1..])
  }

  /** The text left after each mention, in order, is replaced by a space. */
  function Remaining(s: string, mentions: seq<string>): string
    decreases |mentions|
  {
    if mentions == [] then s else Remaining(Blanked(s, mentions[0]), mentions[1..])
  }

  /** (?<![\w])[-+]?\d+(?:[.,]\d+)? matches at `i` */
  predicate NumberAt(u: Unicode, s: string, i: nat)
    requires i < |s|
  {
    && !(i > 0 && u.word(s[i - 1]))
    && (u.digit(s[i]) >= 0 || ((s[i] == '-' || s[i] == '+') && i + 1 < |s| && u.digit(s[i + 1]) >= 0))
  }

  predicate NoNumber(u: Unicode, s: string) {
    forall i | 0 <= i < |s| :: !NumberAt(u, s, i)
  }

  /** The allowed mentions, each once, longest first; mentions of equal length may come in any order. */
  ghost predicate LongestFirst(mentions: seq<string>, allowed: set<string>) {
    && Distinct(mentions) && (forall m :: m in mentions <==> m in allowed)
    && forall i, j | 0 <= i < j < |mentions| :: |mentions[i]| >= |mentions[j]|
  }

  /** _validate_numbers: true when it returns, false when it raises "unsupported_numeric_claim" */
  method ValidateNumbers(u: Unicode, text: string, mentions: seq<string>) returns (accepted: bool)
    ensures accepted <==> NoNumber(u, Remaining(text, mentions))
  {
    var remaining := text;
    for i := 0 to |mentions|
      invariant Remaining(remaining, mentions[i..]) == Remaining(text, mentions)
    {
      assert mentions[i..][0] == mentions[i] && mentions[i..][1..] == mentions[i + 1..];
      remaining := Blanked(remaining, mentions[i]);
    }
    assert mentions[|mentions|..] == [];
    accepted := NoNumber(u, remaining);
  }

  // ---------- what acceptance means for the text that is left ----------

  /** Start of the run of digits that ends at `q`. */
  function RunStart(u: Unicode, s: string, q: nat): (b: nat)
    requires q < |s| && u.digit(s[q]) >= 0
    ensures b <= q && forall k | b <= k <= q :: u.digit(s[k]) >= 0
    ensures b > 0 ==> u.digit(s[b - 1]) < 0
  {
    if q > 0 && u.digit(s[q - 1]) >= 0 then RunStart(u, s, q - 1) else q
  }

  /** The digits around `q` are glued to a word character in front of them. */
  predicate RunGlued(u: Unicode, s: string, q: nat)
    requires q < |s| && u.digit(s[q]) >= 0
  {
    var b := RunStart(u, s, q);
    b > 0 && u.word(s[b - 1])
  }

  /** Nothing is found exactly when every run of digits is directly preceded by a word character. */
  lemma NoNumberIff(u: Unicode, s: string)
    requires u.Valid()
    ensures NoNumber(u, s) <==> forall q | 0 <= q < |s| && u.digit(s[q]) >= 0 :: RunGlued(u, s, q)
  {
    if NoNumber(u, s) {
      forall q | 0 <= q < |s| && u.digit(s[q]) >= 0
        ensures RunGlued(u, s, q)
      {
        assert !NumberAt(u, s, RunStart(u, s, q));
      }
    } else {
      var i :| 0 <= i < |s| && NumberAt(u, s, i);
      var q := if u.digit(s[i]) >= 0 then i else i + 1;
      assert i > 0 ==> u.Classified(s[i - 1]);
      assert u.Classified(s[i]);
      assert !RunGlued(u, s, q);
    }
  }

  // ---------- where each character of the original text went ----------

  /** A character that remembers its position in the original text; None for an inserted space. */
  datatype Cell = Cell(c: char, origin: Option<nat>)

  const SPACE := Cell(' ', None)

  function Letters(cells: seq<Cell>): string {
    seq(|cells|, i requires 0 <= i < |cells| => cells[i].c)
  }

  function Origins(text: string): seq<Cell> {
    seq(|text|, i requires 0 <= i < |text| => Cell(text[i], Some(i)))
  }

  /** `ReplaceFrom` on cells. */
  function EraseFrom(cells: seq<Cell>, old_: string, i: nat): seq<Cell>
    requires old_ != "" && i <= |cells|
    decreases |cells| - i
  {
    if i == |cells| then []
    else if At(Letters(cells), i, old_) then [SPACE] + EraseFrom(cells, old_, i + |old_|)
    else [cells[i]] + EraseFrom(cells, old_, i + 1)
  }

  function SpacedCells(cells: seq<Cell>): seq<Cell> {
    if cells == [] then [] else [cells[0], SPACE] + SpacedCells(cells[1..])
  }

  function Erase(cells: seq<Cell>, old_: string): seq<Cell> {
    if old_ == "" then [SPACE] + SpacedCells(cells) else EraseFrom(cells, old_, 0)
  }

  function EraseAll(cells: seq<Cell>, mentions: seq<string>): seq<Cell>
    decreases |mentions|
  {
    if mentions == [] then cells else EraseAll(Erase(cells, mentions[0]), mentions[1..])
  }

  lemma LettersAppend(a: seq<Cell>, b: seq<Cell>)
    ensures Letters(a + b) == Letters(a) + Letters(b)
  {}

  lemma {:induction false} EraseFromLetters(cells: seq<Cell>, old_: string, i: nat)
    requires old_ != "" && i <= |cells|
    ensures Letters(EraseFrom(cells, old_, i)) == ReplaceFrom(Letters(cells), old_, " ", i)
    decreases |cells| - i
  {
    if i < |cells| {
      if At(Letters(cells), i, old_) {
        EraseFromLetters(cells, old_, i + |old_|);
        LettersAppend([SPACE], EraseFrom(cells, old_, i + |old_|));
        assert Letters([SPACE]) == " ";
      } else {
        EraseFromLetters(cells, old_, i + 1);
        LettersAppend([cells[i]], EraseFrom(cells, old_, i + 1));
        assert Letters([cells[i]]) == [Letters(cells)[i]];
      }
    }
  }

  lemma {:induction false} SpacedLetters(cells: seq<Cell>)
    ensures Letters(SpacedCells(cells)) == Spaced(Letters(cells))
  {
    if cells != [] {
      SpacedLetters(cells[1..]);
      LettersAppend([cells[0], SPACE], SpacedCells(cells[1..]));
      assert Letters(cells)[1..] == Letters(cells[1..]);
      assert Letters([cells[0], SPACE]) == [Letters(cells)[0], ' '];
    }
  }

  /** Tracked erasure is erasure. */
  lemma {:induction false} EraseAllLetters(cells: seq<Cell>, mentions: seq<string>)
    ensures Letters(EraseAll(cells, mentions)) == Remaining(Letters(cells), mentions)
    decreases |mentions|
  {
    if mentions != [] {
      var old_ := mentions[0];
      if old_ == "" {
        SpacedLetters(cells);
        LettersAppend([SPACE], SpacedCells(cells));
        assert Letters([SPACE]) == " ";
      } else {
        EraseFromLetters(cells, old_, 0);
      }
      EraseAllLetters(Erase(cells, old_), mentions[1..]);
    }
  }

  /** The cell stands inside an occurrence of `old_`. */
  ghost predicate Within(cells: seq<Cell>, old_: string, cell: Cell) {
    exists o: nat, q: nat :: At(Letters(cells), o, old_) && o <= q < o + |old_| && q < |cells| && cells[q] == cell
  }

  lemma {:induction false} EraseFromKeeps(cells: seq<Cell>, old_: string, i: nat, q: nat)
    requires old_ != "" && i <= q < |cells|
    ensures cells[q] in EraseFrom(cells, old_, i) || Within(cells, old_, cells[q])
    decreases |cells| - i
  {
    if At(Letters(cells), i, old_) {
      if q >= i + |old_| { EraseFromKeeps(cells, old_, i + |old_|, q); }
    } else if q > i {
      EraseFromKeeps(cells, old_, i + 1, q);
    }
  }

  lemma {:induction false} SpacedKeeps(cells: seq<Cell>, q: nat)
    requires q < |cells|
    ensures cells[q] in SpacedCells(cells)
  {
    if q > 0 { SpacedKeeps(cells[1..], q - 1); }
  }

  /** One replacement keeps a cell or erases it as part of the mention. */
  lemma EraseKeeps(cells: seq<Cell>, old_: string, cell: Cell)
    requires cell in cells
    ensures cell in Erase(cells, old_) || Within(cells, old_, cell)
  {
    var q :| 0 <= q < |cells| && cells[q] == cell;
    if old_ == "" { SpacedKeeps(cells, q); } else { EraseFromKeeps(cells, old_, 0, q); }
  }

  /** The cell was erased at some step as part of the mention of that step. */
  ghost predicate ErasedAt(cells: seq<Cell>, mentions: seq<string>, cell: Cell, n: nat) {
    n < |mentions| && Within(EraseAll(cells, mentions[..n]), mentions[n], cell)
  }

  lemma {:induction false} EraseAllKeeps(cells: seq<Cell>, mentions: seq<string>, cell: Cell)
    requires cell in cells
    ensures cell in EraseAll(cells, mentions) || exists n: nat :: ErasedAt(cells, mentions, cell, n)
    decreases |mentions|
  {
    if mentions != [] {
      EraseKeeps(cells, mentions[0], cell);
      if cell in Erase(cells, mentions[0]) {
        EraseAllKeeps(Erase(cells, mentions[0]), mentions[1..], cell);
        forall n: nat | ErasedAt(Erase(cells, mentions[0]), mentions[1..], cell, n)
          ensures ErasedAt(cells, mentions, cell, n + 1)
        {
          var taken := mentions[..n + 1];
          assert taken[0] == mentions[0] && taken[1..] == mentions[1..][..n];
        }
      } else {
        assert mentions[..0] == [];
        assert ErasedAt(cells, mentions, cell, 0);
      }
    }
  }

  /** The cell is still there, in a run of digits directly preceded by a word character. */
  ghost predicate SurvivesGlued(u: Unicode, left: seq<Cell>, cell: Cell) {
    exists q: nat :: q < |left| && left[q] == cell && u.digit(Letters(left)[q]) >= 0 && RunGlued(u, Letters(left), q)
  }

  lemma SurvivorGlued(u: Unicode, left: seq<Cell>, cell: Cell)
    requires u.Valid() && cell in left && u.digit(cell.c) >= 0 && NoNumber(u, Letters(left))
    ensures SurvivesGlued(u, left, cell)
  {
    var s := Letters(left);
    NoNumberIff(u, s);
    var q: nat :| q < |left| && left[q] == cell;
    assert s[q] == cell.c;
    assert RunGlued(u, s, q);
  }

  /**
   Soundness of the erasure check over every text and every longest-first order of the allowed mentions:
   when it accepts, each digit of the text was erased as part of an allowed mention at the step of that
   mention, or survives in a run of digits directly preceded by a word character.
   */
  lemma ErasureSound(u: Unicode, text: string, allowed: set<string>, mentions: seq<string>, p: nat)
    requires u.Valid() && LongestFirst(mentions, allowed)
    requires NoNumber(u, Remaining(text, mentions))
    requires p < |text| && u.digit(text[p]) >= 0
    ensures var cell := Cell(text[p], Some(p));
      || (exists n: nat :: ErasedAt(Origins(text), mentions, cell, n) && mentions[n] in allowed)
      || SurvivesGlued(u, EraseAll(Origins(text), mentions), cell)
  {
    hide EraseAll, Remaining, Within, SurvivesGlued;
    var cells := Origins(text);
    var cell := Cell(text[p], Some(p));
    assert cells[p] == cell && Letters(cells) == text;
    EraseAllKeeps(cells, mentions, cell);
    EraseAllLetters(cells, mentions);
    if cell in EraseAll(cells, mentions) {
      SurvivorGlued(u, EraseAll(cells, mentions), cell);
    } else {
      var n: nat :| ErasedAt(cells, mentions, cell, n);
      assert mentions[n] in mentions;
    }
  }
}
