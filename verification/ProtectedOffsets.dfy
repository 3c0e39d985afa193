/**
 Where the characters of the protected text stand in the sentence. Blanking is repeated on pieces that remember what they
 stand for, and a mention's offset in the protected text is compared with its place in the sentence.
 */
module ProtectedOffsets {
  import opened Text
  import opened Records
  import opened NumericAuthority
  import opened NumberCheck
  import opened PrintedVerdicts

  // ---------- blanking that remembers ----------

  /** A character of the protected text and the stretch of the sentence it stands for. */
  datatype Piece = Piece(c: char, start: nat, end: nat)

  function Letters(pieces: seq<Piece>): string {
    seq(|pieces|, i requires 0 <= i < |pieces| => pieces[i].c)
  }

  function PiecesOf(text: string): seq<Piece> {
    seq(|text|, i requires 0 <= i < |text| => Piece(text[i], i, i + 1))
  }

  /** The blank that takes the place of `n` pieces. */
  function Blank(pieces: seq<Piece>, i: nat, n: nat): Piece
    requires n > 0 && i + n <= |pieces|
  {
    Piece(' ', pieces[i].start, pieces[i + n - 1].end)
  }

  /** `ReplaceFrom` on pieces. */
  function ReplacePieces(pieces: seq<Piece>, old_: string, i: nat): seq<Piece>
    requires old_ != "" && i <= |pieces|
    decreases |pieces| - i
  {
    if i == |pieces| then []
    else if At(Letters(pieces), i, old_) then [Blank(pieces, i, |old_|)] + ReplacePieces(pieces, old_, i + |old_|)
    else [pieces[i]] + ReplacePieces(pieces, old_, i + 1)
  }

  /** `BlankRanges` on pieces. */
  function RangePieces(pieces: seq<Piece>, ranges: seq<string>): seq<Piece>
    decreases |ranges|
  {
    if ranges == [] then pieces
    else RangePieces(if ranges[0] == "" then pieces else ReplacePieces(pieces, ranges[0], 0), ranges[1..])
  }

  /** `BlankDates` on pieces. */
  function DatePieces(u: Unicode, pieces: seq<Piece>, i: nat): seq<Piece>
    requires i <= |pieces|
    decreases |pieces| - i
  {
    if i == |pieces| then []
    else match DateEnd(u, Letters(pieces), i)
      case Some(e) => [Blank(pieces, i, e - i)] + DatePieces(u, pieces, e)
      case None => [pieces[i]] + DatePieces(u, pieces, i + 1)
  }

  /** `Protected` on pieces. */
  function ProtectedPieces(u: Unicode, text: string, payloads: seq<Record>): seq<Piece> {
    DatePieces(u, RangePieces(PiecesOf(text), SuppliedRanges(payloads)), 0)
  }

  lemma LettersCons(p: Piece, rest: seq<Piece>)
    ensures Letters([p] + rest) == [p.c] + Letters(rest)
  {}

  lemma ReplaceHit(s: string, old_: string, i: nat)
    requires old_ != "" && i <= |s| && At(s, i, old_)
    ensures ReplaceFrom(s, old_, " ", i) == " " + ReplaceFrom(s, old_, " ", i + |old_|)
  {}

  lemma ReplaceMiss(s: string, old_: string, i: nat)
    requires old_ != "" && i < |s| && !At(s, i, old_)
    ensures ReplaceFrom(s, old_, " ", i) == [s[i]] + ReplaceFrom(s, old_, " ", i + 1)
  {}

  lemma {:induction false} ReplaceLetters(pieces: seq<Piece>, old_: string, i: nat)
    requires old_ != "" && i <= |pieces|
    ensures Letters(ReplacePieces(pieces, old_, i)) == ReplaceFrom(Letters(pieces), old_, " ", i)
    decreases |pieces| - i
  {
    hide Letters, At, ReplaceFrom;
    LettersLength(pieces);
    if i == |pieces| {
      NoLetters();
      NothingReplaced(Letters(pieces), old_);
    } else if At(Letters(pieces), i, old_) {
      AtFits(pieces, old_, i);
      ReplaceHit(Letters(pieces), old_, i);
      ReplaceLetters(pieces, old_, i + |old_|);
      LettersCons(Blank(pieces, i, |old_|), ReplacePieces(pieces, old_, i + |old_|));
    } else {
      ReplaceMiss(Letters(pieces), old_, i);
      ReplaceLetters(pieces, old_, i + 1);
      LettersCons(pieces[i], ReplacePieces(pieces, old_, i + 1));
      LetterAt(pieces, i);
    }
  }

  lemma NothingReplaced(s: string, old_: string)
    requires old_ != ""
    ensures ReplaceFrom(s, old_, " ", |s|) == ""
  {}

  lemma LettersLength(pieces: seq<Piece>)
    ensures |Letters(pieces)| == |pieces|
  {}

  lemma LetterAt(pieces: seq<Piece>, i: nat)
    requires i < |pieces|
    ensures i < |Letters(pieces)| && Letters(pieces)[i] == pieces[i].c
  {}

  lemma AtFits(pieces: seq<Piece>, old_: string, i: nat)
    requires At(Letters(pieces), i, old_)
    ensures i + |old_| <= |pieces|
  {}

  lemma NoLetters()
    ensures Letters([]) == ""
  {}

  lemma {:induction false} RangeLetters(pieces: seq<Piece>, ranges: seq<string>)
    ensures Letters(RangePieces(pieces, ranges)) == BlankRanges(Letters(pieces), ranges)
    decreases |ranges|
  {
    hide Letters, ReplacePieces, ReplaceFrom;
    if ranges != [] {
      if ranges[0] == "" {
        RangeLetters(pieces, ranges[1..]);
      } else {
        ReplaceLetters(pieces, ranges[0], 0);
        RangeLetters(ReplacePieces(pieces, ranges[0], 0), ranges[1..]);
      }
    }
  }

  lemma {:induction false} DateLetters(u: Unicode, pieces: seq<Piece>, i: nat)
    requires i <= |pieces|
    ensures i <= |Letters(pieces)| && Letters(DatePieces(u, pieces, i)) == BlankDates(u, Letters(pieces), i)
    decreases |pieces| - i
  {
    hide Letters, DateEnd;
    LettersLength(pieces);
    if i == |pieces| {
      NoLetters();
    } else {
      match DateEnd(u, Letters(pieces), i) {
        case Some(e) =>
          DateLetters(u, pieces, e);
          LettersCons(Blank(pieces, i, e - i), DatePieces(u, pieces, e));
        case None =>
          DateLetters(u, pieces, i + 1);
          LettersCons(pieces[i], DatePieces(u, pieces, i + 1));
          LetterAt(pieces, i);
      }
    }
  }

  /** Blanking that remembers is blanking. */
  lemma ProtectedLetters(u: Unicode, text: string, payloads: seq<Record>)
    ensures Letters(ProtectedPieces(u, text, payloads)) == Protected(u, text, payloads)
  {
    hide DatePieces, RangePieces, BlankDates, BlankRanges, SuppliedRanges;
    assert Letters(PiecesOf(text)) == text;
    RangeLetters(PiecesOf(text), SuppliedRanges(payloads));
    DateLetters(u, RangePieces(PiecesOf(text), SuppliedRanges(payloads)), 0);
  }

  // ---------- the pieces tile the sentence ----------

  /** Each piece is a blank, or one character of the text. */
  predicate Stands(text: string, p: Piece) {
    p.start < p.end <= |text| && (p.c == ' ' || (p.end == p.start + 1 && p.c == text[p.start]))
  }

  /** The pieces from `i` on tile the text from `a` to its end. */
  ghost predicate TilesFrom(text: string, pieces: seq<Piece>, i: nat, a: nat) {
    && i <= |pieces| && a <= |text|
    && (forall k | i <= k < |pieces| :: Stands(text, pieces[k]))
    && (forall k | i < k < |pieces| :: pieces[k].start == pieces[k - 1].end)
    && (if i == |pieces| then a == |text| else pieces[i].start == a && pieces[|pieces| - 1].end == |text|)
  }

  ghost predicate Tiles(text: string, pieces: seq<Piece>) {
    TilesFrom(text, pieces, 0, 0)
  }

  /** Where the piece at `i` starts; the end of the text after the last one. */
  function StartOf(text: string, pieces: seq<Piece>, i: nat): nat {
    if i < |pieces| then pieces[i].start else |text|
  }

  lemma TilesOn(text: string, pieces: seq<Piece>, i: nat, n: nat)
    requires TilesFrom(text, pieces, i, StartOf(text, pieces, i)) && i + n <= |pieces|
    ensures TilesFrom(text, pieces, i + n, StartOf(text, pieces, i + n))
    ensures n > 0 ==> pieces[i + n - 1].end == StartOf(text, pieces, i + n)
  {}

  lemma {:induction false} Rising(text: string, pieces: seq<Piece>, i: nat, n: nat)
    requires TilesFrom(text, pieces, i, StartOf(text, pieces, i)) && n > 0 && i + n <= |pieces|
    ensures pieces[i].start < pieces[i + n - 1].end
    decreases n
  {
    if n > 1 {
      TilesOn(text, pieces, i, 1);
      Rising(text, pieces, i + 1, n - 1);
    }
  }

  lemma BlankStands(text: string, pieces: seq<Piece>, i: nat, n: nat)
    requires TilesFrom(text, pieces, i, StartOf(text, pieces, i)) && n > 0 && i + n <= |pieces|
    ensures var b := Blank(pieces, i, n);
      Stands(text, b) && b.start == StartOf(text, pieces, i) && b.end == StartOf(text, pieces, i + n)
  {
    Rising(text, pieces, i, n);
    TilesOn(text, pieces, i, n);
  }

  lemma TilesCons(text: string, p: Piece, rest: seq<Piece>)
    requires Stands(text, p) && TilesFrom(text, rest, 0, p.end)
    ensures TilesFrom(text, [p] + rest, 0, p.start)
  {
    var all := [p] + rest;
    assert forall k | 0 < k < |all| :: all[k] == rest[k - 1];
    assert rest != [] ==> all[|all| - 1] == rest[|rest| - 1];
  }

  lemma {:induction false} ReplaceTiles(text: string, pieces: seq<Piece>, old_: string, i: nat)
    requires old_ != "" && i <= |pieces| && TilesFrom(text, pieces, i, StartOf(text, pieces, i))
    ensures TilesFrom(text, ReplacePieces(pieces, old_, i), 0, StartOf(text, pieces, i))
    decreases |pieces| - i
  {
    hide Letters, At, TilesFrom;
    if i == |pieces| {
      NothingTiles(text, pieces);
    } else if At(Letters(pieces), i, old_) {
      AtFits(pieces, old_, i);
      BlankStands(text, pieces, i, |old_|);
      TilesOn(text, pieces, i, |old_|);
      ReplaceTiles(text, pieces, old_, i + |old_|);
      TilesCons(text, Blank(pieces, i, |old_|), ReplacePieces(pieces, old_, i + |old_|));
    } else {
      OneStands(text, pieces, i);
      TilesOn(text, pieces, i, 1);
      ReplaceTiles(text, pieces, old_, i + 1);
      TilesCons(text, pieces[i], ReplacePieces(pieces, old_, i + 1));
    }
  }

  lemma NothingTiles(text: string, pieces: seq<Piece>)
    ensures TilesFrom(text, [], 0, StartOf(text, pieces, |pieces|))
  {}

  lemma OneStands(text: string, pieces: seq<Piece>, i: nat)
    requires i < |pieces| && TilesFrom(text, pieces, i, StartOf(text, pieces, i))
    ensures Stands(text, pieces[i]) && pieces[i].start == StartOf(text, pieces, i)
  {}

  lemma {:induction false} RangeTiles(text: string, pieces: seq<Piece>, ranges: seq<string>)
    requires Tiles(text, pieces)
    ensures Tiles(text, RangePieces(pieces, ranges))
    decreases |ranges|
  {
    hide ReplacePieces, TilesFrom;
    if ranges != [] {
      if ranges[0] == "" {
        RangeTiles(text, pieces, ranges[1..]);
      } else {
        StartIs(text, pieces);
        ReplaceTiles(text, pieces, ranges[0], 0);
        RangeTiles(text, ReplacePieces(pieces, ranges[0], 0), ranges[1..]);
      }
    }
  }

  lemma StartIs(text: string, pieces: seq<Piece>)
    requires Tiles(text, pieces)
    ensures StartOf(text, pieces, 0) == 0
  {}

  lemma {:induction false} DateTiles(u: Unicode, text: string, pieces: seq<Piece>, i: nat)
    requires i <= |pieces| && TilesFrom(text, pieces, i, StartOf(text, pieces, i))
    ensures TilesFrom(text, DatePieces(u, pieces, i), 0, StartOf(text, pieces, i))
    decreases |pieces| - i
  {
    hide Letters, DateEnd, TilesFrom;
    LettersLength(pieces);
    if i == |pieces| {
      NothingTiles(text, pieces);
    } else {
      match DateEnd(u, Letters(pieces), i) {
        case Some(e) =>
          BlankStands(text, pieces, i, e - i);
          TilesOn(text, pieces, i, e - i);
          DateTiles(u, text, pieces, e);
          TilesCons(text, Blank(pieces, i, e - i), DatePieces(u, pieces, e));
        case None =>
          OneStands(text, pieces, i);
          TilesOn(text, pieces, i, 1);
          DateTiles(u, text, pieces, i + 1);
          TilesCons(text, pieces[i], DatePieces(u, pieces, i + 1));
      }
    }
  }

  lemma TextTiles(text: string)
    ensures Tiles(text, PiecesOf(text))
  {}

  lemma ProtectedTiles(u: Unicode, text: string, payloads: seq<Record>)
    ensures Tiles(text, ProtectedPieces(u, text, payloads))
  {
    hide TilesFrom, DatePieces, RangePieces, SuppliedRanges;
    TextTiles(text);
    RangeTiles(text, PiecesOf(text), SuppliedRanges(payloads));
    var pieces := RangePieces(PiecesOf(text), SuppliedRanges(payloads));
    StartIs(text, pieces);
    DateTiles(u, text, pieces, 0);
  }

  // ---------- offsets and places ----------

  /** Everything blanked before piece `i` was one character long. */
  ghost predicate SinglesBefore(pieces: seq<Piece>, i: nat) {
    forall k | 0 <= k < i && k < |pieces| :: pieces[k].end == pieces[k].start + 1
  }

  lemma {:induction false} OffsetOf(text: string, pieces: seq<Piece>, i: nat)
    requires Tiles(text, pieces) && i < |pieces|
    ensures pieces[i].start >= i && (pieces[i].start == i <==> SinglesBefore(pieces, i))
  {
    if i > 0 {
      OffsetOf(text, pieces, i - 1);
      assert Stands(text, pieces[i - 1]);
    }
  }

  lemma MentionInside(u: Unicode, text: string, payloads: seq<Record>, m: Mention)
    requires m in Mentions(u, Protected(u, text, payloads))
    ensures var s := Protected(u, text, payloads); m.start < m.end <= |s| && m.text == s[m.start..m.end]
  {
    hide Matches, ParsedMentions, Protected;
    var s := Protected(u, text, payloads);
    MentionBounds(u, s, Matches(u, s, 0));
  }

  /** Where the first character of a mention of the protected text stands in the sentence. */
  function PlaceOf(u: Unicode, text: string, payloads: seq<Record>, m: Mention): nat {
    StartOf(text, ProtectedPieces(u, text, payloads), m.start)
  }

  /**
   A mention's offset in the protected text is its place in the sentence if and only if everything that was blanked
   before it is one character long; otherwise the place is further on.
   */
  lemma OffsetIsPlaceIff(u: Unicode, text: string, payloads: seq<Record>, m: Mention)
    requires m in Mentions(u, Protected(u, text, payloads))
    ensures PlaceOf(u, text, payloads, m) == m.start <==> SinglesBefore(ProtectedPieces(u, text, payloads), m.start)
    ensures m.start <= PlaceOf(u, text, payloads, m) <= |text|
  {
    hide Mentions, Protected, ProtectedPieces, Letters;
    var pieces := ProtectedPieces(u, text, payloads);
    MentionInside(u, text, payloads, m);
    ProtectedLetters(u, text, payloads);
    LettersLength(pieces);
    ProtectedTiles(u, text, payloads);
    OffsetOf(text, pieces, m.start);
    assert Stands(text, pieces[m.start]);
  }

  /** What is not a blank stands in the sentence as itself. */
  lemma {:induction false} KeptAt(text: string, pieces: seq<Piece>, i: nat, n: nat)
    requires Tiles(text, pieces) && i + n <= |pieces| && forall k | i <= k < i + n :: pieces[k].c != ' '
    ensures StartOf(text, pieces, i) + n <= |text| && text[StartOf(text, pieces, i)..StartOf(text, pieces, i) + n] == Letters(pieces)[i..i + n]
    ensures StartOf(text, pieces, i + n) == StartOf(text, pieces, i) + n
    decreases n
  {
    hide Tiles, StartOf, Letters;
    LettersLength(pieces);
    PlaceExists(text, pieces, i);
    var a := StartOf(text, pieces, i);
    if n > 0 {
      KeptStep(text, pieces, i);
      LetterAt(pieces, i);
      KeptAt(text, pieces, i + 1, n - 1);
      assert text[a..a + n] == [text[a]] + text[a + 1..a + n];
      assert Letters(pieces)[i..i + n] == [pieces[i].c] + Letters(pieces)[i + 1..i + n];
    }
  }

  lemma PlaceExists(text: string, pieces: seq<Piece>, i: nat)
    requires Tiles(text, pieces)
    ensures StartOf(text, pieces, i) <= |text|
  {
    if i < |pieces| { assert Stands(text, pieces[i]); }
  }

  lemma KeptStep(text: string, pieces: seq<Piece>, i: nat)
    requires Tiles(text, pieces) && i < |pieces| && pieces[i].c != ' '
    ensures var a := StartOf(text, pieces, i); StartOf(text, pieces, i + 1) == a + 1 && a < |text| && text[a] == pieces[i].c
  {
    assert Stands(text, pieces[i]);
  }

  // ---------- the lookups at a mention's own place ----------

  /** Four digits with a hyphen right after them in the sentence. */
  predicate OwnYearDash(u: Unicode, text: string, payloads: seq<Record>, m: Mention) {
    |m.text| == 4 && DigitsAt(u, m.text, 0, 4) && At(text, PlaceOf(u, text, payloads, m) + 4, "-")
  }

  /** An approximating word in the sixteen characters of the sentence right before the mention. */
  predicate OwnApproximated(u: Unicode, text: string, payloads: seq<Record>, m: Mention) {
    PlaceOf(u, text, payloads, m) <= |text| && Announced(u, text[..PlaceOf(u, text, payloads, m)])
  }

  /** The check, with both lookups at the mention's own place. */
  ghost predicate OwnPasses(u: Unicode, text: string, payloads: seq<Record>, m: Mention) {
    || OwnYearDash(u, text, payloads, m)
    || Authorized(m.parsed, Authority(u, payloads), OwnApproximated(u, text, payloads, m))
  }

  /** At offsets that are places the lookups speak of the mention itself. */
  lemma LookupsOwn(u: Unicode, text: string, payloads: seq<Record>, m: Mention)
    requires m in Mentions(u, Protected(u, text, payloads)) && SinglesBefore(ProtectedPieces(u, text, payloads), m.start)
    ensures YearDash(u, text, m) <==> OwnYearDash(u, text, payloads, m)
    ensures Approximated(u, text, m) <==> OwnApproximated(u, text, payloads, m)
    ensures MentionPasses(u, text, Authority(u, payloads), m) <==> OwnPasses(u, text, payloads, m)
  {
    hide Mentions, Protected, ProtectedPieces, Announced, PlaceOf, Authority, Authorized;
    OffsetIsPlaceIff(u, text, payloads, m);
    MentionInside(u, text, payloads, m);
    AnnouncedBefore(u, text, m);
  }

  /**
   When everything blanked before a mention is one character long, for every mention, the verdict is that of the check
   at the mentions' own places.
   */
  lemma VerdictIsOwn(u: Unicode, text: string, payloads: seq<Record>)
    requires forall m | m in Mentions(u, Protected(u, text, payloads)) ::
      SinglesBefore(ProtectedPieces(u, text, payloads), m.start)
    ensures NumbersVerdict(u, text, payloads) == Pass <==>
      && !RangeContradicted(u, text, payloads)
      && forall m | m in Mentions(u, Protected(u, text, payloads)) :: OwnPasses(u, text, payloads, m)
  {
    hide Mentions, Protected, ProtectedPieces, Authority, Authorized, RangeContradicted, MentionPasses, OwnPasses, SinglesBefore;
    forall m | m in Mentions(u, Protected(u, text, payloads))
      ensures MentionPasses(u, text, Authority(u, payloads), m) <==> OwnPasses(u, text, payloads, m)
    {
      LookupsOwn(u, text, payloads, m);
    }
  }

  /** A year that is let through at its own place is one: the four digits stand in the sentence, and the hyphen after them. */
  lemma OwnYearStands(u: Unicode, text: string, payloads: seq<Record>, m: Mention)
    requires u.Numerals() && m in Mentions(u, Protected(u, text, payloads)) && OwnYearDash(u, text, payloads, m)
    ensures var p := PlaceOf(u, text, payloads, m);
      p + 5 <= |text| && text[p..p + 4] == m.text && text[p + 4] == '-'
  {
    hide Mentions, Protected, ProtectedPieces;
    var pieces := ProtectedPieces(u, text, payloads);
    MentionInside(u, text, payloads, m);
    ProtectedLetters(u, text, payloads);
    LettersLength(pieces);
    ProtectedTiles(u, text, payloads);
    var s := Protected(u, text, payloads);
    forall k | m.start <= k < m.start + 4
      ensures pieces[k].c != ' '
    {
      LetterAt(pieces, k);
      assert m.text[k - m.start] == s[k];
    }
    KeptAt(text, pieces, m.start, 4);
    assert s[m.start..m.start + 4] == m.text;
    var p := PlaceOf(u, text, payloads, m);
    assert text[p + 4..p + 5] == "-" && text[p + 4..p + 5][0] == text[p + 4];
  }
}
