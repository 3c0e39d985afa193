/** Where an answer is cut into sentences, said character by character, and what `str.strip` leaves. */
module FragmentLaws {
  import opened Text
  import opened NumericAuthority
  import opened Narrative

  ghost predicate Blank(u: Unicode, s: string) {
    forall k | 0 <= k < |s| :: u.space(s[k])
  }

  /** What is stripped is white space, and what is left neither begins nor ends with any. */
  ghost predicate Strips(u: Unicode, s: string, left: string) {
    && (exists a, b :: Blank(u, a) && Blank(u, b) && s == a + left + b)
    && (left != "" ==> !u.space(left[0]) && !u.space(left[|left| - 1]))
  }

  lemma {:induction false} LeftIs(u: Unicode, s: string)
    ensures exists a :: Blank(u, a) && s == a + LStrip(u, s)
    ensures LStrip(u, s) != "" ==> !u.space(LStrip(u, s)[0])
  {
    if s != "" && u.space(s[0]) {
      LeftIs(u, s[1..]);
      var a :| Blank(u, a) && s[1..] == a + LStrip(u, s[1..]);
      assert Blank(u, [s[0]] + a) && s == [s[0]] + a + LStrip(u, s);
    } else {
      assert Blank(u, "") && s == "" + LStrip(u, s);
    }
  }

  lemma {:induction false} RightIs(u: Unicode, s: string)
    ensures exists b :: Blank(u, b) && s == RStrip(u, s) + b
    ensures RStrip(u, s) != "" ==> !u.space(RStrip(u, s)[|RStrip(u, s)| - 1])
    ensures RStrip(u, s) <= s
  {
    if s != "" && u.space(s[|s| - 1]) {
      var n := |s| - 1;
      RightIs(u, s[..n]);
      var b :| Blank(u, b) && s[..n] == RStrip(u, s[..n]) + b;
      assert Blank(u, b + [s[n]]) && s == RStrip(u, s) + (b + [s[n]]);
    } else {
      assert Blank(u, "") && s == RStrip(u, s) + "";
    }
  }

  lemma StripIs(u: Unicode, s: string)
    ensures Strips(u, s, Strip(u, s))
  {
    hide LStrip, RStrip;
    LeftIs(u, s);
    var l := LStrip(u, s);
    var a :| Blank(u, a) && s == a + l;
    RightIs(u, l);
    var b :| Blank(u, b) && l == RStrip(u, l) + b;
    assert s == a + RStrip(u, l) + b;
    assert Strip(u, s) != "" ==> Strip(u, s)[0] == l[0];
  }

  // ---------- where the cuts are ----------

  /** White space in a run that directly follows a full stop, an exclamation or a question mark. */
  predicate AfterMark(u: Unicode, s: string, i: nat)
    decreases i
  {
    && 0 < i < |s| && u.space(s[i])
    && (s[i - 1] == '.' || s[i - 1] == '!' || s[i - 1] == '?' || AfterMark(u, s, i - 1))
  }

  /** The characters that part sentences. */
  predicate Parts(u: Unicode, s: string, i: nat) {
    i < |s| && (s[i] == '\n' || AfterMark(u, s, i))
  }

  /** The stretches between parting characters, from the stretch that began at `start`. */
  function Stretches(u: Unicode, s: string, start: nat, i: nat): seq<string>
    requires start <= i <= |s|
    decreases |s| - i
  {
    if i == |s| then [s[start..]]
    else if Parts(u, s, i) then [s[start..i]] + Stretches(u, s, i + 1, i + 1)
    else Stretches(u, s, start, i + 1)
  }

  lemma {:induction false} SpaceRun(u: Unicode, s: string, i: nat)
    requires i <= |s|
    ensures forall k | i <= k < SpaceEnd(u, s, i) :: u.space(s[k])
    ensures SpaceEnd(u, s, i) < |s| ==> !u.space(s[SpaceEnd(u, s, i)])
    decreases |s| - i
  {
    if i < |s| && u.space(s[i]) { SpaceRun(u, s, i + 1); }
  }

  lemma {:induction false} MarkRun(u: Unicode, s: string, i: nat, e: nat)
    requires 0 < i <= e <= |s| && EndsSentence(s[i - 1]) && forall k | i <= k < e :: u.space(s[k])
    ensures forall k | i <= k < e :: AfterMark(u, s, k)
    decreases e
  {
    if i < e { MarkRun(u, s, i, e - 1); }
  }

  lemma {:induction false} LineRun(s: string, i: nat)
    requires i <= |s|
    ensures var e := NewlineEnd(s, i); (forall k | i <= k < e :: s[k] == '\n') && (e < |s| ==> s[e] != '\n')
    decreases |s| - i
  {
    if i < |s| && s[i] == '\n' { LineRun(s, i + 1); }
  }

  /** No earlier run of white space after a mark reaches position `i`. */
  predicate Fresh(u: Unicode, s: string, i: nat) {
    i == 0 || !AfterMark(u, s, i - 1)
  }

  /** Position `i` is not inside a run of white space after a mark. */
  predicate Entry(u: Unicode, s: string, i: nat) {
    i >= |s| || Fresh(u, s, i) || !u.space(s[i])
  }

  /** All characters of a separator part; where there is none, none parts. */
  lemma SeparatorParts(u: Unicode, s: string, i: nat)
    requires u.Valid() && i < |s| && Entry(u, s, i)
    ensures var e := SeparatorEnd(u, s, i);
      && (e == i ==> !Parts(u, s, i) && Entry(u, s, i + 1))
      && (forall k | i <= k < e :: Parts(u, s, k))
      && Entry(u, s, e)
  {
    hide SpaceEnd, NewlineEnd;
    SpaceRun(u, s, i);
    LineRun(s, i);
    NewlineIsSpace(u);
    var e := SeparatorEnd(u, s, i);
    if i > 0 && EndsSentence(s[i - 1]) && SpaceEnd(u, s, i) > i {
      MarkRun(u, s, i, e);
    } else if Fresh(u, s, i) {
      NoMarkRun(u, s, i, e);
    }
  }

  lemma NewlineIsSpace(u: Unicode)
    requires u.Valid()
    ensures u.space('\n')
  {
    assert u.Classified('\n') by { assert u.word('\n') || !u.word('\n'); }
  }

  /** A run of line breaks that no mark precedes does not start a run after a mark. */
  lemma {:induction false} NoMarkRun(u: Unicode, s: string, i: nat, e: nat)
    requires i <= e <= |s| && i < |s| && Fresh(u, s, i) && !(i > 0 && EndsSentence(s[i - 1]) && SpaceEnd(u, s, i) > i)
    requires forall k | i <= k < e :: s[k] == '\n'
    ensures !AfterMark(u, s, i) && Fresh(u, s, e)
    decreases e
  {
    if i > 0 && EndsSentence(s[i - 1]) { assert !u.space(s[i]); }
    assert !AfterMark(u, s, i);
    if e > i {
      NoMarkRun(u, s, i, e - 1);
      assert !AfterMark(u, s, e - 1);
    }
  }

  lemma {:induction false} StretchesSkip(u: Unicode, s: string, i: nat, e: nat)
    requires i <= e <= |s| && forall k | i <= k < e :: Parts(u, s, k)
    ensures Stripped(u, Stretches(u, s, i, i)) == Stripped(u, Stretches(u, s, e, e))
    decreases e - i
  {
    hide Parts, Strip;
    if i < e {
      StretchesSkip(u, s, i + 1, e);
      var rest := Stretches(u, s, i + 1, i + 1);
      assert s[i..i] == "" && Stretches(u, s, i, i) == [""] + rest;
      BlankDropped(u, rest);
    }
  }

  lemma BlankDropped(u: Unicode, rest: seq<string>)
    ensures Stripped(u, [""] + rest) == Stripped(u, rest)
  {
    assert ([""] + rest)[1..] == rest && Strip(u, "") == "";
  }

  lemma StrippedCons(u: Unicode, p: string, rest: seq<string>)
    ensures Stripped(u, [p] + rest) == (if Strip(u, p) != "" then [Strip(u, p)] else []) + Stripped(u, rest)
  {
    assert ([p] + rest)[1..] == rest;
  }

  lemma {:induction false} CutIsStretches(u: Unicode, s: string, start: nat, i: nat)
    requires u.Valid() && start <= i <= |s| && Entry(u, s, i)
    ensures Stripped(u, Cut(u, s, start, i)) == Stripped(u, Stretches(u, s, start, i))
    decreases |s| - i
  {
    hide SeparatorEnd, Parts, Strip, Entry, Stripped;
    if i < |s| {
      SeparatorParts(u, s, i);
      var e := SeparatorEnd(u, s, i);
      if e > i {
        CutIsStretches(u, s, e, e);
        StretchesSkip(u, s, i + 1, e);
        StrippedCons(u, s[start..i], Cut(u, s, e, e));
        StrippedCons(u, s[start..i], Stretches(u, s, i + 1, i + 1));
      } else {
        CutIsStretches(u, s, start, i + 1);
      }
    }
  }

  /**
   The sentences of an answer are the stretches between line breaks and white space after a mark, stripped, without the
   blank ones: the leftmost matches of the separator pattern part nothing else.
   */
  lemma FragmentsAre(u: Unicode, answer: string)
    requires u.Valid()
    ensures Fragments(u, answer) == Stripped(u, Stretches(u, Strip(u, answer), 0, 0))
  {
    hide Cut, Stretches, Strip, Stripped;
    CutIsStretches(u, Strip(u, answer), 0, 0);
  }

  /** Each sentence is a stretch of the answer without its white space at both ends, and none is blank. */
  lemma {:induction false} StrippedIs(u: Unicode, parts: seq<string>)
    ensures var kept := Stripped(u, parts);
      (forall f | f in kept :: f != "" && exists p :: p in parts && Strips(u, p, f))
      && forall p | p in parts :: Strip(u, p) == "" || Strip(u, p) in kept
  {
    hide Strip, Strips;
    if parts != [] {
      StrippedIs(u, parts[1..]);
      StripIs(u, parts[0]);
      assert parts == [parts[0]] + parts[1..];
    }
  }
}
