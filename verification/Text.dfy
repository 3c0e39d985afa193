/**
 Strings as sequences of characters, with the Unicode tables the program relies on kept abstract.

 Python's `\d`, `\w`, `\s`, `str.casefold`, `str.lower` and case-insensitive regex matching are
 tables over all of Unicode. A `Unicode` value holds one such table set; every theorem is stated for
 all of them. `Valid` lists the only facts assumed, all about ASCII and the few letters of the
 program's own Vietnamese markers.
 */
module Text {

  datatype Option<+T> = None | Some(value: T)

  datatype Unicode = Unicode(
    digit: char -> int,            // value of a decimal digit, -1 for any other character
    word: char -> bool,            // regex class \w
    space: char -> bool,           // regex class \s and the characters str.strip removes
    fold: char -> string,          // str.casefold, one character at a time
    lower: char -> string,         // str.lower, one character at a time
    alike: (char, char) -> bool)   // equality under re.IGNORECASE: (text character, pattern character)
  {
    ghost predicate Valid() {
      Numerals() && forall c {:trigger word(c)} {:trigger space(c)} {:trigger fold(c)} :: Classified(c)
    }

    ghost predicate Classified(c: char) {
      && (digit(c) >= 0 ==> word(c) && !space(c) && fold(c) == [c])
      && (space(c) ==> !word(c))
      && (Punctuation(c) ==> !word(c) && !space(c) && fold(c) == [c])
      && (c == ' ' ==> !word(c) && space(c) && fold(c) == [c])
      && (c == '\n' ==> space(c))
      && (UnitLetter(c) ==> digit(c) == -1 && word(c) && !space(c) && fold(c) == [c])
      && (c == '_' ==> digit(c) == -1 && word(c) && !space(c) && fold(c) == [c])
      && (c == 'N' ==> fold(c) == "n")
    }

    /** What reading an ASCII numeral depends on. */
    ghost predicate Numerals() {
      forall c {:trigger digit(c)} ::
        && -1 <= digit(c) <= 9
        && ('0' <= c <= '9' ==> digit(c) == c as int - '0' as int)
        && (c == '.' || c == ',' || c == '-' || c == '%' || c == '/' || c == ' ' ==> digit(c) == -1)
    }

    /** What matching unit words without regard to case depends on. */
    ghost predicate Matching() {
      && (forall c, p {:trigger alike(c, p)} :: Caseless(c, p))
      && (forall c {:trigger fold(c)} :: FoldsApart(c))
      && (forall c {:trigger lower(c)} :: digit(c) >= 0 || Punctuation(c) ==> lower(c) == [c])
    }

    /** A character is alike to itself; digits, punctuation and lower-case letters of the unit words to no other. */
    ghost predicate Caseless(c: char, p: char) {
      && (c == p ==> alike(c, p))
      && (alike(c, p) && (digit(c) >= 0 || Punctuation(c) || Punctuation(p) || (UnitLetter(c) && UnitLetter(p))) ==> c == p)
      && (UnitLetter(c) ==> digit(c) < 0)
    }

    /** Folding a character that is no digit or separator yields none. */
    ghost predicate FoldsApart(c: char) {
      digit(c) < 0 && c != '.' && c != ',' ==> forall d | d in fold(c) :: digit(d) < 0 && d != '.' && d != ','
    }
  }

  /** The lower-case letters of the unit words. */
  predicate UnitLetter(c: char) {
    || 'a' <= c <= 'z' || MoneyLetter(c)
    || c == 'à' || c == 'á' || c == 'í' || c == 'ê' || c == 'ầ' || c == 'ă'
  }

  predicate Punctuation(c: char) {
    c == '.' || c == ',' || c == '-' || c == '+' || c == '%' || c == '!' || c == '?'
  }

  /** The letters of the money words the program prints. */
  predicate MoneyLetter(c: char) {
    || c == 't' || c == 'r' || c == 'i' || c == 'ệ' || c == 'u' || c == 'đ' || c == 'ồ' || c == 'n' || c == 'g'
    || c == 'h' || c == 'ì'
  }

  function Fold(u: Unicode, s: string): string {
    if s == "" then "" else u.fold(s[0]) + Fold(u, s[1..])
  }

  function Lower(u: Unicode, s: string): string {
    if s == "" then "" else u.lower(s[0]) + Lower(u, s[1..])
  }

  function LStrip(u: Unicode, s: string): string {
    if s != "" && u.space(s[0]) then LStrip(u, s[1..]) else s
  }

  function RStrip(u: Unicode, s: string): string {
    if s != "" && u.space(s[|s| - 1]) then RStrip(u, s[..|s| - 1]) else s
  }

  /** str.strip() */
  function Strip(u: Unicode, s: string): string {
    RStrip(u, LStrip(u, s))
  }

  /** str.rstrip(c) for a single character */
  function RStripChar(s: string, c: char): string {
    if s != "" && s[|s| - 1] == c then RStripChar(s[..|s| - 1], c) else s
  }

  /** `p` stands in `s` at position `i`. */
  predicate At(s: string, i: nat, p: string) {
    i + |p| <= |s| && s[i..i + |p|] == p
  }

  predicate StartsWith(s: string, p: string) {
    At(s, 0, p)
  }

  /** `p in s` */
  predicate Contains(s: string, p: string) {
    exists i | 0 <= i <= |s| :: At(s, i, p)
  }

  predicate ContainsAny(s: string, ps: seq<string>) {
    exists p | p in ps :: Contains(s, p)
  }

  /** The regex assertion \b at position `i`. */
  predicate Boundary(u: Unicode, s: string, i: nat)
    requires i <= |s|
  {
    (i > 0 && u.word(s[i - 1])) != (i < |s| && u.word(s[i]))
  }

  /** re.search(r"\bw\b", s) */
  predicate ContainsWord(u: Unicode, s: string, w: string) {
    exists i | 0 <= i <= |s| :: At(s, i, w) && Boundary(u, s, i) && Boundary(u, s, i + |w|)
  }

  /** Python's s[a:b] for non-negative bounds: out-of-range bounds are clamped. */
  function Slice(s: string, a: nat, b: nat): string {
    var hi := if b <= |s| then b else |s|;
    if a <= hi then s[a..hi] else ""
  }

  /** Number of decimal digits standing consecutively from position `i`. */
  function DigitRun(u: Unicode, s: string, i: nat): (n: nat)
    requires i <= |s|
    ensures i + n <= |s|
    ensures forall k | i <= k < i + n :: u.digit(s[k]) >= 0
    ensures i + n < |s| ==> u.digit(s[i + n]) < 0
    decreases |s| - i
  {
    if i < |s| && u.digit(s[i]) >= 0 then 1 + DigitRun(u, s, i + 1) else 0
  }

  /** s.replace(old, new) for a non-empty pattern, from position `i` on. */
  function ReplaceFrom(s: string, old_: string, new_: string, i: nat): string
    requires old_ != "" && i <= |s|
    decreases |s| - i
  {
    if i == |s| then ""
    else if At(s, i, old_) then new_ + ReplaceFrom(s, old_, new_, i + |old_|)
    else [s[i]] + ReplaceFrom(s, old_, new_, i + 1)
  }

  /** str.join */
  function Join(sep: string, parts: seq<string>): string {
    if |parts| == 0 then ""
    else if |parts| == 1 then parts[0]
    else parts[0] + sep + Join(sep, parts[1..])
  }

  /** A string over characters that fold to themselves is its own case folding. */
  lemma {:induction false} FoldIdentity(u: Unicode, s: string)
    requires forall k | 0 <= k < |s| :: u.fold(s[k]) == [s[k]]
    ensures Fold(u, s) == s
  {
    if s != "" {
      FoldIdentity(u, s[1..]);
      assert s == [s[0]] + s[1..];
    }
  }

  lemma {:induction false} FoldAppend(u: Unicode, s: string, t: string)
    ensures Fold(u, s + t) == Fold(u, s) + Fold(u, t)
  {
    if s == "" {
      assert s + t == t;
    } else {
      FoldAppend(u, s[1..], t);
      var st := s + t;
      assert st[0] == s[0] && st[1..] == s[1..] + t;
    }
  }

  /** White space inside or after the rest cannot reach into `p`. */
  lemma {:induction false} RStripKeeps(u: Unicode, p: string, rest: string) returns (n: nat)
    requires p != "" && !u.space(p[|p| - 1])
    ensures n <= |rest| && RStrip(u, p + rest) == p + rest[..n]
    decreases |rest|
  {
    var s := p + rest;
    n := |rest|;
    assert rest[..n] == rest;
    if rest != "" && u.space(s[|s| - 1]) {
      assert s[..|s| - 1] == p + rest[..|rest| - 1];
      n := RStripKeeps(u, p, rest[..|rest| - 1]);
      assert rest[..|rest| - 1][..n] == rest[..n];
    }
  }

  /** A word with a letter that the text lacks does not occur in the text. */
  lemma AbsentLetter(s: string, p: string, c: char)
    requires c in p && c !in s
    ensures !Contains(s, p)
  {
    forall i | 0 <= i <= |s|
      ensures !At(s, i, p)
    {
      if i + |p| <= |s| {
        var k :| 0 <= k < |p| && p[k] == c;
        assert s[i..i + |p|][k] == s[i + k];
      }
    }
  }

  lemma AbsentWord(u: Unicode, s: string, p: string, c: char)
    requires c in p && c !in s
    ensures !ContainsWord(u, s, p)
  {
    AbsentLetter(s, p, c);
  }
}
