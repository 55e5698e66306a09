/** What the components share of the C library: character classes, C strings, and `memcpy`. */
module Texts {

  /** `isalpha` in the C locale. */
  predicate IsAlpha(c: char) {
    'a' <= c <= 'z' || 'A' <= c <= 'Z'
  }

  /** `isalnum` in the C locale. */
  predicate IsAlnum(c: char) {
    IsAlpha(c) || '0' <= c <= '9'
  }

  /** `tolower` in the C locale. */
  function ToLower(c: char): char {
    if 'A' <= c <= 'Z' then c - 'A' + 'a' else c
  }

  const UPPER := "ABCDEFGHIJKLMNOPQRSTUVWXYZ"
  const LOWER := "abcdefghijklmnopqrstuvwxyz"
  const FIGURES := "0123456789"

  /** The classes and the case of every character, by the alphabet written out. */
  lemma Alphabet(c: char)
    ensures IsAlpha(c) <==> c in UPPER || c in LOWER
    ensures IsAlnum(c) <==> c in UPPER || c in LOWER || c in FIGURES
    ensures c !in UPPER ==> ToLower(c) == c
  {
    hide *;
    AlphaIn(c);
    AlnumIn(c);
    LowerOther(c);
  }

  lemma AlphaIn(c: char)
    ensures IsAlpha(c) <==> c in UPPER || c in LOWER
  {
    UpperIn(c);
    LowerIn(c);
    hide UPPER, LOWER;
  }

  lemma AlnumIn(c: char)
    ensures IsAlnum(c) <==> c in UPPER || c in LOWER || c in FIGURES
  {
    AlphaIn(c);
    FigureIn(c);
    hide UPPER, LOWER, FIGURES, IsAlpha;
  }

  lemma UpperIn(c: char)
    ensures c in UPPER <==> 'A' <= c <= 'Z'
  {
    UpperAt();
    hide UPPER;
    if 'A' <= c <= 'Z' {
      assert UPPER[c as int - 'A' as int] == c;
    }
  }

  lemma LowerIn(c: char)
    ensures c in LOWER <==> 'a' <= c <= 'z'
  {
    LowerAt();
    hide LOWER;
    if 'a' <= c <= 'z' {
      assert LOWER[c as int - 'a' as int] == c;
    }
  }

  lemma FigureIn(c: char)
    ensures c in FIGURES <==> '0' <= c <= '9'
  {
    assert forall k | 0 <= k < 10 :: FIGURES[k] as int == '0' as int + k;
    hide FIGURES;
    if '0' <= c <= '9' {
      assert FIGURES[c as int - '0' as int] == c;
    }
  }

  lemma UpperAt()
    ensures |UPPER| == 26 && forall k | 0 <= k < 26 :: UPPER[k] as int == 'A' as int + k
  {
  }

  lemma LowerAt()
    ensures |LOWER| == 26 && forall k | 0 <= k < 26 :: LOWER[k] as int == 'a' as int + k
  {
  }

  lemma LowerOther(c: char)
    ensures c !in UPPER ==> ToLower(c) == c
  {
    UpperIn(c);
    hide UPPER;
  }

  /** Every letter's lower case is the letter at the same place of the other alphabet, or itself. */
  lemma LowerCase(k: nat)
    requires k < 26
    ensures |UPPER| == |LOWER| == 26
    ensures ToLower(UPPER[k]) == LOWER[k] && ToLower(LOWER[k]) == LOWER[k]
  {
    UpperAt();
    LowerAt();
    hide UPPER, LOWER;
  }

  /** The same character, or the two cases of one letter. */
  predicate SameLetter(c: char, d: char) {
    c == d || exists k | 0 <= k < |UPPER| && k < |LOWER| ::
      (c == UPPER[k] && d == LOWER[k]) || (c == LOWER[k] && d == UPPER[k])
  }

  /** The same text up to the case of letters. */
  predicate SameText(s: string, t: string) {
    |s| == |t| && forall i | 0 <= i < |s| :: SameLetter(s[i], t[i])
  }

  lemma LowerSame(c: char, d: char)
    ensures ToLower(c) == ToLower(d) <==> SameLetter(c, d)
  {
    UpperAt();
    LowerAt();
    hide UPPER, LOWER;
    if ToLower(c) == ToLower(d) && c != d {
      var k := ToLower(c) as int - 'a' as int;
      assert (c == UPPER[k] && d == LOWER[k]) || (c == LOWER[k] && d == UPPER[k]);
    }
  }

  /** A C string ends at its first NUL. */
  function Terminated(s: string): string {
    if s == "" || s[0] == '\0' then "" else [s[0]] + Terminated(s[1..])
  }

  lemma {:induction false} TerminatedNoNul(s: string)
    ensures |Terminated(s)| <= |s| && forall i | 0 <= i < |Terminated(s)| :: Terminated(s)[i] != '\0'
  {
    if s != "" {
      TerminatedNoNul(s[1..]);
    }
  }

  lemma {:induction false} TerminatedIs(s: string, n: nat)
    requires n <= |s| && (n < |s| ==> s[n] == '\0') && forall i | 0 <= i < n :: s[i] != '\0'
    ensures Terminated(s) == s[..n]
  {
    if n > 0 {
      TerminatedIs(s[1..], n - 1);
    }
  }

  /** How often a text occurs. */
  function Times(texts: seq<string>, text: string): nat {
    if texts == [] then 0
    else Times(texts[..|texts| - 1], text) + if texts[|texts| - 1] == text then 1 else 0
  }

  lemma TimesAppend(texts: seq<string>, text: string, other: string)
    ensures Times(texts + [text], other) == Times(texts, other) + if other == text then 1 else 0
  {
    assert (texts + [text])[..|texts|] == texts;
  }

  lemma {:induction false} TimesIs(texts: seq<string>, text: string)
    ensures Times(texts, text) == multiset(texts)[text]
  {
    if texts != [] {
      TimesIs(texts[..|texts| - 1], text);
      assert texts == texts[..|texts| - 1] + [texts[|texts| - 1]];
    }
  }

  /** `memcpy` between two buffers. */
  method Copy<T>(source: array<T>, start: nat, target: array<T>, at: nat, len: nat)
    requires start + len <= source.Length && at + len <= target.Length && source != target
    modifies target
    ensures forall k | 0 <= k < target.Length ::
              target[k] == if at <= k < at + len then source[start + k - at] else old(target[k])
    ensures target[at..at + len] == source[start..start + len]
  {
    forall k | 0 <= k < len {
      target[at + k] := source[start + k];
    }
    ghost var moved, wanted := target[at..at + len], source[start..start + len];
    forall k | 0 <= k < len ensures moved[k] == wanted[k] {
      assert target[at + k] == source[start + k];
    }
  }
}
