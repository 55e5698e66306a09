/** The line sorter of 6-1-26/5-16.c: its comparators as orders on strings, and its sort. A string's characters
    are those before its terminator. */
module LineSort {
  import opened Bubble
  import opened Texts

  // ---------- lexicographic order ----------

  function Sign(n: int): int {
    if n < 0 then -1 else if n > 0 then 1 else 0
  }

  /** The sign of the comparison of two strings by their characters' values. */
  function Lex(a: string, b: string): int {
    if a == "" && b == "" then 0
    else if a == "" then -1
    else if b == "" then 1
    else if a[0] != b[0] then Sign(a[0] as int - b[0] as int)
    else Lex(a[1..], b[1..])
  }

  lemma {:induction false} LexOpposite(a: string, b: string)
    ensures Lex(a, b) == -Lex(b, a)
    ensures Lex(a, b) == 0 <==> a == b
  {
    if a != "" && b != "" && a[0] == b[0] {
      LexOpposite(a[1..], b[1..]);
      assert a == [a[0]] + a[1..] && b == [b[0]] + b[1..];
    }
  }

  lemma {:induction false} LexTransitive(a: string, b: string, c: string)
    requires Lex(a, b) <= 0 && Lex(b, c) <= 0
    ensures Lex(a, c) <= 0
  {
    if a != "" && b != "" && c != "" && a[0] == b[0] == c[0] {
      LexTransitive(a[1..], b[1..], c[1..]);
    }
  }

  lemma DifferenceNext(c: char, a: string, b: string, k: nat)
    ensures FirstDifference([c] + a, [c] + b, k) <==> k > 0 && FirstDifference(a, b, k - 1)
  {
    var x, y := [c] + a, [c] + b;
    assert x[1..] == a && y[1..] == b;
    if 0 < k <= |x| && k <= |y| {
      assert x[..k] == [c] + a[..k - 1] && y[..k] == [c] + b[..k - 1];
      assert x[..k][1..] == a[..k - 1] && y[..k][1..] == b[..k - 1];
    }
  }

  /** The first place where the strings differ decides, by the characters' values, or one string ends there. */
  lemma {:induction false} LexExactly(a: string, b: string)
    ensures Lex(a, b) < 0 <==> exists k: nat :: FirstDifference(a, b, k) && (k == |a| || (k < |b| && a[k] < b[k]))
    ensures Lex(a, b) in {-1, 0, 1}
  {
    if a != "" && b != "" && a[0] == b[0] {
      LexExactly(a[1..], b[1..]);
      assert a == [a[0]] + a[1..] && b == [b[0]] + b[1..];
      hide FirstDifference;
      if k: nat :| FirstDifference(a[1..], b[1..], k) && (k == |a[1..]| || (k < |b[1..]| && a[1..][k] < b[1..][k])) {
        DifferenceNext(a[0], a[1..], b[1..], k + 1);
      }
      if k: nat :| FirstDifference(a, b, k) && (k == |a| || (k < |b| && a[k] < b[k])) {
        DifferenceNext(a[0], a[1..], b[1..], k);
      }
    } else if a != b {
      assert a[..0] == b[..0];
      assert FirstDifference(a, b, 0);
    }
  }

  /** The strings agree up to `k`, where not both of them go on alike. */
  ghost predicate FirstDifference(a: string, b: string, k: nat) {
    && k <= |a| && k <= |b| && a[..k] == b[..k] && a != b
    && (k == |a| || k == |b| || a[k] != b[k])
  }

  // ---------- what the comparators look at ----------

  predicate Kept(c: char) {
    IsAlnum(c) || c == ' '
  }

  function Keep(s: string): string {
    if s == "" then "" else (if Kept(s[0]) then [s[0]] else []) + Keep(s[1..])
  }

  function Fold(s: string): string {
    if s == "" then "" else [ToLower(s[0])] + Fold(s[1..])
  }

  /** Letters, figures and spaces are kept, in order, and nothing else. */
  lemma KeepLaws(a: string, b: string, c: char)
    ensures Keep(a + b) == Keep(a) + Keep(b) && Keep("") == ""
    ensures Keep([c]) == if c in UPPER || c in LOWER || c in FIGURES || c == ' ' then [c] else ""
  {
    KeepConcat(a, b);
    Alphabet(c);
    assert [c][1..] == "";
    hide UPPER, LOWER, FIGURES;
  }

  lemma {:induction false} KeepConcat(a: string, b: string)
    ensures Keep(a + b) == Keep(a) + Keep(b)
  {
    if a == "" {
      assert a + b == b && "" + Keep(b) == Keep(b);
    } else {
      hide Kept;
      var c, s := if Kept(a[0]) then [a[0]] else [], a[1..];
      assert (a + b)[1..] == s + b && (a + b)[0] == a[0];
      KeepConcat(s, b);
      assert Keep(a + b) == c + Keep(s + b) && Keep(a) == c + Keep(s);
      hide Keep;
      assert c + (Keep(s) + Keep(b)) == (c + Keep(s)) + Keep(b);
    }
  }

  lemma {:induction false} FoldIs(s: string)
    ensures |Fold(s)| == |s| && forall i | 0 <= i < |s| :: Fold(s)[i] == ToLower(s[i])
  {
    if s != "" {
      FoldIs(s[1..]);
    }
  }

  /** Folded alike: the same up to the case of letters. */
  lemma FoldSame(a: string, b: string)
    ensures Fold(a) == Fold(b) <==> SameText(a, b)
  {
    FoldIs(a);
    FoldIs(b);
    forall i | 0 <= i < |a| && i < |b|
      ensures ToLower(a[i]) == ToLower(b[i]) <==> SameLetter(a[i], b[i])
    {
      LowerSame(a[i], b[i]);
    }
    hide ToLower, SameLetter, Fold;
    if SameText(a, b) {
      assert forall i | 0 <= i < |a| :: Fold(a)[i] == Fold(b)[i];
    } else if |a| == |b| {
      var i :| 0 <= i < |a| && !SameLetter(a[i], b[i]);
      assert Fold(a)[i] != Fold(b)[i];
    }
  }

  /** A comparison answers 0 exactly for strings that are the same to it. */
  lemma SignZero(r: int, a: string, b: string)
    requires Sign(r) == Lex(a, b)
    ensures r == 0 <==> a == b
  {
    LexOpposite(a, b);
  }

  // ---------- the comparators ----------

  /** The value of `*p`: the terminator is 0. */
  function At(s: string, i: nat): int
    requires i <= |s|
  {
    if i < |s| then s[i] as int else 0
  }

  function LowerAt(s: string, i: nat): int
    requires i <= |s|
  {
    if i < |s| then ToLower(s[i]) as int else 0
  }

  /** C strings hold no NUL. */
  ghost predicate NoNul(s: string) {
    '\0' !in s
  }

  /** The loop that skips what is neither alphanumeric nor a space. */
  method Skip(s: string, i: nat) returns (j: nat)
    requires i <= |s|
    ensures i <= j <= |s| && (j < |s| ==> Kept(s[j]))
    ensures Keep(s[i..]) == Keep(s[j..])
  {
    hide IsAlnum;
    j := i;
    while j < |s| && !IsAlnum(s[j]) && s[j] != ' '
      invariant i <= j <= |s| && Keep(s[i..]) == Keep(s[j..])
    {
      assert s[j..][1..] == s[j + 1..];
      j := j + 1;
    }
  }

  lemma KeepStep(s: string, i: nat)
    requires i < |s| && Kept(s[i])
    ensures Keep(s[i..]) == [s[i]] + Keep(s[i + 1..])
  {
    assert s[i..][1..] == s[i + 1..];
  }

  lemma LexStep(c: char, a: string, d: char, b: string)
    ensures Lex([c] + a, [d] + b) == if c != d then Sign(c as int - d as int) else Lex(a, b)
    ensures Lex([c] + a, "") == 1 && Lex("", [d] + b) == -1
  {
    assert ([c] + a)[1..] == a && ([d] + b)[1..] == b;
  }

  function DirOrder(a: string, b: string): int {
    Lex(Keep(a), Keep(b))
  }

  function DirCaseOrder(a: string, b: string): int {
    Lex(Fold(Keep(a)), Fold(Keep(b)))
  }

  function CaseOrder(a: string, b: string): int {
    Lex(Fold(a), Fold(b))
  }

  /** `dir_cmp` compares what is left of the strings when only letters, digits and spaces are kept. */
  method DirCmp(s1: string, s2: string) returns (r: int)
    requires NoNul(s1) && NoNul(s2)
    ensures Sign(r) == DirOrder(s1, s2) == Lex(Keep(s1), Keep(s2))
    ensures r == 0 <==> Keep(s1) == Keep(s2)
  {
    hide Keep, Lex, Kept, IsAlnum;
    var i, j := 0, 0;
    assert s1[0..] == s1 && s2[0..] == s2;
    while i < |s1| || j < |s2|
      invariant i <= |s1| && j <= |s2|
      invariant Lex(Keep(s1[i..]), Keep(s2[j..])) == Lex(Keep(s1), Keep(s2))
      decreases |s1| - i + |s2| - j
    {
      i := Skip(s1, i);
      j := Skip(s2, j);
      if i == |s1| || j == |s2| {
        break;
      }
      KeepStep(s1, i);
      KeepStep(s2, j);
      LexStep(s1[i], Keep(s1[i + 1..]), s2[j], Keep(s2[j + 1..]));
      if s1[i] != s2[j] {
        r := s1[i] as int - s2[j] as int;
        SignZero(r, Keep(s1), Keep(s2));
        return;
      }
      i := i + 1;
      j := j + 1;
    }
    AtEnd(s1, i, s2, j);
    r := At(s1, i) - At(s2, j);
    SignZero(r, Keep(s1), Keep(s2));
  }

  /** One string is used up, and the other one is or has a character to keep. */
  lemma AtEnd(s1: string, i: nat, s2: string, j: nat)
    requires NoNul(s1) && NoNul(s2) && i <= |s1| && j <= |s2| && (i == |s1| || j == |s2|)
    requires (i < |s1| ==> Kept(s1[i])) && (j < |s2| ==> Kept(s2[j]))
    ensures Lex(Keep(s1[i..]), Keep(s2[j..])) == Sign(At(s1, i) - At(s2, j))
    ensures Lex(Fold(Keep(s1[i..])), Fold(Keep(s2[j..]))) == Sign(LowerAt(s1, i) - LowerAt(s2, j))
  {
    if i < |s1| {
      KeepStep(s1, i);
      assert s1[i] in s1;
    }
    if j < |s2| {
      KeepStep(s2, j);
      assert s2[j] in s2;
    }
  }

  lemma FoldStep(c: char, s: string)
    ensures Fold([c] + s) == [ToLower(c)] + Fold(s)
  {
    assert ([c] + s)[1..] == s;
  }

  /** `dir_case_cmp` compares the same in lower case. */
  method DirCaseCmp(s1: string, s2: string) returns (r: int)
    requires NoNul(s1) && NoNul(s2)
    ensures Sign(r) == DirCaseOrder(s1, s2) == Lex(Fold(Keep(s1)), Fold(Keep(s2)))
    ensures r == 0 <==> SameText(Keep(s1), Keep(s2))
  {
    hide Keep, Lex, Kept, IsAlnum, Fold, ToLower, SameText;
    FoldSame(Keep(s1), Keep(s2));
    var i, j := 0, 0;
    assert s1[0..] == s1 && s2[0..] == s2;
    while i < |s1| || j < |s2|
      invariant i <= |s1| && j <= |s2|
      invariant Lex(Fold(Keep(s1[i..])), Fold(Keep(s2[j..]))) == Lex(Fold(Keep(s1)), Fold(Keep(s2)))
      decreases |s1| - i + |s2| - j
    {
      i := Skip(s1, i);
      j := Skip(s2, j);
      if i == |s1| || j == |s2| {
        break;
      }
      KeepStep(s1, i);
      KeepStep(s2, j);
      FoldStep(s1[i], Keep(s1[i + 1..]));
      FoldStep(s2[j], Keep(s2[j + 1..]));
      LexStep(ToLower(s1[i]), Fold(Keep(s1[i + 1..])), ToLower(s2[j]), Fold(Keep(s2[j + 1..])));
      var c1, c2 := ToLower(s1[i]) as int, ToLower(s2[j]) as int;
      if c1 != c2 {
        r := c1 - c2;
        SignZero(r, Fold(Keep(s1)), Fold(Keep(s2)));
        return;
      }
      i := i + 1;
      j := j + 1;
    }
    AtEnd(s1, i, s2, j);
    r := LowerAt(s1, i) - LowerAt(s2, j);
    SignZero(r, Fold(Keep(s1)), Fold(Keep(s2)));
  }

  /** `str_case_cmp` compares the whole strings in lower case. */
  method StrCaseCmp(s1: string, s2: string) returns (r: int)
    requires NoNul(s1) && NoNul(s2)
    ensures Sign(r) == CaseOrder(s1, s2) == Lex(Fold(s1), Fold(s2))
    ensures r == 0 <==> SameText(s1, s2)
  {
    hide Lex, Fold, ToLower, SameText;
    FoldSame(s1, s2);
    var i := 0;
    assert s1[0..] == s1 && s2[0..] == s2;
    while i < |s1| && i < |s2|
      invariant i <= |s1| && i <= |s2|
      invariant Lex(Fold(s1[i..]), Fold(s2[i..])) == Lex(Fold(s1), Fold(s2))
    {
      assert s1[i..] == [s1[i]] + s1[i + 1..] && s2[i..] == [s2[i]] + s2[i + 1..];
      FoldStep(s1[i], s1[i + 1..]);
      FoldStep(s2[i], s2[i + 1..]);
      LexStep(ToLower(s1[i]), Fold(s1[i + 1..]), ToLower(s2[i]), Fold(s2[i + 1..]));
      var c1, c2 := ToLower(s1[i]) as int, ToLower(s2[i]) as int;
      if c1 != c2 {
        r := c1 - c2;
        SignZero(r, Fold(s1), Fold(s2));
        return;
      }
      i := i + 1;
    }
    FoldAtEnd(s1, s2, i);
    r := LowerAt(s1, i) - LowerAt(s2, i);
    SignZero(r, Fold(s1), Fold(s2));
  }

  lemma FoldAtEnd(s1: string, s2: string, i: nat)
    requires NoNul(s1) && NoNul(s2) && i <= |s1| && i <= |s2| && (i == |s1| || i == |s2|)
    ensures Lex(Fold(s1[i..]), Fold(s2[i..])) == Sign(LowerAt(s1, i) - LowerAt(s2, i))
  {
    if i < |s1| { assert s1[i] in s1; }
    if i < |s2| { assert s2[i] in s2; }
  }

  // ---------- the sort ----------

  /** A comparator whose sign is a total preorder. */
  ghost predicate Preorder(cmp: (string, string) -> int) {
    && (forall a, b :: Sign(cmp(a, b)) == -Sign(cmp(b, a)))
    && (forall a, b, c :: cmp(a, b) <= 0 && cmp(b, c) <= 0 ==> cmp(a, c) <= 0)
  }

  /** Texts that are the same up to the case of letters compare alike. */
  lemma CaseIgnored(a: string, b: string, c: string, d: string)
    requires SameText(a, c) && SameText(b, d)
    ensures CaseOrder(a, b) == CaseOrder(c, d)
  {
    FoldSame(a, c);
    FoldSame(b, d);
    hide Fold, SameText, Lex;
  }

  /** All the orders that the comparators decide are total preorders. */
  lemma OrdersOk()
    ensures Preorder(Lex) && Preorder(DirOrder) && Preorder(DirCaseOrder) && Preorder(CaseOrder)
  {
    hide Lex, Keep, Fold;
    forall a, b ensures Lex(a, b) == -Lex(b, a) { LexOpposite(a, b); }
    forall a, b, c | Lex(a, b) <= 0 && Lex(b, c) <= 0 ensures Lex(a, c) <= 0 { LexTransitive(a, b, c); }
  }

  /** `r > 0` in the inner loop: the neighbours are to be exchanged. */
  function Above(cmp: (string, string) -> int, reverse: bool): (string, string) -> bool {
    (a, b) => (if reverse then -cmp(a, b) else cmp(a, b)) > 0
  }

  lemma AboveWeak(cmp: (string, string) -> int, reverse: bool)
    requires Preorder(cmp)
    ensures Weak(Above(cmp, reverse))
  {
    var above := Above(cmp, reverse);
    forall a, b | above(a, b) ensures !above(b, a) {
      assert Sign(cmp(a, b)) == -Sign(cmp(b, a));
    }
    forall a, b, c | !above(a, b) && !above(b, c) ensures !above(a, c) {
      assert Sign(cmp(a, b)) == -Sign(cmp(b, a)) && Sign(cmp(b, c)) == -Sign(cmp(c, b));
      assert Sign(cmp(a, c)) == -Sign(cmp(c, a));
      if reverse { assert cmp(c, b) <= 0 && cmp(b, a) <= 0 ==> cmp(c, a) <= 0; }
    }
  }

  /** `sort`: the lines in order, reversed or not, and tied lines in the order they came in. */
  method Sort(v: array<string>, cmp: (string, string) -> int, reverse: bool) returns (ghost p: seq<nat>)
    requires Preorder(cmp)
    modifies v
    ensures Tracks(v[..], old(v[..]), p) && Stable(v[..], p, Above(cmp, reverse))
    ensures forall k, l | 0 <= k < l < v.Length :: if reverse then cmp(v[k], v[l]) >= 0 else cmp(v[k], v[l]) <= 0
  {
    var above := Above(cmp, reverse);
    AboveWeak(cmp, reverse);
    ghost var v0 := v[..];
    p := Identity(v.Length);
    assert Tracks(v[..], v0, p) && Stable(v[..], p, above) && TailDone(v[..], v.Length, above);
    hide Weak, Tracks, Stable, TailDone, Identity, Preorder;
    var i := 0;
    while i < v.Length - 1
      invariant 0 <= i && (v.Length > 0 ==> i <= v.Length - 1) && |p| == v.Length
      invariant Tracks(v[..], v0, p) && Stable(v[..], p, above) && TailDone(v[..], v.Length - i, above)
    {
      var swapped;
      swapped, p := Pass(v, v.Length - 1 - i, above, v0, p);
      if !swapped {
        InOrderBy(v[..], cmp, reverse);
        return;
      }
      i := i + 1;
    }
    TailAll(v[..], v.Length - i, above);
    InOrderBy(v[..], cmp, reverse);
  }

  lemma TailAll(v: seq<string>, m: int, above: (string, string) -> bool)
    requires TailDone(v, m, above) && m <= 1
    ensures Sorted(v, above)
  {
  }

  lemma InOrderBy(v: seq<string>, cmp: (string, string) -> int, reverse: bool)
    requires Sorted(v, Above(cmp, reverse))
    ensures forall k, l | 0 <= k < l < |v| :: if reverse then cmp(v[k], v[l]) >= 0 else cmp(v[k], v[l]) <= 0
  {
    var above := Above(cmp, reverse);
    forall k, l | 0 <= k < l < |v| ensures if reverse then cmp(v[k], v[l]) >= 0 else cmp(v[k], v[l]) <= 0 {
      assert !above(v[k], v[l]);
    }
  }
}
