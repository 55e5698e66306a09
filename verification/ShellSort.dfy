/** Shell sort (22-12-25/shellsort.c): gaps n/2, n/4, ..., 1, each pass an insertion sort of the
    interleaved subsequences.  The point is that a pass with one gap never undoes the order that a
    pass with another gap has established. */
module ShellSort {

  /** Elements `h` apart are in order. */
  ghost predicate GapSorted(s: seq<int>, h: nat) {
    forall i, j | 0 <= i && j == i + h && j < |s| :: s[i] <= s[j]
  }

  ghost predicate Sorted(s: seq<int>) {
    forall i, j | 0 <= i < j < |s| :: s[i] <= s[j]
  }

  /** The elements of `s` at positions c, c + k, c + 2k, ... */
  ghost function Column(s: seq<int>, c: nat, k: nat): (col: seq<int>)
    requires 0 < k
    decreases |s| - c
  {
    if c >= |s| then [] else [s[c]] + Column(s, c + k, k)
  }

  /** How many elements are at most `v`. */
  ghost function CountAtMost(s: seq<int>, v: int): (n: nat)
    ensures n <= |s|
  {
    if s == [] then 0 else (if s[0] <= v then 1 else 0) + CountAtMost(s[1..], v)
  }

  /** `t` is `s` rearranged within each of the `k` interleaved columns: in every column, as many
      elements are at most `v`, for every `v`. */
  ghost predicate PermutesColumns(s: seq<int>, t: seq<int>, k: nat)
    requires 0 < k
  {
    && |s| == |t|
    && forall c: nat, v | c < k :: CountAtMost(Column(s, c, k), v) == CountAtMost(Column(t, c, k), v)
  }

  /** `t` is `s` with the elements at `i` and `j` exchanged. */
  ghost predicate Exchanged(s: seq<int>, t: seq<int>, i: nat, j: nat) {
    i < |s| && j < |s| && t == s[i := s[j]][j := s[i]]
  }

  // ---------- columns ----------

  /** Row `m` of a column is at position `p`. */
  lemma {:induction false} ColumnIndex(s: seq<int>, c: nat, k: nat, m: nat, p: nat)
    requires 0 < k && p == c + m * k
    ensures m < |Column(s, c, k)| <==> p < |s|
    ensures p < |s| ==> Column(s, c, k)[m] == s[p]
    decreases m
  {
    if m > 0 {
      assert p == (c + k) + (m - 1) * k && p >= c + k;
      if c < |s| {
        ColumnIndex(s, c + k, k, m - 1, p);
      }
    }
  }

  lemma {:induction false} ColumnSorted(s: seq<int>, c: nat, k: nat)
    requires 0 < k && GapSorted(s, k)
    ensures Sorted(Column(s, c, k))
    decreases |s| - c
  {
    if c < |s| {
      ColumnSorted(s, c + k, k);
      if c + k < |s| {
        assert s[c] <= s[c + k];
        assert Column(s, c + k, k)[0] == s[c + k];
      }
    }
  }

  lemma {:induction false} ColumnFrame(s: seq<int>, t: seq<int>, c: nat, k: nat)
    requires 0 < k && |s| == |t|
    requires forall m | c <= m < |s| :: s[m] == t[m]
    ensures Column(s, c, k) == Column(t, c, k)
    decreases |s| - c
  {
    if c < |s| {
      ColumnFrame(s, t, c + k, k);
    }
  }

  /** Exchanging neighbours of one column permutes that column and leaves the others alone. */
  lemma {:induction false} ColumnSwap(s: seq<int>, t: seq<int>, i: nat, k: nat, c: nat, v: int)
    requires 0 < k && i + k < |s| && c != i + k && Exchanged(s, t, i, i + k)
    ensures CountAtMost(Column(s, c, k), v) == CountAtMost(Column(t, c, k), v)
    decreases |s| - c
  {
    if c < |s| {
      CountColumn(s, c, k, v);
      CountColumn(t, c, k, v);
      if c == i {
        CountColumn(s, i + k, k, v);
        CountColumn(t, i + k, k, v);
        ColumnFrame(s, t, i + k + k, k);
      } else {
        ColumnSwap(s, t, i, k, c + k, v);
      }
    }
  }

  lemma CountColumn(s: seq<int>, c: nat, k: nat, v: int)
    requires 0 < k && c < |s|
    ensures CountAtMost(Column(s, c, k), v) == (if s[c] <= v then 1 else 0) + CountAtMost(Column(s, c + k, k), v)
  {
    assert Column(s, c, k)[1..] == Column(s, c + k, k);
  }

  lemma SwapPermutesColumns(r: seq<int>, s: seq<int>, t: seq<int>, i: nat, k: nat)
    requires 0 < k && i + k < |s| && PermutesColumns(r, s, k) && Exchanged(s, t, i, i + k)
    ensures PermutesColumns(r, t, k) && multiset(t) == multiset(s)
  {
    forall c: nat, v | c < k
      ensures CountAtMost(Column(r, c, k), v) == CountAtMost(Column(t, c, k), v)
    {
      ColumnSwap(s, t, i, k, c, v);
    }
  }

  // ---------- counting ----------

  /** In a sorted sequence the count tells the rank. */
  lemma {:induction false} CountSorted(s: seq<int>, m: nat, v: int)
    requires Sorted(s) && m < |s|
    ensures s[m] <= v <==> m < CountAtMost(s, v)
  {
    if m > 0 {
      CountSorted(s[1..], m - 1, v);
      assert s[0] <= s[m];
    } else if s[0] > v {
      CountNone(s, v);
    }
  }

  lemma {:induction false} CountNone(s: seq<int>, v: int)
    requires forall m | 0 <= m < |s| :: s[m] > v
    ensures CountAtMost(s, v) == 0
  {
    if s != [] {
      CountNone(s[1..], v);
    }
  }

  /** Dropping `q` elements loses at most `q` of the count. */
  lemma {:induction false} CountDrop(s: seq<int>, q: nat, v: int)
    requires q <= |s|
    ensures CountAtMost(s, v) <= q + CountAtMost(s[q..], v)
  {
    if q > 0 {
      CountDrop(s[1..], q - 1, v);
      assert s[1..][q - 1..] == s[q..];
    }
  }

  /** Pointwise smaller elements, at least as many of them: the count is no smaller. */
  lemma {:induction false} CountDominated(x: seq<int>, y: seq<int>, v: int)
    requires |y| <= |x|
    requires forall m | 0 <= m < |y| :: x[m] <= y[m]
    ensures CountAtMost(y, v) <= CountAtMost(x, v)
  {
    if y != [] {
      CountDominated(x[1..], y[1..], v);
    }
  }

  /** Knuth's lemma: if each x[m] is at most y[m + q], the same holds after sorting x and y. */
  lemma SortingKeepsDomination(x: seq<int>, y: seq<int>, x': seq<int>, y': seq<int>, q: nat, m: nat)
    requires |x| == |x'| && forall v :: CountAtMost(x, v) == CountAtMost(x', v)
    requires |y| == |y'| && forall v :: CountAtMost(y, v) == CountAtMost(y', v)
    requires Sorted(x') && Sorted(y')
    requires |y| <= |x| + q
    requires forall m | 0 <= m && m + q < |y| :: x[m] <= y[m + q]
    requires m < |x'| && m + q < |y'|
    ensures x'[m] <= y'[m + q]
  {
    hide CountAtMost, Sorted;
    var v := y'[m + q];
    CountSorted(y', m + q, v);
    CountDrop(y, q, v);
    CountDominated(x, y[q..], v);
    CountSorted(x', m, v);
  }

  /** The heart of Shell sort: sorting the columns of one gap keeps the order of any other gap. */
  lemma GapPassKeepsOrder(s: seq<int>, t: seq<int>, h: nat, k: nat)
    requires 0 < k
    requires GapSorted(s, h) && PermutesColumns(s, t, k) && GapSorted(t, k)
    ensures GapSorted(t, h)
  {
    forall i, j | 0 <= i && j == i + h && j < |t|
      ensures t[i] <= t[j]
    {
      var c, m, d, q := Split(i, h, k);
      KeepsOrderAt(s, t, h, k, c, d, m, q);
    }
  }

  /** Positions i and i + h as column and row of the `k` columns. */
  lemma Split(i: nat, h: nat, k: nat) returns (c: nat, m: nat, d: nat, q: nat)
    requires 0 < k
    ensures c < k && d < k && i == c + m * k && c + h == d + q * k
  {
    c, m := i % k, i / k;
    d, q := (c + h) % k, (c + h) / k;
  }

  lemma KeepsOrderAt(s: seq<int>, t: seq<int>, h: nat, k: nat, c: nat, d: nat, m: nat, q: nat)
    requires 0 < k && c < k && d < k && c + h == d + q * k
    requires GapSorted(s, h) && PermutesColumns(s, t, k) && GapSorted(t, k)
    requires c + m * k + h < |t|
    ensures t[c + m * k] <= t[c + m * k + h]
  {
    var x, y := Column(s, c, k), Column(s, d, k);
    var x', y' := Column(t, c, k), Column(t, d, k);
    ColumnsDominate(s, h, k, c, d, q);
    ColumnSorted(t, c, k);
    ColumnSorted(t, d, k);
    ColumnLength(s, t, c, k);
    ColumnLength(s, t, d, k);
    RowAt(t, h, k, c, d, m, q);
    hide *;
    SortingKeepsDomination(x, y, x', y', q, m);
  }

  lemma {:induction false} ColumnLength(s: seq<int>, t: seq<int>, c: nat, k: nat)
    requires 0 < k && |s| == |t|
    ensures |Column(s, c, k)| == |Column(t, c, k)|
    decreases |s| - c
  {
    if c < |s| {
      ColumnLength(s, t, c + k, k);
    }
  }

  lemma RowAt(t: seq<int>, h: nat, k: nat, c: nat, d: nat, m: nat, q: nat)
    requires 0 < k && c + h == d + q * k && c + m * k + h < |t|
    ensures m < |Column(t, c, k)| && Column(t, c, k)[m] == t[c + m * k]
    ensures m + q < |Column(t, d, k)| && Column(t, d, k)[m + q] == t[c + m * k + h]
  {
    Shift(c, d, h, k, m, q);
    ColumnIndex(t, d, k, m + q, c + m * k + h);
    ColumnIndex(t, c, k, m, c + m * k);
  }

  /** In a sequence sorted for gap `h`, each column is below the one it is shifted to. */
  lemma ColumnsDominate(s: seq<int>, h: nat, k: nat, c: nat, d: nat, q: nat)
    requires 0 < k && c + h == d + q * k && GapSorted(s, h)
    ensures |Column(s, d, k)| <= |Column(s, c, k)| + q
    ensures forall e | 0 <= e && e + q < |Column(s, d, k)| :: Column(s, c, k)[e] <= Column(s, d, k)[e + q]
  {
    hide GapSorted, Column;
    forall e: nat | e + q < |Column(s, d, k)|
      ensures e < |Column(s, c, k)| && Column(s, c, k)[e] <= Column(s, d, k)[e + q]
    {
      RowBelow(s, h, k, c, d, e, q);
    }
    var n := |Column(s, c, k)|;
    if n + q < |Column(s, d, k)| {
      RowBelow(s, h, k, c, d, n, q);
    }
  }

  lemma RowBelow(s: seq<int>, h: nat, k: nat, c: nat, d: nat, e: nat, q: nat)
    requires 0 < k && c + h == d + q * k
    requires GapSorted(s, h) && e + q < |Column(s, d, k)|
    ensures e < |Column(s, c, k)| && Column(s, c, k)[e] <= Column(s, d, k)[e + q]
  {
    var p := c + e * k;
    Shift(c, d, h, k, e, q);
    ColumnIndex(s, d, k, e + q, p + h);
    ColumnIndex(s, c, k, e, p);
  }

  lemma Shift(c: nat, d: nat, h: nat, k: nat, e: nat, q: nat)
    requires c + h == d + q * k
    ensures d + (e + q) * k == c + e * k + h
  {
    assert (e + q) * k == e * k + q * k;
  }

  // ---------- the sort ----------

  method Swap(a: array<int>, i: nat, j: nat)
    requires i < a.Length && j < a.Length
    modifies a
    ensures Exchanged(old(a[..]), a[..], j, i)
  {
    var temp := a[i];
    a[i] := a[j];
    a[j] := temp;
  }

  /** Every gap in `gaps` is a gap the array is sorted for. */
  ghost predicate SortedForAll(s: seq<int>, gaps: seq<nat>) {
    forall g | g in gaps :: GapSorted(s, g)
  }

  /** The first j + 1 elements of `s` are gap-sorted but for the pair (i, i + gap); `was` is what the
      loop began with. */
  ghost predicate Sifting(was: seq<int>, s: seq<int>, gap: nat, i: int, j: nat)
    requires 0 < gap
  {
    && i <= j - gap && j < |s|
    && PermutesColumns(was, s, gap) && multiset(s) == multiset(was)
    && (forall p, r | 0 <= p && r == p + gap && r <= j && p != i :: s[p] <= s[r])
    && (i >= 0 && i + gap + gap <= j ==> s[i] <= s[i + gap + gap])
  }

  lemma SiftStarts(s: seq<int>, gap: nat, j: nat)
    requires 0 < gap <= j < |s| && GapSorted(s[..j], gap)
    ensures Sifting(s, s, gap, j - gap, j)
  {
    forall p, r | 0 <= p && r == p + gap && r <= j && p != j - gap
      ensures s[p] <= s[r]
    {
      assert s[..j][p] <= s[..j][r];
    }
  }

  lemma SiftStep(was: seq<int>, s: seq<int>, t: seq<int>, gap: nat, i: nat, j: nat)
    requires 0 < gap && Sifting(was, s, gap, i, j) && s[i] > s[i + gap] && Exchanged(s, t, i, i + gap)
    ensures Sifting(was, t, gap, i - gap, j)
  {
    SwapPermutesColumns(was, s, t, i, gap);
    if i >= gap {
      assert s[i - gap] <= s[i];
    }
  }

  lemma Sifted(was: seq<int>, s: seq<int>, gap: nat, i: int, j: nat)
    requires 0 < gap && Sifting(was, s, gap, i, j) && (i < 0 || s[i] <= s[i + gap])
    ensures GapSorted(s[..j + 1], gap) && PermutesColumns(was, s, gap) && multiset(s) == multiset(was)
  {
  }

  /** One round of the innermost loop. */
  method SiftOnce(a: array<int>, gap: nat, i: nat, j: nat, ghost was: seq<int>) returns (next: int)
    requires 0 < gap && Sifting(was, a[..], gap, i, j) && a[i] > a[i + gap]
    modifies a
    ensures next == i - gap && Sifting(was, a[..], gap, next, j)
  {
    ghost var before := a[..];
    Swap(a, i + gap, i);
    SiftStep(was, before, a[..], gap, i, j);
    return i - gap;
  }

  /** The innermost loop: a[j] sinks to its place in its column. */
  method SiftDown(a: array<int>, gap: nat, j: nat)
    requires 0 < gap <= j < a.Length && GapSorted(a[..][..j], gap)
    modifies a
    ensures GapSorted(a[..][..j + 1], gap)
    ensures PermutesColumns(old(a[..]), a[..], gap) && multiset(a[..]) == multiset(old(a[..]))
  {
    ghost var was := a[..];
    SiftStarts(was, gap, j);
    hide Sifting, PermutesColumns, GapSorted, Exchanged;
    var i: int := j - gap;
    while i >= 0 && a[i] > a[i + gap]
      invariant -(gap as int) <= i <= j - gap
      invariant Sifting(was, a[..], gap, i, j)
      decreases i + gap
    {
      i := SiftOnce(a, gap, i, j, was);
    }
    Sifted(was, a[..], gap, i, j);
  }

  /** One pass of the outer loop. */
  method GapPass(a: array<int>, gap: nat)
    requires 0 < gap
    modifies a
    ensures GapSorted(a[..], gap)
    ensures PermutesColumns(old(a[..]), a[..], gap)
    ensures multiset(a[..]) == multiset(old(a[..]))
  {
    ghost var was := a[..];
    ShortSorted(was, gap);
    hide PermutesColumns, GapSorted;
    var j := gap;
    while j < a.Length
      invariant gap <= j
      invariant j <= a.Length ==> GapSorted(a[..][..j], gap)
      invariant a.Length < j ==> GapSorted(a[..], gap)
      invariant PermutesColumns(was, a[..], gap) && multiset(a[..]) == multiset(was)
      decreases a.Length - j
    {
      ghost var before := a[..];
      SiftDown(a, gap, j);
      PermutesTransitive(was, before, a[..], gap);
      j := j + 1;
    }
    assert j == a.Length ==> a[..][..j] == a[..];
  }

  /** Fewer than two elements in every column: nothing to sort. */
  lemma ShortSorted(s: seq<int>, gap: nat)
    requires 0 < gap
    ensures PermutesColumns(s, s, gap)
    ensures if gap <= |s| then GapSorted(s[..gap], gap) else GapSorted(s, gap)
  {
  }

  lemma PermutesTransitive(r: seq<int>, s: seq<int>, t: seq<int>, k: nat)
    requires 0 < k && PermutesColumns(r, s, k) && PermutesColumns(s, t, k)
    ensures PermutesColumns(r, t, k)
  {
  }

  /** `shellsort(arr, n)` on an array of n elements. */
  method Shellsort(a: array<int>)
    modifies a
    ensures Sorted(a[..])
    ensures multiset(a[..]) == multiset(old(a[..]))
  {
    var n := a.Length;
    var gap := n / 2;
    ghost var gaps: seq<nat> := [];
    while gap > 0
      invariant SortedForAll(a[..], gaps)
      invariant 2 <= n ==> gap > 0 || 1 in gaps
      invariant multiset(a[..]) == multiset(old(a[..]))
      decreases gap
    {
      ghost var before := a[..];
      GapPass(a, gap);
      PassKeepsAll(before, a[..], gaps, gap);
      gaps := gaps + [gap];
      gap := gap / 2;
    }
    if 2 <= n {
      GapOneSorted(a[..]);
    }
  }

  lemma PassKeepsAll(s: seq<int>, t: seq<int>, gaps: seq<nat>, gap: nat)
    requires 0 < gap && SortedForAll(s, gaps) && PermutesColumns(s, t, gap) && GapSorted(t, gap)
    ensures SortedForAll(t, gaps + [gap])
  {
    forall g | g in gaps + [gap]
      ensures GapSorted(t, g)
    {
      if g in gaps {
        GapPassKeepsOrder(s, t, g, gap);
      }
    }
  }

  lemma GapOneSorted(s: seq<int>)
    requires GapSorted(s, 1)
    ensures Sorted(s)
  {
    forall i, j | 0 <= i < j < |s|
      ensures s[i] <= s[j]
    {
      SortedBetween(s, i, j);
    }
  }

  lemma {:induction false} SortedBetween(s: seq<int>, i: nat, j: nat)
    requires GapSorted(s, 1) && i < j < |s|
    ensures s[i] <= s[j]
  {
    if i + 1 < j {
      SortedBetween(s, i, j - 1);
    }
    assert s[j - 1] <= s[j];
  }
}
