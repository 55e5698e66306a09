/** One pass of the bubble sorts of 6-1-26/5-16.c and 7-1-26/6-4.c, and the order that it establishes. */
module Bubble {

  /** `above(a, b)` says that `b` has to come before `a`; no two elements say so of each other, and elements in
      order stay in order over a third. */
  ghost predicate Weak<T(!new)>(above: (T, T) -> bool) {
    && (forall a, b :: above(a, b) ==> !above(b, a))
    && (forall a, b, c :: !above(a, b) && !above(b, c) ==> !above(a, c))
  }

  /** `v` is `v0` rearranged: `p` says where each element comes from, and no place twice. */
  ghost predicate Tracks<T>(v: seq<T>, v0: seq<T>, p: seq<nat>) {
    && |p| == |v| == |v0|
    && (forall k | 0 <= k < |p| :: p[k] < |v0| && v[k] == v0[p[k]])
    && (forall k, l | 0 <= k < l < |p| :: p[k] != p[l])
  }

  /** Elements that are tied keep their order. */
  ghost predicate Stable<T(!new)>(v: seq<T>, p: seq<nat>, above: (T, T) -> bool)
    requires |p| == |v|
  {
    forall k, l | 0 <= k < l < |v| && !above(v[k], v[l]) && !above(v[l], v[k]) :: p[k] < p[l]
  }

  ghost predicate Sorted<T(!new)>(v: seq<T>, above: (T, T) -> bool) {
    forall k, l | 0 <= k < l < |v| :: !above(v[k], v[l])
  }

  /** From `m` on, each element is in its place. */
  ghost predicate TailDone<T(!new)>(v: seq<T>, m: int, above: (T, T) -> bool) {
    forall k, l | 0 <= k < l < |v| && m <= l :: !above(v[k], v[l])
  }

  function Swapped<T>(s: seq<T>, j: nat): seq<T>
    requires j + 1 < |s|
  {
    s[j := s[j + 1]][j + 1 := s[j]]
  }

  lemma TracksSwap<T>(v: seq<T>, v0: seq<T>, p: seq<nat>, j: nat)
    requires Tracks(v, v0, p) && j + 1 < |v|
    ensures Tracks(Swapped(v, j), v0, Swapped(p, j))
  {
  }

  lemma StableSwap<T(!new)>(v: seq<T>, p: seq<nat>, above: (T, T) -> bool, j: nat)
    requires |p| == |v| && Stable(v, p, above) && j + 1 < |v| && above(v[j], v[j + 1])
    ensures Stable(Swapped(v, j), Swapped(p, j), above)
  {
    var w, q := Swapped(v, j), Swapped(p, j);
    forall k, l | 0 <= k < l < |w| && !above(w[k], w[l]) && !above(w[l], w[k]) ensures q[k] < q[l] {
      var k', l' := Source(k, j), Source(l, j);
      assert w[k] == v[k'] && w[l] == v[l'] && q[k] == p[k'] && q[l] == p[l'];
    }
  }

  function Source(k: nat, j: nat): nat {
    if k == j then j + 1 else if k == j + 1 then j else k
  }

  lemma TailSwap<T(!new)>(v: seq<T>, m: nat, above: (T, T) -> bool, j: nat)
    requires TailDone(v, m, above) && j + 1 < m <= |v|
    ensures TailDone(Swapped(v, j), m, above)
  {
    var w := Swapped(v, j);
    forall k, l | 0 <= k < l < |w| && m <= l ensures !above(w[k], w[l]) {
      assert w[k] == v[Source(k, j)] && w[l] == v[l];
    }
  }

  /** Element `j` is the greatest so far. */
  ghost predicate Leads<T(!new)>(v: seq<T>, j: nat, above: (T, T) -> bool)
    requires j < |v|
  {
    forall k | 0 <= k < j :: !above(v[k], v[j])
  }

  lemma LeadsSwap<T(!new)>(v: seq<T>, above: (T, T) -> bool, j: nat)
    requires Weak(above) && j + 1 < |v| && Leads(v, j, above) && above(v[j], v[j + 1])
    ensures Leads(Swapped(v, j), j + 1, above)
  {
  }

  lemma LeadsOn<T(!new)>(v: seq<T>, above: (T, T) -> bool, j: nat)
    requires Weak(above) && j + 1 < |v| && Leads(v, j, above) && !above(v[j], v[j + 1])
    ensures Leads(v, j + 1, above)
  {
  }

  lemma LeadsPlaces<T(!new)>(v: seq<T>, above: (T, T) -> bool, m: nat)
    requires m < |v| && TailDone(v, m + 1, above) && Leads(v, m, above)
    ensures TailDone(v, m, above)
  {
  }

  /** No neighbours out of order: nothing is out of order. */
  lemma {:induction false} NeighboursSuffice<T(!new)>(v: seq<T>, above: (T, T) -> bool, k: nat, l: nat)
    requires Weak(above) && k < l < |v|
    requires forall j | 0 <= j < l :: !above(v[j], v[j + 1])
    ensures !above(v[k], v[l])
    decreases l
  {
    if k < l - 1 {
      NeighboursSuffice(v, above, k, l - 1);
    }
  }

  /** What the inner loop keeps. */
  ghost predicate Kept<T(!new)>(v: seq<T>, v0: seq<T>, p: seq<nat>, m: nat, above: (T, T) -> bool, j: nat) {
    j <= m < |v| && Tracks(v, v0, p) && Stable(v, p, above) && TailDone(v, m + 1, above) && Leads(v, j, above)
  }

  lemma KeptSwap<T(!new)>(v: seq<T>, v0: seq<T>, p: seq<nat>, m: nat, above: (T, T) -> bool, j: nat)
    requires Weak(above) && Kept(v, v0, p, m, above, j) && j < m && above(v[j], v[j + 1])
    ensures |p| == |v| && Kept(Swapped(v, j), v0, Swapped(p, j), m, above, j + 1)
  {
    assert |p| == |v|;
    hide Weak, Tracks, Stable, TailDone, Leads;
    TracksSwap(v, v0, p, j);
    StableSwap(v, p, above, j);
    TailSwap(v, m + 1, above, j);
    LeadsSwap(v, above, j);
  }

  lemma KeptOn<T(!new)>(v: seq<T>, v0: seq<T>, p: seq<nat>, m: nat, above: (T, T) -> bool, j: nat)
    requires Weak(above) && Kept(v, v0, p, m, above, j) && j < m && !above(v[j], v[j + 1])
    ensures Kept(v, v0, p, m, above, j + 1)
  {
    hide Weak, Tracks, Stable, TailDone, Leads;
    LeadsOn(v, above, j);
  }

  method SwapInPlace<T>(v: array<T>, j: nat)
    requires j + 1 < v.Length
    modifies v
    ensures v[..] == Swapped(old(v[..]), j)
  {
    v[j], v[j + 1] := v[j + 1], v[j];
  }

  /** The inner loop: the greatest of the first `m + 1` elements goes to place `m`. */
  method Pass<T(!new)>(v: array<T>, m: nat, above: (T, T) -> bool, ghost v0: seq<T>, ghost p0: seq<nat>)
    returns (swapped: bool, ghost p: seq<nat>)
    requires m < v.Length && Weak(above)
    requires Tracks(v[..], v0, p0) && Stable(v[..], p0, above) && TailDone(v[..], m + 1, above)
    modifies v
    ensures Tracks(v[..], v0, p) && Stable(v[..], p, above) && TailDone(v[..], m, above)
    ensures !swapped ==> Sorted(v[..], above)
  {
    assert |p0| == v.Length;
    hide Weak, Tracks, Stable, TailDone, Leads;
    swapped := false;
    p := p0;
    var j := 0;
    LeadsNone(v[..], above);
    assert Kept(v[..], v0, p, m, above, 0);
    while j < m
      invariant 0 <= j <= m && |p| == v.Length
      invariant Kept(v[..], v0, p, m, above, j)
      invariant !swapped ==> forall k | 0 <= k < j :: !above(v[k], v[k + 1])
    {
      hide Kept, Swapped;
      ghost var before := v[..];
      if above(v[j], v[j + 1]) {
        KeptSwap(before, v0, p, m, above, j);
        SwapInPlace(v, j);
        p := Swapped(p, j);
        swapped := true;
      } else {
        KeptOn(before, v0, p, m, above, j);
      }
      j := j + 1;
    }
    LeadsPlaces(v[..], above, m);
    if !swapped {
      InOrder(v[..], m, above);
    }
  }

  lemma LeadsNone<T(!new)>(v: seq<T>, above: (T, T) -> bool)
    requires v != []
    ensures Leads(v, 0, above)
  {
  }

  lemma InOrder<T(!new)>(v: seq<T>, m: nat, above: (T, T) -> bool)
    requires Weak(above) && TailDone(v, m, above) && m < |v|
    requires forall k | 0 <= k < m :: !above(v[k], v[k + 1])
    ensures Sorted(v, above)
  {
    forall k, l | 0 <= k < l < |v| ensures !above(v[k], v[l]) {
      if l < m { NeighboursSuffice(v, above, k, l); }
    }
  }

  /** The identity rearrangement. */
  function Identity(n: nat): (p: seq<nat>)
    ensures |p| == n && forall k | 0 <= k < n :: p[k] == k
  {
    seq(n, k => k)
  }

  /** A rearrangement has the same elements as often. */
  lemma TracksOnto<T>(v: seq<T>, v0: seq<T>, p: seq<nat>)
    requires Tracks(v, v0, p)
    ensures forall i | 0 <= i < |v0| :: i in p
  {
    forall i | 0 <= i < |v0| ensures i in p {
      if i !in p { Pigeons(p, |v0|, i); }
    }
  }

  /** Different numbers below `n`, one of which is left out, are fewer than `n`. */
  lemma Pigeons(p: seq<nat>, n: nat, out: nat)
    requires out < n && out !in p
    requires forall k | 0 <= k < |p| :: p[k] < n
    requires forall k, l | 0 <= k < l < |p| :: p[k] != p[l]
    ensures |p| < n
  {
    Distinct(p, |p|);
    var used := set k | 0 <= k < |p| :: p[k];
    var rest := Below(n) - {out};
    assert forall x | x in used :: x in rest;
    Subset(used, rest);
  }

  /** The numbers below `n`. */
  ghost function Below(n: nat): (s: set<nat>)
    ensures |s| == n && forall i: nat :: i in s <==> i < n
  {
    if n == 0 then {} else Below(n - 1) + {n - 1}
  }

  lemma {:induction false} Distinct(p: seq<nat>, n: nat)
    requires n <= |p|
    requires forall k, l | 0 <= k < l < |p| :: p[k] != p[l]
    ensures |set k | 0 <= k < n :: p[k]| == n
  {
    if n > 0 {
      Distinct(p, n - 1);
      assert (set k | 0 <= k < n :: p[k]) == (set k | 0 <= k < n - 1 :: p[k]) + {p[n - 1]};
    }
  }

  lemma {:induction false} Subset(a: set<nat>, b: set<nat>)
    requires a <= b
    ensures |a| <= |b|
  {
    if a != {} {
      var x :| x in a;
      Subset(a - {x}, b - {x});
    }
  }
}
