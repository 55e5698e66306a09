/** The word counter of 7-1-26/6-4.c: a linked search tree that counts words, its walk in order, and the sort
    by frequency. */
module WordCount {
  import opened Bubble
  import opened LineSort
  import opened Texts

  // ---------- trees ----------

  datatype Tree = Leaf | Branch(left: Tree, word: string, count: nat, right: Tree)

  /** What `tree_sorted` points to. */
  datatype Entry = Entry(word: string, count: nat)

  function Insert(t: Tree, w: string): Tree {
    match t
    case Leaf => Branch(Leaf, w, 1, Leaf)
    case Branch(left, word, count, right) =>
      if Lex(word, w) == 0 then Branch(left, word, count + 1, right)
      else if Lex(word, w) < 0 then Branch(left, word, count, Insert(right, w))
      else Branch(Insert(left, w), word, count, right)
  }

  function InOrder(t: Tree): seq<Entry> {
    match t
    case Leaf => []
    case Branch(left, word, count, right) => InOrder(left) + [Entry(word, count)] + InOrder(right)
  }

  function InsertAll(words: seq<string>): Tree {
    if words == [] then Leaf else Insert(InsertAll(words[..|words| - 1]), words[|words| - 1])
  }

  /** Entries in strictly alphabetical order: a search tree's walk. */
  ghost predicate Alphabetical(es: seq<Entry>) {
    forall i, j | 0 <= i < j < |es| :: Lex(es[i].word, es[j].word) < 0
  }

  /** All words of the entries lie on one side of `w`. */
  ghost predicate AllBefore(es: seq<Entry>, w: string) {
    forall i | 0 <= i < |es| :: Lex(es[i].word, w) < 0
  }

  ghost predicate AllAfter(es: seq<Entry>, w: string) {
    forall i | 0 <= i < |es| :: Lex(w, es[i].word) < 0
  }

  /** Each word to the left of a node comes before it, each to the right after it. */
  ghost predicate Search(t: Tree) {
    match t
    case Leaf => true
    case Branch(left, word, count, right) =>
      && Search(left) && Search(right)
      && AllBefore(InOrder(left), word) && AllAfter(InOrder(right), word)
  }

  // ---------- insertion ----------

  lemma LexStrict(a: string, b: string, c: string)
    requires Lex(a, b) < 0 && Lex(b, c) < 0
    ensures Lex(a, c) < 0
  {
    LexTransitive(a, b, c);
    LexOpposite(a, c);
    LexOpposite(b, c);
    LexOpposite(a, b);
  }

  lemma {:induction false} SearchAlphabetical(t: Tree)
    requires Search(t)
    ensures Alphabetical(InOrder(t))
  {
    if t.Branch? {
      hide Lex;
      SearchAlphabetical(t.left);
      SearchAlphabetical(t.right);
      Joined(InOrder(t.left), Entry(t.word, t.count), InOrder(t.right));
    }
  }

  lemma Joined(a: seq<Entry>, e: Entry, b: seq<Entry>)
    requires Alphabetical(a) && Alphabetical(b) && AllBefore(a, e.word) && AllAfter(b, e.word)
    ensures Alphabetical(a + [e] + b)
  {
    hide Lex;
    var es := a + [e] + b;
    forall i, j | 0 <= i < j < |es| ensures Lex(es[i].word, es[j].word) < 0 {
      if i < |a| < j {
        LexStrict(es[i].word, e.word, es[j].word);
      }
    }
  }

  ghost function Words(es: seq<Entry>): set<string> {
    set i | 0 <= i < |es| :: es[i].word
  }

  lemma WordsConcat(a: seq<Entry>, b: seq<Entry>)
    ensures Words(a + b) == Words(a) + Words(b)
  {
    var c := a + b;
    forall w | w in Words(a) + Words(b) ensures w in Words(c) {
      if w in Words(a) {
        var i :| 0 <= i < |a| && a[i].word == w;
        assert c[i].word == w;
      } else {
        var i :| 0 <= i < |b| && b[i].word == w;
        assert c[|a| + i].word == w;
      }
    }
    forall w | w in Words(c) ensures w in Words(a) + Words(b) {
      var i :| 0 <= i < |c| && c[i].word == w;
      if i < |a| { assert a[i].word == w; } else { assert b[i - |a|].word == w; }
    }
  }

  /** Inserting adds the word to those of the tree, and nothing else. */
  lemma {:induction false} InsertWords(t: Tree, w: string)
    ensures Words(InOrder(Insert(t, w))) == Words(InOrder(t)) + {w}
  {
    hide Lex, Words;
    match t
    case Leaf =>
      OneWord(w, 1);
      NoWord();
      assert InOrder(Insert(t, w)) == [Entry(w, 1)];
    case Branch(left, word, count, right) =>
      BranchWords(left, word, count, right);
      LexOpposite(word, w);
      if Lex(word, w) == 0 {
        BranchWords(left, word, count + 1, right);
      } else if Lex(word, w) < 0 {
        InsertWords(right, w);
        BranchWords(left, word, count, Insert(right, w));
      } else {
        InsertWords(left, w);
        BranchWords(Insert(left, w), word, count, right);
      }
  }

  lemma OneWord(w: string, count: nat)
    ensures Words([Entry(w, count)]) == {w}
  {
    assert [Entry(w, count)][0].word in Words([Entry(w, count)]);
  }

  lemma NoWord()
    ensures Words([]) == {}
  {
  }

  lemma BranchWords(left: Tree, word: string, count: nat, right: Tree)
    ensures Words(InOrder(Branch(left, word, count, right))) == Words(InOrder(left)) + {word} + Words(InOrder(right))
  {
    hide Words;
    WordsConcat(InOrder(left) + [Entry(word, count)], InOrder(right));
    WordsConcat(InOrder(left), [Entry(word, count)]);
    OneWord(word, count);
  }

  lemma BeforeWords(es: seq<Entry>, w: string)
    ensures AllBefore(es, w) <==> forall x | x in Words(es) :: Lex(x, w) < 0
    ensures AllAfter(es, w) <==> forall x | x in Words(es) :: Lex(w, x) < 0
  {
    hide Lex;
    forall i | 0 <= i < |es| ensures es[i].word in Words(es) {
    }
  }

  /** Insertion keeps the tree a search tree. */
  lemma {:induction false} InsertSearch(t: Tree, w: string)
    requires Search(t)
    ensures Search(Insert(t, w))
  {
    hide Lex, Words, InOrder, AllBefore, AllAfter;
    match t
    case Leaf =>
      NoneBefore(w);
    case Branch(left, word, count, right) =>
      LexOpposite(word, w);
      BeforeWords(InOrder(left), word);
      BeforeWords(InOrder(right), word);
      if Lex(word, w) < 0 {
        InsertSearch(right, w);
        InsertWords(right, w);
        BeforeWords(InOrder(Insert(right, w)), word);
      } else if Lex(word, w) > 0 {
        InsertSearch(left, w);
        InsertWords(left, w);
        BeforeWords(InOrder(Insert(left, w)), word);
      }
  }

  lemma NoneBefore(w: string)
    ensures AllBefore(InOrder(Leaf), w) && AllAfter(InOrder(Leaf), w)
  {
  }

  /** The count that a search tree holds for a word. */
  ghost function CountIn(t: Tree, w: string): nat {
    match t
    case Leaf => 0
    case Branch(left, word, count, right) =>
      if Lex(word, w) == 0 then count else if Lex(word, w) < 0 then CountIn(right, w) else CountIn(left, w)
  }

  ghost predicate AllPositive(t: Tree) {
    t.Branch? ==> t.count > 0 && AllPositive(t.left) && AllPositive(t.right)
  }

  lemma {:induction false} InsertCount(t: Tree, w: string, x: string)
    ensures CountIn(Insert(t, w), x) == CountIn(t, x) + if x == w then 1 else 0
  {
    hide Lex;
    LexOpposite(w, x);
    if t.Branch? {
      LexOpposite(t.word, w);
      LexOpposite(t.word, x);
      InsertCount(t.left, w, x);
      InsertCount(t.right, w, x);
    }
  }

  lemma {:induction false} InsertPositive(t: Tree, w: string)
    requires AllPositive(t)
    ensures AllPositive(Insert(t, w))
  {
    hide Lex;
    if t.Branch? {
      InsertPositive(t.left, w);
      InsertPositive(t.right, w);
    }
  }

  /** The walk lists exactly the counted words with their counts. */
  lemma {:induction false} WalkCounts(t: Tree, e: Entry)
    requires Search(t) && AllPositive(t)
    ensures e in InOrder(t) <==> e.count > 0 && CountIn(t, e.word) == e.count
  {
    if t.Branch? {
      hide Lex, AllBefore, AllAfter;
      LexOpposite(t.word, e.word);
      WalkCounts(t.left, e);
      WalkCounts(t.right, e);
      if e in InOrder(t.left) { SideOf(InOrder(t.left), t.word, e); }
      if e in InOrder(t.right) { SideOf(InOrder(t.right), t.word, e); }
      if e.word == t.word { assert e in InOrder(t) ==> e == Entry(t.word, t.count); }
    }
  }

  lemma SideOf(es: seq<Entry>, w: string, e: Entry)
    requires e in es
    ensures AllBefore(es, w) ==> Lex(e.word, w) < 0 && Lex(w, e.word) > 0
    ensures AllAfter(es, w) ==> Lex(w, e.word) < 0
  {
    hide Lex;
    LexOpposite(e.word, w);
  }

  /** After any sequence of words the tree is a search tree, and it holds the exact number of occurrences. */
  lemma {:induction false} InsertAllOk(words: seq<string>, w: string)
    ensures Search(InsertAll(words)) && AllPositive(InsertAll(words))
    ensures CountIn(InsertAll(words), w) == Times(words, w)
  {
    if words != [] {
      hide Search, AllPositive, CountIn, Insert;
      var front := words[..|words| - 1];
      InsertAllOk(front, w);
      InsertSearch(InsertAll(front), words[|words| - 1]);
      InsertPositive(InsertAll(front), words[|words| - 1]);
      InsertCount(InsertAll(front), words[|words| - 1], w);
    } else {
      assert CountIn(Leaf, w) == 0;
    }
  }

  // ---------- the ranking ----------

  /** The exchange condition of `sort_on_frequency`. */
  function ByFrequency(): (Entry, Entry) -> bool {
    (a: Entry, b: Entry) => a.count < b.count || (a.count == b.count && Lex(a.word, b.word) > 0)
  }

  lemma ByFrequencyWeak()
    ensures Weak(ByFrequency())
  {
    hide Lex;
    var above := ByFrequency();
    forall a, b | above(a, b) ensures !above(b, a) {
      LexOpposite(a.word, b.word);
    }
    forall a, b, c | !above(a, b) && !above(b, c) ensures !above(a, c) {
      if Lex(a.word, b.word) <= 0 && Lex(b.word, c.word) <= 0 {
        LexTransitive(a.word, b.word, c.word);
      }
    }
  }

  /** The ranking of the words: each with its exact number of occurrences, once, by falling counts and in
      alphabetical order among equal ones. */
  lemma Ranking(words: seq<string>, v: seq<Entry>, p: seq<nat>)
    requires Tracks(v, InOrder(InsertAll(words)), p) && Sorted(v, ByFrequency())
    ensures forall e :: e in v <==> e.count > 0 && Times(words, e.word) == e.count
    ensures forall k, l | 0 <= k < l < |v| ::
              v[k].count > v[l].count || (v[k].count == v[l].count && Lex(v[k].word, v[l].word) < 0)
  {
    var t := InsertAll(words);
    var es := InOrder(t);
    hide Lex, InsertAll, InOrder, Times;
    InsertAllOk(words, "");
    SearchAlphabetical(t);
    TracksOnto(v, es, p);
    forall e ensures e in v <==> e in es {
      if e in es {
        var i :| 0 <= i < |es| && es[i] == e;
        assert i in p;
      }
    }
    forall e ensures e in v <==> e.count > 0 && Times(words, e.word) == e.count {
      InsertAllOk(words, e.word);
      WalkCounts(t, e);
    }
    forall k, l | 0 <= k < l < |v|
      ensures v[k].count > v[l].count || (v[k].count == v[l].count && Lex(v[k].word, v[l].word) < 0)
    {
      assert !ByFrequency()(v[k], v[l]);
      var i, j := p[k], p[l];
      assert i != j && v[k] == es[i] && v[l] == es[j];
      LexOpposite(es[i].word, es[j].word);
      if i < j { assert Lex(es[i].word, es[j].word) < 0; } else { assert Lex(es[j].word, es[i].word) < 0; }
    }
  }

  // ---------- the linked tree ----------

  class Node {
    const word: string
    var count: nat
    var left: Node?
    var right: Node?
    /** The nodes below and the tree they form. */
    ghost var repr: set<Node>
    ghost var tree: Tree

    /** `alloc`, and the count that `addtree` sets. */
    constructor (word: string)
      ensures Valid() && fresh(repr) && tree == Branch(Leaf, word, 1, Leaf)
    {
      this.word := word;
      count := 1;
      left, right := null, null;
      repr := {this};
      tree := Branch(Leaf, word, 1, Leaf);
    }

    ghost predicate Valid()
      reads this, repr
      decreases repr
    {
      && this in repr && tree.Branch? && tree.word == word && tree.count == count
      && (left == null ==> tree.left == Leaf)
      && (left != null ==>
            left in repr && left.repr <= repr && this !in left.repr && left.Valid() && tree.left == left.tree)
      && (right == null ==> tree.right == Leaf)
      && (right != null ==>
            right in repr && right.repr <= repr && this !in right.repr && right.Valid() && tree.right == right.tree)
      && (left != null && right != null ==> left.repr !! right.repr)
    }
  }

  ghost function TreeOf(head: Node?): Tree
    reads head
  {
    if head == null then Leaf else head.tree
  }

  lemma InsertCases(t: Tree, w: string)
    ensures t == Leaf ==> Insert(t, w) == Branch(Leaf, w, 1, Leaf)
    ensures t.Branch? && Lex(t.word, w) == 0 ==> t.word == w && Insert(t, w) == t.(count := t.count + 1)
    ensures t.Branch? && Lex(t.word, w) < 0 ==> Insert(t, w) == t.(right := Insert(t.right, w))
    ensures t.Branch? && Lex(t.word, w) > 0 ==> Insert(t, w) == t.(left := Insert(t.left, w))
  {
    if t.Branch? {
      LexOpposite(t.word, w);
    }
  }

  /** `addtree`: what it stores through the pointer to the head is returned as `root`. */
  method AddTree(head: Node?, word: string) returns (root: Node, node: Node)
    requires head != null ==> head.Valid()
    modifies if head == null then {} else head.repr
    ensures root.Valid() && root.tree == Insert(old(TreeOf(head)), word)
    ensures head != null ==> root == head && fresh(root.repr - old(head.repr))
    ensures head == null ==> fresh(root.repr)
    ensures node in root.repr && node.word == word
    decreases if head == null then {} else head.repr, 1
  {
    hide Lex, Insert;
    InsertCases(TreeOf(head), word);
    if head == null {
      root := new Node(word);
      node := root;
      return;
    }
    root := head;
    var comp := Lex(head.word, word);
    if comp == 0 {
      head.count := head.count + 1;
      head.tree := head.tree.(count := head.count);
      node := head;
    } else if comp < 0 {
      node := AddRight(head, word);
    } else {
      node := AddLeft(head, word);
    }
  }

  method AddRight(head: Node, word: string) returns (node: Node)
    requires head.Valid()
    modifies head.repr
    ensures head.Valid() && head.tree == old(head.tree).(right := Insert(old(head.tree.right), word))
    ensures fresh(head.repr - old(head.repr)) && node in head.repr && node.word == word
    decreases head.repr, 0
  {
    hide Insert;
    var sub;
    sub, node := AddTree(head.right, word);
    head.right := sub;
    head.repr := head.repr + sub.repr;
    head.tree := head.tree.(right := sub.tree);
  }

  method AddLeft(head: Node, word: string) returns (node: Node)
    requires head.Valid()
    modifies head.repr
    ensures head.Valid() && head.tree == old(head.tree).(left := Insert(old(head.tree.left), word))
    ensures fresh(head.repr - old(head.repr)) && node in head.repr && node.word == word
    decreases head.repr, 0
  {
    hide Insert;
    var sub;
    sub, node := AddTree(head.left, word);
    head.left := sub;
    head.repr := head.repr + sub.repr;
    head.tree := head.tree.(left := sub.tree);
  }

  /** `sorted_tree`: the walk writes its entries from index `ptr` on. */
  method SortedTree(p: Node?, out: array<Entry>, ptr: nat) returns (end: nat)
    requires p != null ==> p.Valid()
    requires ptr + |InOrder(TreeOf(p))| <= out.Length
    modifies out
    ensures end == ptr + |InOrder(TreeOf(p))|
    ensures forall k | 0 <= k < out.Length && !(ptr <= k < end) :: out[k] == old(out[k])
    ensures forall k | ptr <= k < end :: out[k] == InOrder(TreeOf(p))[k - ptr]
    decreases if p == null then {} else p.repr
  {
    end := ptr;
    if p != null {
      end := SortedTree(p.left, out, end);
      out[end] := Entry(p.word, p.count);
      end := end + 1;
      end := SortedTree(p.right, out, end);
    }
  }

  /** `sort_on_frequency`, with its early exit. */
  method SortOnFrequency(v: array<Entry>) returns (ghost p: seq<nat>)
    modifies v
    ensures Tracks(v[..], old(v[..]), p) && Sorted(v[..], ByFrequency())
  {
    var above := ByFrequency();
    ByFrequencyWeak();
    ghost var v0 := v[..];
    p := Identity(v.Length);
    assert Tracks(v[..], v0, p) && Stable(v[..], p, above) && TailDone(v[..], v.Length, above);
    hide Weak, Tracks, Stable, TailDone, Identity, Sorted, ByFrequency;
    var i := 0;
    while i < v.Length
      invariant 0 <= i <= v.Length && |p| == v.Length
      invariant Tracks(v[..], v0, p) && Stable(v[..], p, above) && TailDone(v[..], v.Length - i, above)
    {
      var swapped;
      swapped, p := Pass(v, v.Length - 1 - i, above, v0, p);
      if !swapped {
        return;
      }
      i := i + 1;
    }
    AllDone(v[..], v.Length - i, above);
  }

  lemma AllDone(v: seq<Entry>, m: int, above: (Entry, Entry) -> bool)
    requires TailDone(v, m, above) && m <= 1
    ensures Sorted(v, above)
  {
  }

  /** The whole program, from the words read to the ranking printed. */
  method Rank(words: seq<string>) returns (ranking: array<Entry>)
    ensures forall e :: e in ranking[..] <==> e.count > 0 && Times(words, e.word) == e.count
    ensures forall k, l | 0 <= k < l < ranking.Length :: ranking[k].count > ranking[l].count
              || (ranking[k].count == ranking[l].count && Lex(ranking[k].word, ranking[l].word) < 0)
  {
    hide Lex, Insert;
    var tree: Node? := null;
    var n := 0;
    while n < |words|
      invariant 0 <= n <= |words|
      invariant tree != null ==> tree.Valid() && fresh(tree.repr)
      invariant TreeOf(tree) == InsertAll(words[..n])
    {
      assert words[..n + 1][..n] == words[..n];
      var node;
      tree, node := AddTree(tree, words[n]);
      n := n + 1;
    }
    assert words[..n] == words;
    ghost var es := InOrder(TreeOf(tree));
    var size := Size(tree);
    ranking := new Entry[size](i => Entry("", 0));
    var end := SortedTree(tree, ranking, 0);
    assert ranking[..] == es;
    ghost var p := SortOnFrequency(ranking);
    Ranking(words, ranking[..], p);
  }

  /** The number of nodes. */
  method Size(p: Node?) returns (n: nat)
    requires p != null ==> p.Valid()
    ensures n == |InOrder(TreeOf(p))|
    decreases if p == null then {} else p.repr
  {
    n := 0;
    if p != null {
      var a := Size(p.left);
      var b := Size(p.right);
      n := a + 1 + b;
    }
  }
}
