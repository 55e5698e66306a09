/** The chained hash table of HTTP Proxy Effecient/hashmap.c: 1024 lists of linked nodes, against a map from
    keys to byte strings. */
module HashTable {
  import opened Options
  import opened Bytes

  const MAX_TABLE_SIZE: nat := 1024

  // ---------- hash ----------

  /** The value of a (signed) `char`. */
  function CharValue(c: char): int {
    if c as int % 256 < 128 then c as int % 256 else c as int % 256 - 256
  }

  /** The polynomial that `hash` evaluates, in unbounded integers. */
  function Polynomial(key: string): int {
    if key == "" then 5381 else Polynomial(key[..|key| - 1]) * 33 + CharValue(key[|key| - 1])
  }

  function Hash(key: string): (h: nat)
    ensures h < MAX_TABLE_SIZE
  {
    Polynomial(key) % MAX_TABLE_SIZE
  }

  /** The bucket, character by character; a character counts as a signed byte. */
  lemma HashLaw(key: string, c: char)
    ensures Hash("") == 261
    ensures Hash(key + [c]) == (33 * Hash(key) + CharValue(c)) % 1024
    ensures -128 <= CharValue(c) < 128 && (CharValue(c) - c as int) % 256 == 0
  {
    assert (key + [c])[..|key|] == key;
    var x := Polynomial(key);
    assert x == x / 1024 * 1024 + x % 1024;
    ModShift(33 * (x % 1024) + CharValue(c), 33 * (x / 1024));
    assert Polynomial(key + [c]) == 33 * (x % 1024) + CharValue(c) + 1024 * (33 * (x / 1024));
    CharLaw(c as int);
  }

  lemma CharLaw(n: nat)
    ensures (n % 256 - n) % 256 == 0 && (n % 256 - 256 - n) % 256 == 0
  {
    assert n % 256 - n == -(n / 256) * 256;
    assert n % 256 - 256 - n == (-(n / 256) - 1) * 256;
  }

  const WORD: int := 0x1_0000_0000_0000_0000

  lemma ModShift(a: int, k: int)
    ensures (a + 1024 * k) % 1024 == a % 1024
  {
  }

  lemma WrapKeepsHash(x: int, y: int, c: int)
    requires x % 1024 == y % 1024
    ensures ((x * 33 + c) % WORD) % 1024 == (y * 33 + c) % 1024
  {
    var a := x * 33 + c;
    ModShift(a, -(a / WORD) * (WORD / 1024));
    ModShift(y * 33 + c, 33 * (x / 1024 - y / 1024));
  }

  /** `hash`: the accumulator wraps at 64 bits on the way, which the result does not show. */
  method HashOf(key: string) returns (idx: nat)
    ensures idx == Hash(key)
  {
    var hash := 5381;
    var i := 0;
    while i < |key|
      invariant 0 <= i <= |key|
      invariant 0 <= hash < WORD && hash % 1024 == Polynomial(key[..i]) % 1024
    {
      assert key[..i + 1][..i] == key[..i];
      WrapKeepsHash(hash, Polynomial(key[..i]), CharValue(key[i]));
      hash := (hash * 33 + CharValue(key[i])) % WORD;
      i := i + 1;
    }
    assert key[..i] == key;
    idx := hash % MAX_TABLE_SIZE;
  }

  // ---------- chains of entries ----------

  datatype Entry = Entry(key: string, value: seq<Byte>)

  type Chain = seq<Entry>

  /** The first entry of a chain with the key. */
  function Position(c: Chain, key: string): (k: nat)
    ensures k <= |c|
    ensures k < |c| ==> c[k].key == key
    ensures forall j | 0 <= j < k :: c[j].key != key
  {
    if c == [] || c[0].key == key then 0 else 1 + Position(c[1..], key)
  }

  function Lookup(c: Chain, key: string): Option<seq<Byte>> {
    if Position(c, key) < |c| then Some(c[Position(c, key)].value) else None
  }

  function PutIn(c: Chain, key: string, value: seq<Byte>): Chain {
    var k := Position(c, key);
    if k < |c| then c[k := Entry(key, value)] else c + [Entry(key, value)]
  }

  /** The sequence without its element `k`. */
  function Without<T>(c: seq<T>, k: nat): (d: seq<T>)
    requires k < |c|
    ensures |d| == |c| - 1
    ensures forall j | 0 <= j < |d| :: d[j] == c[if j < k then j else j + 1]
  {
    c[..k] + c[k + 1..]
  }

  function RemoveFrom(c: Chain, key: string): Chain {
    var k := Position(c, key);
    if k < |c| then Without(c, k) else c
  }

  // ---------- tables of chains ----------

  type Buckets = seq<Chain>

  ghost predicate ChainOk(c: Chain, bucket: nat) {
    && (forall k | 0 <= k < |c| :: Hash(c[k].key) == bucket)
    && (forall j, k | 0 <= j < k < |c| :: c[j].key != c[k].key)
  }

  /** Each entry sits in the bucket of its key, and no key occurs twice. */
  ghost predicate TableOk(t: Buckets) {
    && |t| == MAX_TABLE_SIZE
    && (forall i | 0 <= i < |t| :: ChainOk(t[i], i))
  }

  function Find(t: Buckets, key: string): Option<seq<Byte>>
    requires |t| == MAX_TABLE_SIZE
  {
    Lookup(t[Hash(key)], key)
  }

  function Stored(t: Buckets, key: string, value: seq<Byte>): Buckets
    requires |t| == MAX_TABLE_SIZE
  {
    t[Hash(key) := PutIn(t[Hash(key)], key, value)]
  }

  function Dropped(t: Buckets, key: string): Buckets
    requires |t| == MAX_TABLE_SIZE
  {
    t[Hash(key) := RemoveFrom(t[Hash(key)], key)]
  }

  function Empty(): (t: Buckets)
    ensures |t| == MAX_TABLE_SIZE
  {
    seq(MAX_TABLE_SIZE, i => [])
  }

  lemma PositionIs(c: Chain, key: string, k: nat)
    requires k <= |c| && (k < |c| ==> c[k].key == key)
    requires forall j | 0 <= j < k :: c[j].key != key
    ensures Position(c, key) == k
  {
  }

  lemma PutAtEnd(c: Chain, key: string, value: seq<Byte>)
    requires forall j | 0 <= j < |c| :: c[j].key != key
    ensures PutIn(c, key, value) == c + [Entry(key, value)]
  {
    PositionIs(c, key, |c|);
  }

  lemma PutOver(c: Chain, key: string, value: seq<Byte>, k: nat)
    requires k < |c| && c[k].key == key && forall j | 0 <= j < k :: c[j].key != key
    ensures PutIn(c, key, value) == c[k := Entry(key, value)]
  {
    PositionIs(c, key, k);
  }

  lemma NothingDropped(c: Chain, key: string)
    requires forall j | 0 <= j < |c| :: c[j].key != key
    ensures RemoveFrom(c, key) == c
  {
    PositionIs(c, key, |c|);
  }

  lemma PutInLookup(c: Chain, key: string, value: seq<Byte>, other: string)
    ensures Lookup(PutIn(c, key, value), other) == if other == key then Some(value) else Lookup(c, other)
  {
    hide Position;
    var k := Position(c, key);
    var d := PutIn(c, key, value);
    if other == key {
      PositionIs(d, key, k);
    } else {
      var p := Position(c, other);
      PositionIs(d, other, if p < |c| then p else |d|);
    }
  }

  lemma RemoveFromLookup(c: Chain, bucket: nat, key: string, other: string)
    requires ChainOk(c, bucket)
    ensures Lookup(RemoveFrom(c, key), other) == if other == key then None else Lookup(c, other)
  {
    hide Position;
    var k := Position(c, key);
    var d := RemoveFrom(c, key);
    if k < |c| {
      if other == key {
        PositionIs(d, key, |d|);
      } else {
        var p := Position(c, other);
        PositionIs(d, other, if p < k then p else p - 1);
      }
    }
  }

  lemma PutInOk(c: Chain, key: string, value: seq<Byte>)
    requires ChainOk(c, Hash(key))
    ensures ChainOk(PutIn(c, key, value), Hash(key))
  {
    hide Hash;
  }

  lemma RemoveFromOk(c: Chain, key: string, bucket: nat)
    requires ChainOk(c, bucket)
    ensures ChainOk(RemoveFrom(c, key), bucket)
  {
    hide Hash, Position;
    var k := Position(c, key);
    var d := RemoveFrom(c, key);
  }

  // ---------- the table as a map ----------

  type Dictionary = map<string, seq<Byte>>

  function Entryless(m: Dictionary, key: string): Dictionary {
    map k | k in m && k != key :: m[k]
  }

  function At(m: Dictionary, key: string): Option<seq<Byte>> {
    if key in m then Some(m[key]) else None
  }

  /** The table answers every lookup as the map does. */
  ghost predicate Represents(t: Buckets, m: Dictionary)
    requires |t| == MAX_TABLE_SIZE
  {
    forall key :: Find(t, key) == At(m, key)
  }

  datatype Op =
    | PutOp(key: string, value: seq<Byte>)
    | GetOp(key: string)
    | AvailableOp(key: string)
    | RemoveOp(key: string)

  datatype Answer = Done | Bytes(found: Option<seq<Byte>>) | Flag(present: bool)

  function TableStep(t: Buckets, op: Op): (r: (Buckets, Answer))
    requires |t| == MAX_TABLE_SIZE
    ensures |r.0| == MAX_TABLE_SIZE
  {
    match op
    case PutOp(key, value) => (Stored(t, key, value), Done)
    case GetOp(key) => (t, Bytes(Find(t, key)))
    case AvailableOp(key) => (t, Flag(Find(t, key).Some?))
    case RemoveOp(key) => (Dropped(t, key), Done)
  }

  function MapStep(m: Dictionary, op: Op): (Dictionary, Answer) {
    match op
    case PutOp(key, value) => (m[key := value], Done)
    case GetOp(key) => (m, Bytes(At(m, key)))
    case AvailableOp(key) => (m, Flag(key in m))
    case RemoveOp(key) => (Entryless(m, key), Done)
  }

  lemma PutRefines(t: Buckets, m: Dictionary, key: string, value: seq<Byte>)
    requires TableOk(t) && Represents(t, m)
    ensures TableOk(Stored(t, key, value)) && Represents(Stored(t, key, value), m[key := value])
  {
    hide Hash, Lookup, PutIn, ChainOk;
    var u := Stored(t, key, value);
    PutInOk(t[Hash(key)], key, value);
    forall other ensures Find(u, other) == At(m[key := value], other) {
      PutInLookup(t[Hash(key)], key, value, other);
      assert Find(t, other) == At(m, other);
    }
  }

  lemma RemoveRefines(t: Buckets, m: Dictionary, key: string)
    requires TableOk(t) && Represents(t, m)
    ensures TableOk(Dropped(t, key)) && Represents(Dropped(t, key), Entryless(m, key))
  {
    hide Hash, Lookup, RemoveFrom, ChainOk;
    var u := Dropped(t, key);
    RemoveFromOk(t[Hash(key)], key, Hash(key));
    forall other ensures Find(u, other) == At(Entryless(m, key), other) {
      RemoveFromLookup(t[Hash(key)], Hash(key), key, other);
      assert Find(t, other) == At(m, other);
    }
  }

  lemma StepRefines(t: Buckets, m: Dictionary, op: Op)
    requires TableOk(t) && Represents(t, m)
    ensures TableOk(TableStep(t, op).0) && Represents(TableStep(t, op).0, MapStep(m, op).0)
    ensures TableStep(t, op).1 == MapStep(m, op).1
  {
    match op
    case PutOp(key, value) => PutRefines(t, m, key, value);
    case GetOp(key) => assert Find(t, key) == At(m, key);
    case AvailableOp(key) => assert Find(t, key) == At(m, key);
    case RemoveOp(key) => RemoveRefines(t, m, key);
  }

  function TableRun(t: Buckets, ops: seq<Op>): (r: (Buckets, seq<Answer>))
    requires |t| == MAX_TABLE_SIZE
    ensures |r.0| == MAX_TABLE_SIZE
    decreases |ops|
  {
    if ops == [] then (t, []) else
    var (u, a) := TableStep(t, ops[0]);
    var (v, rest) := TableRun(u, ops[1..]);
    (v, [a] + rest)
  }

  function MapRun(m: Dictionary, ops: seq<Op>): (Dictionary, seq<Answer>)
    decreases |ops|
  {
    if ops == [] then (m, []) else
    var (u, a) := MapStep(m, ops[0]);
    var (v, rest) := MapRun(u, ops[1..]);
    (v, [a] + rest)
  }

  /** Whatever the sequence of operations, the table gives a map's answers and stays well formed. */
  lemma {:induction false} RunRefines(t: Buckets, m: Dictionary, ops: seq<Op>)
    requires TableOk(t) && Represents(t, m)
    ensures TableRun(t, ops).1 == MapRun(m, ops).1
    ensures TableOk(TableRun(t, ops).0) && Represents(TableRun(t, ops).0, MapRun(m, ops).0)
    decreases |ops|
  {
    if ops != [] {
      hide TableStep, MapStep, TableOk, Represents;
      StepRefines(t, m, ops[0]);
      RunRefines(TableStep(t, ops[0]).0, MapStep(m, ops[0]).0, ops[1..]);
    }
  }

  lemma EmptyRefines()
    ensures TableOk(Empty()) && Represents(Empty(), map[])
  {
  }

  /** From the start: every answer is a map's. */
  lemma RunsFromEmpty(ops: seq<Op>)
    ensures TableRun(Empty(), ops).1 == MapRun(map[], ops).1
    ensures TableOk(TableRun(Empty(), ops).0) && Represents(TableRun(Empty(), ops).0, MapRun(map[], ops).0)
  {
    EmptyRefines();
    RunRefines(Empty(), map[], ops);
  }

  // ---------- the linked nodes ----------

  class Node {
    const key: string
    var value: seq<Byte>
    var next: Node?

    constructor (key: string, value: seq<Byte>)
      ensures this.key == key && this.value == value && next == null
    {
      this.key := key;
      this.value := value;
      next := null;
    }
  }

  ghost function Nexts(c: seq<Node>): (r: seq<Node?>)
    reads c
    ensures |r| == |c|
    ensures forall k | 0 <= k < |c| :: r[k] == c[k].next
  {
    seq(|c|, k requires 0 <= k < |c| reads c => c[k].next)
  }

  /** What the `next` fields of a list of these nodes have to be. */
  ghost function Follow(c: seq<Node>): (r: seq<Node?>)
    ensures |r| == |c|
    ensures forall k | 0 <= k < |c| :: r[k] == if k + 1 < |c| then c[k + 1] else null
  {
    seq(|c|, k requires 0 <= k < |c| => if k + 1 < |c| then c[k + 1] else null)
  }

  ghost function First(c: seq<Node>): Node? {
    if c == [] then null else c[0]
  }

  ghost function Entries(c: seq<Node>): (r: Chain)
    reads c
    ensures |r| == |c|
    ensures forall k | 0 <= k < |c| :: r[k] == Entry(c[k].key, c[k].value)
  {
    seq(|c|, k requires 0 <= k < |c| reads c => Entry(c[k].key, c[k].value))
  }

  /** What is found under a key, in terms of the nodes of its chain. */
  lemma FindIs(t: Buckets, key: string, c: seq<Node>)
    requires |t| == MAX_TABLE_SIZE && t[Hash(key)] == Entries(c)
    ensures var k := Position(Entries(c), key);
      if k < |c| then c[k].key == key && Find(t, key) == Some(c[k].value) else k == |c| && Find(t, key) == None
  {
    hide Entries, Position, Hash;
  }

  ghost predicate Distinct(c: seq<Node>) {
    forall j, k | 0 <= j < k < |c| :: c[j].key != c[k].key
  }

  lemma Elsewhere(c: seq<Node>, k: nat, j: nat)
    requires Distinct(c) && j < |c| && k < |c| && j != k
    ensures c[j] != c[k]
  {
    assert c[j].key != c[k].key;
  }

  lemma FollowAppend(c: seq<Node>, n: Node)
    ensures Follow(c + [n]) == (if c == [] then [] else Follow(c)[|c| - 1 := n]) + [null]
    ensures First(c + [n]) == if c == [] then n else First(c)
  {
  }

  lemma FollowRemove(c: seq<Node>, k: nat)
    requires k < |c|
    ensures var d := Without(c, k); var f := Follow(c);
      && First(d) == (if k == 0 then f[0] else First(c))
      && Follow(d) == Without(if k == 0 then f else f[k - 1 := f[k]], k)
  {
  }

  lemma NextsAppend(c: seq<Node>, n: Node)
    ensures Nexts(c + [n]) == Nexts(c) + [n.next]
    ensures Entries(c + [n]) == Entries(c) + [Entry(n.key, n.value)]
  {
  }

  lemma NextsRemove(c: seq<Node>, k: nat)
    requires k < |c|
    ensures var d := Without(c, k);
      && Nexts(d) == Without(Nexts(c), k)
      && Entries(d) == Without(Entries(c), k)
  {
  }

  lemma DistinctAppend(c: seq<Node>, n: Node)
    requires Distinct(c) && forall k | 0 <= k < |c| :: c[k].key != n.key
    ensures Distinct(c + [n]) && Grown(c, c + [n], {n})
  {
  }

  lemma DistinctRemove(c: seq<Node>, k: nat)
    requires Distinct(c) && k < |c|
    ensures Distinct(Without(c, k))
    ensures Shrunk(c, Without(c, k), {c[k]})
  {
    var d := Without(c, k);
    forall m | m in c && m != c[k] ensures m in d {
      var j :| 0 <= j < |c| && c[j] == m;
      assert d[if j < k then j else j - 1] == m;
    }
    forall m | m in d ensures m in c && m != c[k] {
      var j :| 0 <= j < |d| && d[j] == m;
      Elsewhere(c, k, if j < k then j else j + 1);
    }
  }

  /** The nodes of `d` are those of `c` and the added ones. */
  ghost predicate Grown(c: seq<Node>, d: seq<Node>, added: set<Node>) {
    && (forall n | n in d :: n in c || n in added)
    && (forall n | n in c :: n in d)
    && (forall n | n in added :: n in d)
  }

  /** The nodes of `d` are those of `c` but the ones that are gone. */
  ghost predicate Shrunk(c: seq<Node>, d: seq<Node>, gone: set<Node>) {
    && (forall n | n in gone :: n in c)
    && (forall n | n in c :: n in d || n in gone)
    && (forall n | n in d :: n in c && n !in gone)
  }

  lemma GrownNot(c: seq<Node>)
    ensures Grown(c, c, {})
  {
  }

  /** One pointer of `Table`, and the list that hangs on it. */
  class Slot {
    var head: Node?
    ghost var list: seq<Node>

    constructor ()
      ensures Valid() && list == []
    {
      head := null;
      list := [];
    }

    ghost predicate Valid()
      reads this, list
    {
      head == First(list) && Nexts(list) == Follow(list) && Distinct(list)
    }

    ghost function Chain(): Chain
      reads this, list
    {
      Entries(list)
    }

    /** The first node with the key, by the walk of `get`. */
    method Lookup(key: string) returns (n: Node?)
      requires Valid()
      ensures n == null <==> Position(Chain(), key) == |list|
      ensures n != null ==> n == list[Position(Chain(), key)]
    {
      hide Entries, Nexts, Follow, Distinct, Position;
      var temp := head;
      if temp != null {
        if temp.key == key {
          PositionIs(Chain(), key, 0);
          return temp;
        }
        ghost var k := 0;
        while temp.next != null
          invariant k < |list| && temp == list[k]
          invariant forall j | 0 <= j <= k :: list[j].key != key
          decreases |list| - k
        {
          assert temp.next == Follow(list)[k];
          temp := temp.next;
          k := k + 1;
          if temp.key == key {
            PositionIs(Chain(), key, k);
            return temp;
          }
        }
        assert temp.next == Follow(list)[k];
      }
      PositionIs(Chain(), key, |list|);
      return null;
    }

    method SetValue(n: Node, value: seq<Byte>, ghost at: nat)
      requires Valid() && at < |list| && list[at] == n
      modifies n`value
      ensures Valid() && Chain() == old(Chain())[at := Entry(n.key, value)]
    {
      n.value := value;
      forall j | 0 <= j < |list| && j != at ensures list[j] != n { Elsewhere(list, at, j); }
      assert Nexts(list) == old(Nexts(list));
      hide Nexts, Follow, Distinct;
    }

    /** The assignment of a link: of the head, or of node `at`. */
    method SetLink(prev: Node?, next: Node?, ghost at: nat)
      requires Distinct(list) && (prev != null ==> at < |list| && prev == list[at])
      modifies this`head, list`next
      ensures Entries(list) == old(Entries(list))
      ensures prev == null ==> head == next && Nexts(list) == old(Nexts(list))
      ensures prev != null ==> head == old(head) && Nexts(list) == old(Nexts(list))[at := next]
    {
      if prev == null {
        head := next;
      } else {
        prev.next := next;
        forall j | 0 <= j < |list| && j != at ensures list[j] != prev { Elsewhere(list, at, j); }
      }
      hide Entries, Nexts, Distinct;
    }

    /** The list that now hangs on the slot. */
    ghost method Adopt(d: seq<Node>, chain: Chain)
      requires head == First(d) && Nexts(d) == Follow(d) && Distinct(d) && Entries(d) == chain
      modifies this`list
      ensures list == d && Valid() && Chain() == chain
    {
      hide Entries, Nexts, Follow, Distinct;
      list := d;
    }

    /** A new node behind `prev`, the last node. */
    method Append(n: Node, prev: Node?)
      requires Valid() && n !in list && n.next == null
      requires prev == if list == [] then null else list[|list| - 1]
      requires forall k | 0 <= k < |list| :: list[k].key != n.key
      modifies this, list`next
      ensures Valid() && list == old(list) + [n] && Chain() == old(Chain()) + [Entry(n.key, n.value)]
      ensures Grown(old(list), list, {n})
    {
      hide Entries, Nexts, Follow, Distinct, Without;
      ghost var c := list;
      ghost var d := c + [n];
      FollowAppend(c, n);
      DistinctAppend(c, n);
      SetLink(prev, n, if c == [] then 0 else |c| - 1);
      NextsAppend(c, n);
      Adopt(d, old(Chain()) + [Entry(n.key, n.value)]);
    }

    /** `createNode`, linked behind the last node, when no node has the key. */
    method AddNode(key: string, value: seq<Byte>, prev: Node?) returns (ghost added: set<Node>)
      requires Valid()
      requires prev == if list == [] then null else list[|list| - 1]
      requires forall k | 0 <= k < |list| :: list[k].key != key
      modifies this, list`next
      ensures Valid() && Chain() == PutIn(old(Chain()), key, value)
      ensures fresh(added) && Grown(old(list), list, added)
      ensures forall n | n in added :: n.key == key
    {
      hide Entries, Nexts, Follow, Distinct, Position, Grown, PutIn;
      PutAtEnd(Chain(), key, value);
      var n := new Node(key, value);
      Append(n, prev);
      added := {n};
    }

    /** The walk of `put`. */
    method Put(key: string, value: seq<Byte>) returns (ghost added: set<Node>)
      requires Valid()
      modifies this, list
      ensures Valid() && Chain() == PutIn(old(Chain()), key, value)
      ensures fresh(added) && Grown(old(list), list, added)
      ensures forall n | n in added :: n.key == key
    {
      hide Entries, Nexts, Follow, Distinct, Position, Grown, PutIn;
      added := {};
      if head == null {
        added := AddNode(key, value, null);
      } else {
        var temp := head;
        ghost var k := 0;
        if temp.key == key {
          PutOver(Chain(), key, value, 0);
          SetValue(temp, value, 0);
          GrownNot(list);
          return;
        }
        while temp.next != null
          invariant k < |list| && temp == list[k]
          invariant forall j | 0 <= j <= k :: list[j].key != key
          decreases |list| - k
        {
          assert temp.next == Follow(list)[k];
          temp := temp.next;
          k := k + 1;
          if temp.key == key {
            PutOver(Chain(), key, value, k);
            SetValue(temp, value, k);
            GrownNot(list);
            return;
          }
        }
        assert temp.next == Follow(list)[k];
        added := AddNode(key, value, temp);
      }
    }

    /** The link around node `k`, whose predecessor is `prev`. */
    method Bypass(n: Node, prev: Node?, ghost k: nat)
      requires Valid() && k < |list| && n == list[k]
      requires prev == if k == 0 then null else list[k - 1]
      modifies this, list`next
      ensures Valid() && list == Without(old(list), k)
      ensures Chain() == Without(old(Chain()), k)
      ensures Shrunk(old(list), list, {n})
    {
      hide Entries, Nexts, Follow, Distinct, Without, Shrunk;
      ghost var c := list;
      ghost var d := Without(c, k);
      assert n.next == Nexts(c)[k];
      FollowRemove(c, k);
      DistinctRemove(c, k);
      SetLink(prev, n.next, if k == 0 then 0 else k - 1);
      NextsRemove(c, k);
      Adopt(d, Without(old(Chain()), k));
    }

    /** The first node with the key is unlinked. */
    method DropNode(n: Node, prev: Node?, key: string, ghost k: nat) returns (ghost gone: set<Node>)
      requires Valid() && k < |list| && n == list[k] && n.key == key
      requires prev == if k == 0 then null else list[k - 1]
      requires forall j | 0 <= j < k :: list[j].key != key
      modifies this, list`next
      ensures Valid() && Chain() == RemoveFrom(old(Chain()), key)
      ensures Shrunk(old(list), list, gone)
    {
      hide Entries, Nexts, Follow, Distinct, Position, Shrunk, Without;
      PositionIs(Chain(), key, k);
      Bypass(n, prev, k);
      gone := {n};
    }

    /** The walk of `removeKey`; the node that goes is given back to `free`. */
    method Remove(key: string) returns (ghost gone: set<Node>)
      requires Valid()
      modifies this, list
      ensures Valid() && Chain() == RemoveFrom(old(Chain()), key)
      ensures Shrunk(old(list), list, gone)
    {
      hide Entries, Nexts, Follow, Distinct, Position, RemoveFrom;
      gone := {};
      var prev := head;
      if prev != null {
        var curr := prev.next;
        assert curr == Follow(list)[0];
        if prev.key == key {
          gone := DropNode(prev, null, key, 0);
          return;
        }
        ghost var k := 0;
        while curr != null
          invariant k < |list| && prev == list[k] && curr == Follow(list)[k]
          invariant forall j | 0 <= j <= k :: list[j].key != key
          decreases |list| - k
        {
          if curr.key == key {
            gone := DropNode(curr, prev, key, k + 1);
            return;
          }
          prev := curr;
          curr := curr.next;
          k := k + 1;
          assert curr == Nexts(list)[k];
        }
      }
      NothingDropped(Chain(), key);
    }

    /** The walk of `freeTable` along one list: every node is released once, after its link was read. */
    method Clear() returns (ghost gone: set<Node>)
      requires Valid()
      modifies this
      ensures Valid() && list == []
      ensures forall n :: n in gone <==> n in old(list)
    {
      hide Entries, Nexts, Follow, Distinct;
      gone := {};
      ghost var c := list;
      var temp := head;
      ghost var k := 0;
      while temp != null
        invariant k <= |c| && temp == (if k < |c| then c[k] else null)
        invariant forall j | 0 <= j < k :: c[j] in gone
        invariant forall n | n in gone :: n in c
        invariant forall j | k <= j < |c| :: c[j] !in gone
        decreases |c| - k
      {
        var next := temp.next;
        assert next == Follow(c)[k];
        assert temp !in gone;
        forall j | k < j < |c| ensures c[j] != temp { Elsewhere(c, k, j); }
        gone := gone + {temp};
        temp := next;
        k := k + 1;
      }
      head := null;
      list := [];
      EmptyList();
    }
  }

  lemma EmptyList()
    ensures Nexts([]) == Follow([]) && Distinct([])
  {
  }

  method MakeSlots() returns (slots: seq<Slot>)
    ensures |slots| == MAX_TABLE_SIZE && fresh(slots)
    ensures forall i, j | 0 <= i < j < |slots| :: slots[i] != slots[j]
    ensures forall i | 0 <= i < |slots| :: slots[i].Valid() && slots[i].list == []
  {
    slots := [];
    while |slots| < MAX_TABLE_SIZE
      invariant |slots| <= MAX_TABLE_SIZE && fresh(slots)
      invariant forall i, j | 0 <= i < j < |slots| :: slots[i] != slots[j]
      invariant forall i | 0 <= i < |slots| :: slots[i].Valid() && slots[i].list == []
    {
      var s := new Slot();
      slots := slots + [s];
    }
  }

  ghost function Union(ls: seq<seq<Node>>): set<Node> {
    set i, n | 0 <= i < |ls| && n in ls[i] :: n
  }

  ghost function Members(l: seq<Node>): set<Node> {
    set n | n in l
  }

  lemma UnionNone()
    ensures Union([]) == {}
  {
  }

  /** The first `i` lists have been emptied, the others are as they were. */
  ghost predicate Emptied(i: nat, t: Buckets, ls: seq<seq<Node>>, ls0: seq<seq<Node>>) {
    && i <= |t| == |ls| == |ls0| && (forall j | i <= j < |ls| :: ls[j] == ls0[j])
    && (forall j | 0 <= j < i :: t[j] == [] && ls[j] == [])
  }

  lemma EmptiedNone(t: Buckets, ls: seq<seq<Node>>)
    requires |t| == |ls|
    ensures Emptied(0, t, ls, ls)
  {
  }

  lemma EmptiedNext(i: nat, t: Buckets, ls: seq<seq<Node>>, ls0: seq<seq<Node>>)
    requires Emptied(i, t, ls, ls0) && i < |t|
    ensures ls[i] == ls0[i] && Emptied(i + 1, t[i := []], ls[i := []], ls0)
  {
  }

  lemma EmptiedAll(t: Buckets, ls: seq<seq<Node>>, ls0: seq<seq<Node>>)
    requires |t| == MAX_TABLE_SIZE && Emptied(|t|, t, ls, ls0)
    ensures t == Empty() && forall j | 0 <= j < |ls| :: ls[j] == []
  {
  }

  lemma UnionStep(ls: seq<seq<Node>>, i: nat)
    requires i < |ls|
    ensures Union(ls[..i + 1]) == Union(ls[..i]) + Members(ls[i])
  {
    var more, less := ls[..i + 1], ls[..i];
    forall n | n in Union(less) + Members(ls[i]) ensures n in Union(more) {
      if n in Union(less) {
        var j :| 0 <= j < |less| && n in less[j];
        assert n in more[j];
      } else {
        assert n in more[i];
      }
    }
    forall n | n in Union(more) ensures n in Union(less) + Members(ls[i]) {
      var j :| 0 <= j < |more| && n in more[j];
      if j < i { assert n in less[j]; }
    }
  }

  class Table {
    const slots: seq<Slot>
    /** The nodes given back to `free`. */
    ghost var released: set<Node>

    /** `initTable`. */
    constructor ()
      ensures Valid() && Abs() == Empty() && released == {}
    {
      var made := MakeSlots();
      slots := made;
      released := {};
      new;
      hide Hash, Nodes;
      forall i | 0 <= i < |slots| ensures SlotOk(i) && Fresh(i) && Abs()[i] == [] {
      }
    }

    ghost predicate SlotOk(i: nat)
      requires i < |slots|
      reads slots[i], slots[i].list
    {
      slots[i].Valid() && forall n | n in slots[i].list :: Hash(n.key) == i
    }

    ghost predicate Fresh(i: nat)
      requires i < |slots|
      reads this, slots[i]
    {
      forall n | n in slots[i].list :: n !in released
    }

    ghost predicate Valid()
      reads this, slots, Nodes()
    {
      && |slots| == MAX_TABLE_SIZE
      && (forall i, j | 0 <= i < j < |slots| :: slots[i] != slots[j])
      && (forall i | 0 <= i < |slots| :: SlotOk(i))
      && (forall i | 0 <= i < |slots| :: Fresh(i))
    }

    ghost function Nodes(): (r: set<Node>)
      reads slots
      ensures forall i | 0 <= i < |slots| :: forall n | n in slots[i].list :: n in r
    {
      Union(Lists())
    }

    ghost function Abs(): (t: Buckets)
      reads slots, Nodes()
      ensures |t| == |slots|
      ensures forall i | 0 <= i < |slots| :: t[i] == slots[i].Chain()
    {
      seq(|slots|, i requires 0 <= i < |slots| reads slots, Nodes() => slots[i].Chain())
    }

    /** In every reachable state each entry sits in the bucket of its key and no key occurs twice. */
    lemma AbsOk()
      requires Valid()
      ensures TableOk(Abs())
    {
      hide Hash;
      forall i | 0 <= i < |slots| ensures ChainOk(Abs()[i], i) {
        assert SlotOk(i);
      }
    }

    /** No node of one list is in another. */
    lemma Apart(i: nat, j: nat)
      requires Valid() && i < |slots| && j < |slots| && i != j
      ensures slots[i] != slots[j] && forall n | n in slots[i].list :: n !in slots[j].list
    {
      hide Hash;
      assert SlotOk(i) && SlotOk(j);
    }

    method IsAvailable(key: string) returns (r: bool)
      requires Valid()
      ensures r == Find(Abs(), key).Some?
    {
      hide Hash;
      var idx := HashOf(key);
      assert SlotOk(idx);
      var n := slots[idx].Lookup(key);
      r := n != null;
    }

    /** The node of the key, null if there is none. */
    method Get(key: string) returns (n: Node?)
      requires Valid()
      ensures n == null <==> Find(Abs(), key) == None
      ensures n != null ==> n.key == key && Find(Abs(), key) == Some(n.value) && n !in released
    {
      hide Hash;
      var idx := HashOf(key);
      SlotReady(idx);
      hide *;
      n := slots[idx].Lookup(key);
      FindIs(Abs(), key, slots[idx].list);
    }

    lemma SlotReady(i: nat)
      requires Valid() && i < MAX_TABLE_SIZE
      ensures |slots| == MAX_TABLE_SIZE && slots[i].Valid() && slots[i].Chain() == Entries(slots[i].list)
      ensures Abs()[i] == Entries(slots[i].list) && forall n | n in slots[i].list :: n !in released
    {
      hide Hash;
      assert SlotOk(i) && Fresh(i);
    }

    /** Slot `i` is well formed, its nodes are `l` and hold the chain. */
    ghost predicate SlotIs(i: nat, c: Chain, l: seq<Node>)
      requires i < |slots|
      reads slots[i], slots[i].list
    {
      SlotOk(i) && slots[i].Chain() == c && slots[i].list == l
    }

    ghost predicate AllBut(idx: nat, t: Buckets, ls: seq<seq<Node>>)
      reads slots, Nodes()
    {
      |t| == |slots| == |ls| && forall j | 0 <= j < |slots| && j != idx :: SlotIs(j, t[j], ls[j])
    }

    lemma SlotsApart(idx: nat)
      requires Valid() && idx < |slots|
      ensures forall j | 0 <= j < |slots| && j != idx :: slots[j] != slots[idx]
      ensures forall j | 0 <= j < |slots| && j != idx :: forall n | n in slots[j].list :: n !in slots[idx].list
    {
      hide Hash;
      forall j | 0 <= j < |slots| && j != idx
        ensures slots[j] != slots[idx] && forall n | n in slots[j].list :: n !in slots[idx].list
      {
        Apart(j, idx);
      }
    }

    method PutSlot(idx: nat, key: string, value: seq<Byte>, ghost c: Chain, ghost l: seq<Node>)
      returns (ghost added: set<Node>)
      requires idx < |slots| && idx == Hash(key) && SlotIs(idx, c, l)
      modifies slots[idx], slots[idx].list
      ensures SlotIs(idx, PutIn(c, key, value), slots[idx].list)
      ensures fresh(added) && Grown(l, slots[idx].list, added)
    {
      hide Hash, PutIn, Entries, Nexts, Follow, Distinct;
      added := slots[idx].Put(key, value);
    }

    method RemoveSlot(idx: nat, key: string, ghost c: Chain, ghost l: seq<Node>) returns (ghost gone: set<Node>)
      requires idx < |slots| && idx == Hash(key) && SlotIs(idx, c, l)
      modifies slots[idx], slots[idx].list
      ensures SlotIs(idx, RemoveFrom(c, key), slots[idx].list)
      ensures Shrunk(l, slots[idx].list, gone)
    {
      hide Hash, RemoveFrom, Entries, Nexts, Follow, Distinct;
      gone := slots[idx].Remove(key);
    }

    /** `put`, in the slot of the key; the other slots are untouched. */
    method PutAt(idx: nat, key: string, value: seq<Byte>, ghost t: Buckets, ghost ls: seq<seq<Node>>)
      returns (ghost added: set<Node>)
      requires Valid() && idx == Hash(key) && AllBut(idx, t, ls) && SlotIs(idx, t[idx], ls[idx])
      modifies slots[idx], slots[idx].list
      ensures AllBut(idx, t, ls) && SlotIs(idx, PutIn(t[idx], key, value), slots[idx].list)
      ensures fresh(added) && Grown(ls[idx], slots[idx].list, added)
    {
      SlotsApart(idx);
      hide Hash, PutIn, SlotIs, SlotOk, Fresh, Nodes, Valid, Grown;
      added := PutSlot(idx, key, value, t[idx], ls[idx]);
      forall j | 0 <= j < |slots| && j != idx ensures SlotIs(j, t[j], ls[j]) {
        assert old(SlotIs(j, t[j], ls[j])) && unchanged(slots[j]);
      }
    }

    /** `removeKey`, in the slot of the key; the other slots are untouched. */
    method RemoveAt(idx: nat, key: string, ghost t: Buckets, ghost ls: seq<seq<Node>>) returns (ghost gone: set<Node>)
      requires Valid() && idx == Hash(key) && AllBut(idx, t, ls) && SlotIs(idx, t[idx], ls[idx])
      modifies slots[idx], slots[idx].list
      ensures AllBut(idx, t, ls) && SlotIs(idx, RemoveFrom(t[idx], key), slots[idx].list)
      ensures Shrunk(ls[idx], slots[idx].list, gone)
    {
      SlotsApart(idx);
      hide Hash, RemoveFrom, SlotIs, SlotOk, Fresh, Nodes, Valid, Shrunk;
      gone := RemoveSlot(idx, key, t[idx], ls[idx]);
      forall j | 0 <= j < |slots| && j != idx ensures SlotIs(j, t[j], ls[j]) {
        assert old(SlotIs(j, t[j], ls[j])) && unchanged(slots[j]);
      }
    }

    ghost function Lists(): (ls: seq<seq<Node>>)
      reads slots
      ensures |ls| == |slots| && forall i | 0 <= i < |slots| :: ls[i] == slots[i].list
    {
      seq(|slots|, i requires 0 <= i < |slots| reads slots => slots[i].list)
    }

    lemma Split(idx: nat)
      requires Valid() && idx < |slots|
      ensures AllBut(idx, Abs(), Lists()) && SlotIs(idx, Abs()[idx], Lists()[idx])
      ensures forall j | 0 <= j < |slots| :: forall n | n in Lists()[j] :: n !in released
    {
      hide Hash;
      forall j | 0 <= j < |slots|
        ensures SlotIs(j, Abs()[j], Lists()[j]) && forall n | n in Lists()[j] :: n !in released
      {
        assert SlotOk(j) && Fresh(j);
      }
    }

    lemma SplitAll()
      requires Valid()
      ensures forall j | 0 <= j < |slots| :: SlotIs(j, Abs()[j], Lists()[j])
    {
      hide Hash;
      forall j | 0 <= j < |slots| ensures SlotIs(j, Abs()[j], Lists()[j]) {
        assert SlotOk(j);
      }
    }

    lemma JoinAll(t: Buckets, ls: seq<seq<Node>>)
      requires |slots| == MAX_TABLE_SIZE == |t| == |ls|
      requires forall i, j | 0 <= i < j < |slots| :: slots[i] != slots[j]
      requires forall j | 0 <= j < |slots| :: SlotIs(j, t[j], ls[j]) && ls[j] == []
      ensures Valid() && Abs() == t
    {
      hide Hash, Nodes;
      forall j | 0 <= j < |slots| ensures SlotOk(j) && Fresh(j) && Abs()[j] == t[j] {
        assert SlotIs(j, t[j], ls[j]);
      }
    }

    /** The table whose slots are these. */
    lemma Join(idx: nat, t: Buckets, c: Chain, ls: seq<seq<Node>>)
      requires |slots| == MAX_TABLE_SIZE && idx < |slots|
      requires forall i, j | 0 <= i < j < |slots| :: slots[i] != slots[j]
      requires AllBut(idx, t, ls) && SlotIs(idx, c, slots[idx].list)
      requires forall j | 0 <= j < |slots| && j != idx :: forall n | n in ls[j] :: n !in released
      requires forall n | n in slots[idx].list :: n !in released
      ensures Valid() && Abs() == t[idx := c]
      ensures forall j | 0 <= j < |slots| && j != idx :: slots[j].list == ls[j]
    {
      hide Hash, Nodes;
      forall j | 0 <= j < |slots| ensures SlotOk(j) && Fresh(j) && Abs()[j] == t[idx := c][j] {
        if j != idx { assert SlotIs(j, t[j], ls[j]); }
      }
    }

    method Put(key: string, value: seq<Byte>)
      requires Valid()
      modifies slots[Hash(key)], slots[Hash(key)].list
      ensures Valid() && released == old(released)
      ensures Abs() == Stored(old(Abs()), key, value)
    {
      hide Hash, PutIn, SlotOk, SlotIs, Abs, Nodes, AllBut, Lists, Fresh;
      var idx := HashOf(key);
      ghost var t, ls := Abs(), Lists();
      Split(idx);
      ghost var added := PutAt(idx, key, value, t, ls);
      Join(idx, t, PutIn(t[idx], key, value), ls);
    }

    /** `free`, which leaves the nodes in use as they are. */
    ghost method Release(gone: set<Node>, idx: nat, t: Buckets, ls: seq<seq<Node>>)
      requires AllBut(idx, t, ls)
      modifies this`released
      ensures released == old(released) + gone && AllBut(idx, t, ls)
    {
      hide SlotIs, Nodes;
      released := released + gone;
      forall j | 0 <= j < |slots| && j != idx ensures SlotIs(j, t[j], ls[j]) {
        assert old(SlotIs(j, t[j], ls[j])) && unchanged(slots[j]);
      }
    }

    /** The node that goes is given back to `free`: the nodes in use and the released ones stay apart. */
    method RemoveKey(key: string) returns (ghost gone: set<Node>)
      requires Valid()
      modifies this`released, slots[Hash(key)], slots[Hash(key)].list
      ensures Valid() && Abs() == Dropped(old(Abs()), key)
      ensures released == old(released) + gone
      ensures forall i | 0 <= i < |slots| ::
        if i == Hash(key) then Shrunk(old(slots[i].list), slots[i].list, gone)
        else slots[i].list == old(slots[i].list)
    {
      hide Hash, RemoveFrom, SlotOk, SlotIs, Abs, Nodes, AllBut, Lists, Fresh;
      var idx := HashOf(key);
      ghost var t, ls := Abs(), Lists();
      Split(idx);
      forall j | 0 <= j < |slots| && j != idx ensures forall n | n in ls[j] :: n !in ls[idx] {
        Apart(j, idx);
      }
      gone := RemoveAt(idx, key, t, ls);
      Release(gone, idx, t, ls);
      Join(idx, t, RemoveFrom(t[idx], key), ls);
    }

    /** `freeTable`'s step, for one slot; the other slots are untouched. */
    method ClearAt(idx: nat, ghost t: Buckets, ghost ls: seq<seq<Node>>) returns (ghost gone: set<Node>)
      requires idx < |slots| && AllBut(idx, t, ls) && SlotIs(idx, t[idx], ls[idx])
      requires forall a, b | 0 <= a < b < |slots| :: slots[a] != slots[b]
      modifies slots[idx]
      ensures AllBut(idx, t, ls) && SlotIs(idx, [], []) && gone == Members(ls[idx])
    {
      hide Hash, Nodes;
      gone := slots[idx].Clear();
      assert SlotIs(idx, [], []);
      hide SlotIs;
      forall j | 0 <= j < |slots| && j != idx ensures SlotIs(j, t[j], ls[j]) {
        assert old(SlotIs(j, t[j], ls[j])) && unchanged(slots[j]);
      }
    }

    /** The loop's body: the nodes of one list are released. */
    method ClearNext(i: nat, ghost t: Buckets, ghost ls: seq<seq<Node>>)
      requires i < |slots| == |t| == |ls| && forall a, b | 0 <= a < b < |slots| :: slots[a] != slots[b]
      requires forall j | 0 <= j < |slots| :: SlotIs(j, t[j], ls[j])
      modifies this`released, slots[i]
      ensures AllBut(i, t, ls) && SlotIs(i, [], [])
      ensures released == old(released) + Members(ls[i])
    {
      hide Hash, SlotIs, SlotOk, Fresh, Nodes, Members;
      ghost var gone := ClearAt(i, t, ls);
      Release(gone, i, t, ls);
      assert SlotIs(i, [], []);
    }

    /** `freeTable`: exactly the nodes in use are released, and the table is empty. */
    method FreeTable()
      requires Valid()
      modifies this`released, slots
      ensures Valid() && Abs() == Empty()
      ensures released == old(released) + old(Nodes())
    {
      ghost var t, ls := Abs(), Lists();
      ghost var ls0 := ls;
      SplitAll();
      assert old(Nodes()) == Union(ls0);
      hide Hash, SlotIs, SlotOk, Fresh, Nodes, Abs, Union, Members, Lists;
      EmptiedNone(t, ls);
      hide Emptied;
      assert ls0[..0] == [] && Union([]) == {} by { UnionNone(); }
      var i := 0;
      while i < |slots|
        invariant 0 <= i <= |slots| && |t| == |ls| == |slots|
        invariant forall j | 0 <= j < |slots| :: SlotIs(j, t[j], ls[j])
        invariant Emptied(i, t, ls, ls0)
        invariant released == old(released) + Union(ls0[..i])
      {
        UnionStep(ls0, i);
        ClearNext(i, t, ls);
        EmptiedNext(i, t, ls, ls0);
        t, ls := t[i := []], ls[i := []];
        i := i + 1;
      }
      EmptiedAll(t, ls, ls0);
      JoinAll(t, ls);
      assert ls0[..i] == ls0;
    }
  }
}
