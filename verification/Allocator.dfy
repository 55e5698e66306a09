/** The storage allocator of 16-1-26/8-7.c: one circular, address-ordered list of free blocks.

    Addresses are counted in units of one header (16 bytes).  The abstract state `Heap` lists the
    free blocks in ring order; every operation is first a function on heaps, for which the
    allocator's promises are proved, and then a method on memory that is proved to compute it. */
module Allocator {
  import opened Options

  const HEADER_BYTES: nat := 16
  const NALLOC: nat := 1024
  const MAXALLOC: nat := 1024 * 1024 * 1024
  const MAX_UNITS: nat := MAXALLOC / HEADER_BYTES  // the largest block `my_free` accepts
  const UINT_LIMIT: nat := 0x1_0000_0000           // sizes are 32-bit unsigned
  const NULL: nat := 0
  const BASE: nat := 1                             // the static list head, below every arena

  datatype Block = Block(addr: nat, size: nat) {
    function End(): nat {
      addr + size
    }

    predicate Has(u: int) {
      addr <= u < End()
    }

    ghost function Units(): set<int> {
      set u: int | addr <= u < End() && Has(u)
    }
  }

  /** `ring[cur]` is where `freep` points.  `taken` holds the blocks outside the free list: those
      handed to callers and, in `lost`, those that `my_free` refused to list.  `owned` are the units
      obtained from sbrk. */
  datatype Heap = Heap(ring: seq<Block>, cur: nat, taken: set<Block>, lost: set<Block>, owned: set<int>)

  const EMPTY := Heap([Block(BASE, 0)], 0, {}, {}, {})

  // ---------- the ring ----------

  /** Ascending, with a gap between any two blocks: neighbours that touch have been joined. */
  ghost predicate Chain(bs: seq<Block>) {
    forall i, j | 0 <= i < j < |bs| :: bs[i].End() < bs[j].addr
  }

  ghost predicate RingOk(ring: seq<Block>) {
    && |ring| > 0 && ring[0] == Block(BASE, 0)
    && (forall i | 1 <= i < |ring| :: ring[i].size > 0)
    && Chain(ring)
  }

  ghost predicate Covers(bs: seq<Block>, u: int) {
    exists i :: 0 <= i < |bs| && bs[i].Has(u)
  }

  ghost predicate Held(taken: set<Block>, u: int) {
    exists b :: b in taken && b.Has(u)
  }

  /** No unit belongs to two taken blocks, nor to a taken and a free one. */
  ghost predicate Apart(ring: seq<Block>, taken: set<Block>) {
    && (forall b, c, u | b in taken && c in taken && b.Has(u) && c.Has(u) :: b == c)
    && (forall u :: !(Covers(ring, u) && Held(taken, u)))
  }

  /** Free and taken blocks together make up exactly the units obtained from sbrk. */
  ghost predicate Tiles(h: Heap) {
    && (forall u :: u in h.owned <==> Covers(h.ring, u) || Held(h.taken, u))
    && (forall u | u in h.owned :: BASE < u < BASE + UINT_LIMIT)
  }

  /** The invariant of every reachable heap. */
  ghost predicate HeapOk(h: Heap) {
    && RingOk(h.ring) && h.cur < |h.ring|
    && h.lost <= h.taken && (forall b | b in h.taken :: b.size > 0)
    && Apart(h.ring, h.taken)
    && Tiles(h)
  }

  // ---------- freeing ----------

  /** The ring position after which a block at address `a` belongs. */
  function PlaceFrom(ring: seq<Block>, a: nat, i: nat): (p: nat)
    requires i < |ring| && ring[i].addr < a
    ensures i <= p < |ring| && ring[p].addr < a
    ensures p + 1 < |ring| ==> a <= ring[p + 1].addr
    decreases |ring| - i
  {
    if i + 1 < |ring| && ring[i + 1].addr < a then PlaceFrom(ring, a, i + 1) else i
  }

  function Place(ring: seq<Block>, a: nat): (p: nat)
    requires |ring| > 0 && ring[0].addr < a
    ensures p < |ring| && ring[p].addr < a
    ensures p + 1 < |ring| ==> a <= ring[p + 1].addr
  {
    PlaceFrom(ring, a, 0)
  }

  predicate JoinsUpper(ring: seq<Block>, b: Block, p: nat) {
    p + 1 < |ring| && b.End() == ring[p + 1].addr
  }

  /** `b`, extended by its upper neighbour if they touch. */
  function Raised(ring: seq<Block>, b: Block, p: nat): Block {
    if JoinsUpper(ring, b, p) then Block(b.addr, b.size + ring[p + 1].size) else b
  }

  /** The blocks that stay above `Raised`. */
  function Above(ring: seq<Block>, b: Block, p: nat): seq<Block>
    requires p < |ring|
  {
    if JoinsUpper(ring, b, p) then ring[p + 2..] else ring[p + 1..]
  }

  /** `b` listed after position `p`, joined to its upper and lower neighbours where they touch. */
  function Insert(ring: seq<Block>, b: Block, p: nat): seq<Block>
    requires p < |ring|
  {
    if ring[p].End() == b.addr
    then ring[..p] + ([Block(ring[p].addr, ring[p].size + Raised(ring, b, p).size)] + Above(ring, b, p))
    else ring[..p + 1] + ([Raised(ring, b, p)] + Above(ring, b, p))
  }

  /** `my_free` of a taken block. */
  function Free(h: Heap, b: Block): Heap
    requires |h.ring| > 0 && h.ring[0].addr < b.addr
  {
    if b.size > MAX_UNITS then h
    else var p := Place(h.ring, b.addr);
      h.(ring := Insert(h.ring, b, p), cur := p, taken := h.taken - {b}, lost := h.lost - {b})
  }

  lemma CoversConcat(a: seq<Block>, b: seq<Block>, u: int)
    ensures Covers(a + b, u) <==> Covers(a, u) || Covers(b, u)
  {
    if Covers(a, u) {
      var i :| 0 <= i < |a| && a[i].Has(u);
      assert (a + b)[i].Has(u);
    }
    if Covers(b, u) {
      var i :| 0 <= i < |b| && b[i].Has(u);
      assert (a + b)[|a| + i].Has(u);
    }
  }

  lemma CoversOne(b: Block, u: int)
    ensures Covers([b], u) <==> b.Has(u)
  {
    assert [b][0] == b;
  }

  lemma RingConcat(a: seq<Block>, m: Block, b: seq<Block>)
    requires RingOk(a) && m.size > 0 && a[|a| - 1].End() < m.addr
    requires Chain(b) && forall i | 0 <= i < |b| :: m.End() < b[i].addr && b[i].size > 0
    ensures RingOk(a + ([m] + b))
  {
    var n := [m] + b;
    assert Chain(n) && forall i | 0 <= i < |n| :: a[|a| - 1].End() < n[i].addr && n[i].size > 0;
    RingAppend(a, n);
  }

  lemma RingPrefix(ring: seq<Block>, p: nat)
    requires RingOk(ring) && 0 < p <= |ring|
    ensures RingOk(ring[..p])
  {
  }

  lemma RingAppend(a: seq<Block>, n: seq<Block>)
    requires RingOk(a) && Chain(n)
    requires forall i | 0 <= i < |n| :: a[|a| - 1].End() < n[i].addr && n[i].size > 0
    ensures RingOk(a + n)
  {
    forall i, j | 0 <= i < j < |a + n|
      ensures (a + n)[i].End() < (a + n)[j].addr
    {
      if i < |a| - 1 && |a| <= j {
        assert a[i].End() < a[|a| - 1].addr;
      }
    }
  }

  lemma CoversMiddle(a: seq<Block>, m: Block, b: seq<Block>, u: int)
    ensures Covers(a + ([m] + b), u) <==> Covers(a, u) || m.Has(u) || Covers(b, u)
  {
    CoversConcat(a, [m] + b, u);
    CoversConcat([m], b, u);
    CoversOne(m, u);
  }

  lemma RaisedCovers(ring: seq<Block>, b: Block, p: nat, u: int)
    requires p < |ring|
    ensures Raised(ring, b, p).Has(u) || Covers(Above(ring, b, p), u) <==> b.Has(u) || Covers(ring[p + 1..], u)
  {
    if JoinsUpper(ring, b, p) {
      assert ring[p + 1..] == [ring[p + 1]] + Above(ring, b, p);
      CoversConcat([ring[p + 1]], Above(ring, b, p), u);
      CoversOne(ring[p + 1], u);
    }
  }

  lemma InsertCovers(ring: seq<Block>, b: Block, p: nat, u: int)
    requires p < |ring| && ring[p].addr < b.addr
    ensures Covers(Insert(ring, b, p), u) <==> Covers(ring, u) || b.Has(u)
  {
    var mid, rest := Raised(ring, b, p), Above(ring, b, p);
    RaisedCovers(ring, b, p, u);
    assert ring == ring[..p] + ([ring[p]] + ring[p + 1..]);
    CoversMiddle(ring[..p], ring[p], ring[p + 1..], u);
    if ring[p].End() == b.addr {
      var low := Block(ring[p].addr, ring[p].size + mid.size);
      assert low.Has(u) <==> ring[p].Has(u) || mid.Has(u);
      CoversMiddle(ring[..p], low, rest, u);
    } else {
      assert ring[..p + 1] == ring[..p] + [ring[p]];
      CoversMiddle(ring[..p + 1], mid, rest, u);
      CoversConcat(ring[..p], [ring[p]], u);
      CoversOne(ring[p], u);
    }
  }

  lemma AboveChain(ring: seq<Block>, b: Block, p: nat)
    requires RingOk(ring) && p < |ring| && b.size > 0
    requires p + 1 < |ring| ==> b.End() <= ring[p + 1].addr
    ensures Chain(Above(ring, b, p))
    ensures forall i | 0 <= i < |Above(ring, b, p)| ::
      Raised(ring, b, p).End() < Above(ring, b, p)[i].addr && Above(ring, b, p)[i].size > 0
    ensures Raised(ring, b, p).addr == b.addr && Raised(ring, b, p).size > 0
  {
    if JoinsUpper(ring, b, p) {
      assert Raised(ring, b, p).End() == ring[p + 1].End();
    }
  }

  lemma InsertOk(ring: seq<Block>, b: Block, p: nat)
    requires RingOk(ring) && p < |ring| && b.size > 0 && BASE < b.addr
    requires ring[p].End() <= b.addr
    requires p + 1 < |ring| ==> b.End() <= ring[p + 1].addr
    ensures RingOk(Insert(ring, b, p))
  {
    if ring[p].End() == b.addr {
      JoinedOk(ring, b, p);
    } else {
      AboveChain(ring, b, p);
      hide RingOk, Chain;
      RingPrefix(ring, p + 1);
      RingConcat(ring[..p + 1], Raised(ring, b, p), Above(ring, b, p));
    }
  }

  /** Joined to its lower neighbour. */
  lemma JoinedOk(ring: seq<Block>, b: Block, p: nat)
    requires RingOk(ring) && p < |ring| && b.size > 0 && BASE < b.addr && ring[p].End() == b.addr
    requires p + 1 < |ring| ==> b.End() <= ring[p + 1].addr
    ensures RingOk(Insert(ring, b, p))
  {
    AboveChain(ring, b, p);
    LowerApart(ring, p);
    RingPrefix(ring, p);
    var mid, rest := Raised(ring, b, p), Above(ring, b, p);
    var low := Block(ring[p].addr, ring[p].size + mid.size);
    hide RingOk, Chain, Raised, Above;
    assert low.End() == mid.End();
    RingConcat(ring[..p], low, rest);
  }

  lemma LowerApart(ring: seq<Block>, p: nat)
    requires RingOk(ring) && p < |ring| && BASE < ring[p].End()
    ensures p > 0 && ring[..p][p - 1].End() < ring[p].addr && ring[p].size > 0
  {
  }

  /** A taken block lies in the gap after its place in the ring. */
  lemma PlaceFits(h: Heap, b: Block)
    requires HeapOk(h) && b in h.taken
    ensures BASE < b.addr
    ensures var p := Place(h.ring, b.addr);
      h.ring[p].End() <= b.addr && (p + 1 < |h.ring| ==> b.End() <= h.ring[p + 1].addr)
  {
    assert b.Has(b.addr) && Held(h.taken, b.addr);
    assert b.addr in h.owned;
    var p := Place(h.ring, b.addr);
    BlockApart(h.ring, h.taken, b, p);
    if p + 1 < |h.ring| {
      BlockApart(h.ring, h.taken, b, p + 1);
    }
  }

  /** A taken block and a free one do not overlap. */
  lemma BlockApart(ring: seq<Block>, taken: set<Block>, b: Block, i: nat)
    requires Apart(ring, taken) && b in taken && i < |ring|
    ensures b.End() <= ring[i].addr || ring[i].End() <= b.addr || ring[i].size == 0 || b.size == 0
  {
    var u := if b.addr < ring[i].addr then ring[i].addr else b.addr;
    assert b.Has(u) ==> Held(taken, u);
    assert ring[i].Has(u) ==> Covers(ring, u);
  }

  lemma FreeOk(h: Heap, b: Block)
    requires HeapOk(h) && b in h.taken && h.ring[0].addr < b.addr
    ensures HeapOk(Free(h, b))
    ensures b.size <= MAX_UNITS ==> forall u :: Covers(Free(h, b).ring, u) <==> Covers(h.ring, u) || b.Has(u)
  {
    if b.size <= MAX_UNITS {
      PlaceFits(h, b);
      var p := Place(h.ring, b.addr);
      InsertOk(h.ring, b, p);
      var h' := Free(h, b);
      forall u
        ensures Covers(h'.ring, u) <==> Covers(h.ring, u) || b.Has(u)
        ensures Held(h.taken, u) <==> Held(h'.taken, u) || b.Has(u)
        ensures !(Covers(h'.ring, u) && Held(h'.taken, u))
      {
        InsertCovers(h.ring, b, p, u);
        HeldWithout(h.taken, b, u);
      }
    }
  }

  lemma HeldWithout(taken: set<Block>, b: Block, u: int)
    requires b in taken
    ensures Held(taken, u) <==> Held(taken - {b}, u) || b.Has(u)
  {
    if Held(taken, u) {
      var c :| c in taken && c.Has(u);
      assert c == b || c in taken - {b};
    }
  }

  // ---------- allocating ----------

  /** First fit in ring order: `steps` positions starting at `j`. */
  function Scan(ring: seq<Block>, j: nat, steps: nat, n: nat): (r: Option<nat>)
    requires j < |ring|
    ensures r.Some? ==> r.value < |ring| && ring[r.value].size >= n
    decreases steps
  {
    if steps == 0 then None
    else if ring[j].size >= n then Some(j)
    else Scan(ring, Next(ring, j), steps - 1, n)
  }

  function Next(ring: seq<Block>, j: nat): (k: nat)
    requires j < |ring|
    ensures k < |ring|
  {
    if j + 1 == |ring| then 0 else j + 1
  }

  /** The block `my_malloc` picks: the first that is big enough, starting after `freep`. */
  function FirstFit(h: Heap, n: nat): (r: Option<nat>)
    requires h.cur < |h.ring|
    ensures r.Some? ==> r.value < |h.ring| && h.ring[r.value].size >= n
  {
    Scan(h.ring, Next(h.ring, h.cur), |h.ring|, n)
  }

  /** The tail of block `j`, or all of it. */
  function Tail(ring: seq<Block>, j: nat, n: nat): Block
    requires j < |ring| && ring[j].size >= n
  {
    Block(ring[j].End() - n, n)
  }

  function Cut(ring: seq<Block>, j: nat, n: nat): seq<Block>
    requires j < |ring| && ring[j].size >= n
  {
    ring[..j] + (if ring[j].size == n then [] else [Block(ring[j].addr, ring[j].size - n)]) + ring[j + 1..]
  }

  function Take(h: Heap, j: nat, n: nat): Heap
    requires 0 < j < |h.ring| && h.ring[j].size >= n
  {
    h.(ring := Cut(h.ring, j, n), cur := j - 1, taken := h.taken + {Tail(h.ring, j, n)})
  }

  lemma CutOk(ring: seq<Block>, j: nat, n: nat)
    requires RingOk(ring) && 0 < j < |ring| && 0 < n <= ring[j].size
    ensures RingOk(Cut(ring, j, n))
  {
    RingPrefix(ring, j);
    var kept := if ring[j].size == n then [] else [Block(ring[j].addr, ring[j].size - n)];
    var rest := kept + ring[j + 1..];
    assert Cut(ring, j, n) == ring[..j] + rest;
    assert ring[j - 1].End() < ring[j].addr;
    forall i | 0 <= i < |rest|
      ensures ring[j - 1].End() < rest[i].addr && rest[i].size > 0
    {
      if kept == [] {
        assert rest[i] == ring[j + 1 + i];
      } else if i > 0 {
        assert rest[i] == ring[j + i];
      }
    }
    assert Chain(rest);
    RingAppend(ring[..j], rest);
  }

  /** The other blocks of a ring do not reach into the block that is cut. */
  lemma CutDisjoint(ring: seq<Block>, j: nat, n: nat, u: int)
    requires RingOk(ring) && 0 < j < |ring| && 0 < n <= ring[j].size
    ensures ring[j].Has(u) ==> !Covers(ring[..j], u) && !Covers(ring[j + 1..], u)
  {
  }

  lemma TailHas(ring: seq<Block>, j: nat, n: nat, u: int)
    requires j < |ring| && 0 < n <= ring[j].size
    ensures ring[j].Has(u) <==>
      Tail(ring, j, n).Has(u) || (n < ring[j].size && Block(ring[j].addr, ring[j].size - n).Has(u))
  {
  }

  lemma CutCovers(ring: seq<Block>, j: nat, n: nat, u: int)
    requires RingOk(ring) && 0 < j < |ring| && 0 < n <= ring[j].size
    ensures Covers(ring, u) <==> Covers(Cut(ring, j, n), u) || Tail(ring, j, n).Has(u)
    ensures !(Covers(Cut(ring, j, n), u) && Tail(ring, j, n).Has(u))
  {
    var kept := if ring[j].size == n then [] else [Block(ring[j].addr, ring[j].size - n)];
    assert ring == ring[..j] + ([ring[j]] + ring[j + 1..]);
    assert kept == [] ==> !Covers(kept, u);
    CutDisjoint(ring, j, n, u);
    TailHas(ring, j, n, u);
    hide Covers, RingOk, Tail;
    CoversMiddle(ring[..j], ring[j], ring[j + 1..], u);
    CoversConcat(ring[..j] + kept, ring[j + 1..], u);
    CoversConcat(ring[..j], kept, u);
    if kept != [] {
      CoversOne(kept[0], u);
    }
  }

  lemma TakeOk(h: Heap, j: nat, n: nat)
    requires HeapOk(h) && 0 < j < |h.ring| && 0 < n <= h.ring[j].size
    ensures HeapOk(Take(h, j, n))
    ensures Tail(h.ring, j, n) !in h.taken
    ensures forall u | Tail(h.ring, j, n).Has(u) :: Covers(h.ring, u)
  {
    CutOk(h.ring, j, n);
    var h', b := Take(h, j, n), Tail(h.ring, j, n);
    forall u
      ensures Covers(h.ring, u) <==> Covers(h'.ring, u) || b.Has(u)
      ensures !(Covers(h'.ring, u) && b.Has(u))
      ensures Held(h'.taken, u) <==> Held(h.taken, u) || b.Has(u)
    {
      CutCovers(h.ring, j, n, u);
      HeldWithout(h'.taken, b, u);
      if Held(h.taken, u) {
        var c :| c in h.taken && c.Has(u);
        assert c in h'.taken;
      }
    }
    if b in h.taken {
      assert b.Has(b.addr) && Held(h.taken, b.addr);
      assert false;
    }
  }

  // ---------- growing ----------

  function GrowUnits(n: nat): nat {
    if n < NALLOC then NALLOC else n
  }

  /** What sbrk may answer: units never handed out before, above the list head, within 32-bit reach. */
  ghost predicate FreshRegion(owned: set<int>, b: Block) {
    && BASE < b.addr && b.End() <= BASE + UINT_LIMIT && b.size > 0
    && forall u | u in owned :: !b.Has(u)
  }

  /** `my_morecore`: the new region is passed to `my_free`, which does not list one above MAX_UNITS. */
  ghost function Grow(h: Heap, b: Block): Heap
    requires |h.ring| > 0 && h.ring[0].addr < b.addr
  {
    var h1 := h.(taken := h.taken + {b}, owned := h.owned + b.Units());
    if b.size > MAX_UNITS then h1.(lost := h.lost + {b}) else Free(h1, b)
  }

  lemma AcquireOk(h: Heap, b: Block)
    requires HeapOk(h) && FreshRegion(h.owned, b)
    ensures HeapOk(h.(taken := h.taken + {b}, owned := h.owned + b.Units()))
    ensures b !in h.taken
  {
    var taken := h.taken + {b};
    forall u
      ensures Held(taken, u) <==> Held(h.taken, u) || b.Has(u)
      ensures b.Has(u) ==> !Covers(h.ring, u) && !Held(h.taken, u)
    {
      if Held(h.taken, u) {
        var c :| c in h.taken && c.Has(u);
        assert c in taken;
      }
      if b.Has(u) {
        assert b in taken;
      }
    }
    assert b.Has(b.addr);
  }

  lemma GrowOk(h: Heap, b: Block)
    requires HeapOk(h) && FreshRegion(h.owned, b)
    ensures HeapOk(Grow(h, b)) && b !in h.taken
    ensures Grow(h, b).owned == h.owned + b.Units()
    ensures Grow(h, b).taken == if b.size > MAX_UNITS then h.taken + {b} else h.taken
    ensures Grow(h, b).lost == if b.size > MAX_UNITS then h.lost + {b} else h.lost
  {
    AcquireOk(h, b);
    FreeOk(h.(taken := h.taken + {b}, owned := h.owned + b.Units()), b);
  }

  /** After a growth that `my_free` accepts, some free block is at least as big as the region. */
  lemma GrowFits(h: Heap, b: Block)
    requires |h.ring| > 0 && h.ring[0].addr < b.addr && b.size <= MAX_UNITS
    ensures exists i :: 0 <= i < |Grow(h, b).ring| && Grow(h, b).ring[i].size >= b.size
  {
    var p := Place(h.ring, b.addr);
    var r := Grow(h, b).ring;
    assert r[if h.ring[p].End() == b.addr then p else p + 1].size >= b.size;
  }

  // ---------- my_malloc ----------

  /** Header units and payload units for a request. */
  function UnitsFor(nbytes: nat): nat {
    (nbytes + HEADER_BYTES - 1) / HEADER_BYTES + 1
  }

  /** The answers sbrk gives, in order; after the last it refuses.  Each region is fresh. */
  ghost predicate GrantsOk(owned: set<int>, nu: nat, grants: seq<Option<nat>>)
    decreases |grants|
  {
    grants != [] && grants[0].Some? ==>
      && FreshRegion(owned, Block(grants[0].value, nu))
      && GrantsOk(owned + Block(grants[0].value, nu).Units(), nu, grants[1..])
  }

  /** The heap afterwards, the block handed out, and how many regions sbrk supplied. */
  datatype Outcome = Outcome(heap: Heap, block: Option<Block>, regions: nat)

  ghost function Allocate(h: Heap, n: nat, grants: seq<Option<nat>>): Outcome
    requires HeapOk(h) && 0 < n && GrantsOk(h.owned, GrowUnits(n), grants)
    decreases |grants|
  {
    match FirstFit(h, n)
    case Some(j) => Outcome(Take(h, j, n), Some(Tail(h.ring, j, n)), 0)
    case None =>
      if grants == [] || grants[0].None? then Outcome(h, None, 0)
      else
        var b := Block(grants[0].value, GrowUnits(n));
        GrowOk(h, b);
        var r := Allocate(Grow(h, b), n, grants[1..]);
        r.(regions := r.regions + 1)
  }

  /** `my_malloc(nbytes)` with its two range checks. */
  ghost function Malloc(h: Heap, nbytes: nat, grants: seq<Option<nat>>): Outcome
    requires HeapOk(h) && GrantsOk(h.owned, GrowUnits(UnitsFor(nbytes)), grants)
  {
    if nbytes == 0 || nbytes > MAXALLOC then Outcome(h, None, 0)
    else Allocate(h, UnitsFor(nbytes), grants)
  }

  /** A request gets at least its bytes of payload, and less than one unit more. */
  lemma PayloadTight(nbytes: nat)
    requires 0 < nbytes
    ensures nbytes <= (UnitsFor(nbytes) - 1) * HEADER_BYTES < nbytes + HEADER_BYTES
    ensures UnitsFor(nbytes) <= MAX_UNITS <==> nbytes <= 0x4000_0000 - 16
    ensures nbytes <= 0x4000_0000 ==> UnitsFor(nbytes) <= MAX_UNITS + 1
  {
  }

  /** How far `i` lies ahead of `j` on the ring. */
  function Ahead(ring: seq<Block>, j: nat, i: nat): int {
    if j <= i then i - j else i + |ring| - j
  }

  lemma {:induction false} ScanReaches(ring: seq<Block>, j: nat, steps: nat, n: nat, i: nat)
    requires j < |ring| && i < |ring| && ring[i].size >= n && Ahead(ring, j, i) < steps
    ensures Scan(ring, j, steps, n).Some?
    decreases steps
  {
    if ring[j].size < n {
      ScanReaches(ring, Next(ring, j), steps - 1, n, i);
    }
  }

  /** The scan misses nothing. */
  lemma FirstFitComplete(h: Heap, n: nat)
    requires h.cur < |h.ring|
    ensures FirstFit(h, n).Some? <==> exists i :: 0 <= i < |h.ring| && h.ring[i].size >= n
  {
    if i :| 0 <= i < |h.ring| && h.ring[i].size >= n {
      ScanReaches(h.ring, Next(h.ring, h.cur), |h.ring|, n, i);
    }
  }

  /** What every allocation keeps and gives: the heap stays well-formed; the block is new, of the
      requested size, and nothing that was taken is touched. */
  lemma {:induction false} AllocateOk(h: Heap, n: nat, grants: seq<Option<nat>>)
    requires HeapOk(h) && 0 < n && GrantsOk(h.owned, GrowUnits(n), grants)
    ensures var r := Allocate(h, n, grants);
      && HeapOk(r.heap) && h.owned <= r.heap.owned && h.lost <= r.heap.lost
      && r.heap.taken - r.heap.lost == h.taken - h.lost + (if r.block.Some? then {r.block.value} else {})
      && (r.block.Some? ==> r.block.value !in h.taken && r.block.value.size == n && r.block.value !in r.heap.lost)
    decreases |grants|
  {
    match FirstFit(h, n)
    case Some(j) => TakeOk(h, j, n);
    case None =>
      if grants != [] && grants[0].Some? {
        var b := Block(grants[0].value, GrowUnits(n));
        GrowOk(h, b);
        AllocateOk(Grow(h, b), n, grants[1..]);
      }
  }

  /** Requests up to MAXALLOC - 16 bytes grow the arena at most once, and fail only when sbrk
      refuses; then the heap is as it was. */
  lemma GrowsAtMostOnce(h: Heap, n: nat, grants: seq<Option<nat>>)
    requires HeapOk(h) && 0 < n <= MAX_UNITS && GrantsOk(h.owned, GrowUnits(n), grants)
    ensures var r := Allocate(h, n, grants);
      && r.regions <= 1
      && (r.block.None? <==> FirstFit(h, n).None? && (grants == [] || grants[0].None?))
      && (r.block.None? ==> r.heap == h)
      && (r.heap.lost == h.lost)
  {
    if FirstFit(h, n).None? && grants != [] && grants[0].Some? {
      var b := Block(grants[0].value, GrowUnits(n));
      GrowOk(h, b);
      GrowFits(h, b);
      FirstFitComplete(Grow(h, b), n);
      assert Allocate(Grow(h, b), n, grants[1..]).regions == 0;
    }
  }

  /** Above that limit no growth helps: `my_free` does not list the new regions, so the request
      succeeds exactly when a big enough block is free already; otherwise every region is lost. */
  lemma {:induction false} OversizeNeverGrows(h: Heap, n: nat, grants: seq<Option<nat>>)
    requires HeapOk(h) && n > MAX_UNITS && GrantsOk(h.owned, GrowUnits(n), grants)
    ensures var r := Allocate(h, n, grants);
      && (r.block.Some? <==> FirstFit(h, n).Some?)
      && (r.block.None? ==> r.heap.ring == h.ring && h.lost <= r.heap.lost)
      && (r.block.None? ==> forall u :: u in r.heap.owned <==> u in h.owned || Held(r.heap.lost - h.lost, u))
    decreases |grants|
  {
    if FirstFit(h, n).None? && grants != [] && grants[0].Some? {
      var b := Block(grants[0].value, GrowUnits(n));
      GrowOk(h, b);
      var h1, r := Grow(h, b), Allocate(h, n, grants);
      FirstFitComplete(h, n);
      FirstFitComplete(h1, n);
      OversizeNeverGrows(h1, n, grants[1..]);
      forall u
        ensures u in r.heap.owned <==> u in h.owned || Held(r.heap.lost - h.lost, u)
      {
        LostMore(h.lost, b, r.heap.lost, u);
      }
    }
  }

  lemma LostMore(lost: set<Block>, b: Block, more: set<Block>, u: int)
    requires b !in lost && lost + {b} <= more
    ensures Held(more - lost, u) <==> b.Has(u) || Held(more - (lost + {b}), u)
  {
    if Held(more - lost, u) {
      var c :| c in more - lost && c.Has(u);
      assert c == b || c in more - (lost + {b});
    }
    if b.Has(u) {
      assert b in more - lost;
    }
    if Held(more - (lost + {b}), u) {
      var c :| c in more - (lost + {b}) && c.Has(u);
      assert c in more - lost;
    }
  }

  /** `my_malloc` as a caller sees it: exactly when it returns NULL, and what the block is good for. */
  lemma MallocExactly(h: Heap, nbytes: nat, grants: seq<Option<nat>>)
    requires HeapOk(h) && GrantsOk(h.owned, GrowUnits(UnitsFor(nbytes)), grants)
    ensures var r := Malloc(h, nbytes, grants);
      && (r.block.None? <==>
           || nbytes == 0 || nbytes > 0x4000_0000
           || ((forall i | 0 <= i < |h.ring| :: h.ring[i].size < UnitsFor(nbytes))
               && (nbytes > 0x4000_0000 - 16 || grants == [] || grants[0].None?)))
      && (r.block.Some? ==>
           && nbytes <= (r.block.value.size - 1) * 16 < nbytes + 16
           && forall u | r.block.value.Has(u) :: u in r.heap.owned && !Held(h.taken, u) && !Covers(r.heap.ring, u))
      && (nbytes == 0 || nbytes > 0x4000_0000 ==> r.heap == h && r.regions == 0)
  {
    if 0 < nbytes <= MAXALLOC {
      var n := UnitsFor(nbytes);
      PayloadTight(nbytes);
      FirstFitComplete(h, n);
      AllocateOk(h, n, grants);
      if n <= MAX_UNITS {
        GrowsAtMostOnce(h, n, grants);
      } else {
        OversizeNeverGrows(h, n, grants);
      }
      var r := Allocate(h, n, grants);
      if r.block.Some? {
        NewBlockApart(h, r.heap, r.block.value);
      }
    }
  }

  /** A block that is taken now and was not before shares no unit with those taken before. */
  lemma NewBlockApart(h: Heap, h': Heap, b: Block)
    requires HeapOk(h') && h.taken - h.lost <= h'.taken && b in h'.taken && b !in h.taken
    requires h.lost <= h'.taken
    ensures forall u | b.Has(u) :: u in h'.owned && !Held(h.taken, u) && !Covers(h'.ring, u)
  {
    forall u | b.Has(u)
      ensures u in h'.owned && !Held(h.taken, u) && !Covers(h'.ring, u)
    {
      assert Held(h'.taken, u);
    }
  }

  // ---------- what one call undoes ----------

  /** The free list is determined by the free units alone: fully joined lists have one form. */
  lemma {:induction false} RingCanonical(r: seq<Block>, s: seq<Block>)
    requires Chain(r) && Chain(s)
    requires forall i | 0 <= i < |r| :: r[i].size > 0
    requires forall i | 0 <= i < |s| :: s[i].size > 0
    requires forall u :: Covers(r, u) <==> Covers(s, u)
    ensures r == s
  {
    if r == [] {
      if s != [] {
        CoversHead(s);
        assert false;
      }
    } else {
      HeadBelow(r, s);
      HeadBelow(s, r);
      HeadEnds(r, s);
      HeadEnds(s, r);
      forall u
        ensures Covers(r[1..], u) <==> Covers(s[1..], u)
      {
        TailCovers(r, u);
        TailCovers(s, u);
      }
      RingCanonical(r[1..], s[1..]);
    }
  }

  lemma HeadBelow(r: seq<Block>, s: seq<Block>)
    requires r != [] && Chain(r) && r[0].size > 0
    requires forall u :: Covers(r, u) ==> Covers(s, u)
    requires Chain(s)
    ensures s != [] && s[0].addr <= r[0].addr
  {
    CoversHead(r);
    var i :| 0 <= i < |s| && s[i].Has(r[0].addr);
    ChainAt(s, 0, i);
  }

  lemma CoversHead(r: seq<Block>)
    requires r != [] && r[0].size > 0
    ensures Covers(r, r[0].addr)
  {
    assert r[0].Has(r[0].addr);
  }

  lemma CoversAt(s: seq<Block>, i: nat, u: int)
    requires i < |s|
    ensures s[i].Has(u) ==> Covers(s, u)
  {
  }

  lemma ChainAt(r: seq<Block>, i: nat, j: nat)
    requires Chain(r) && i < |r| && j < |r|
    ensures i < j ==> r[i].End() < r[j].addr
  {
  }

  /** The unit after the first block is not covered. */
  lemma HeadGap(r: seq<Block>)
    requires r != [] && Chain(r)
    ensures !Covers(r, r[0].End())
  {
    forall i | 0 <= i < |r|
      ensures !r[i].Has(r[0].End())
    {
      ChainAt(r, 0, i);
    }
  }

  lemma HeadEnds(r: seq<Block>, s: seq<Block>)
    requires r != [] && s != [] && Chain(r) && Chain(s) && r[0].addr == s[0].addr && s[0].size > 0
    requires forall u :: Covers(s, u) ==> Covers(r, u)
    ensures s[0].End() <= r[0].End()
  {
    HeadGap(r);
    CoversAt(s, 0, r[0].End());
  }

  lemma TailCovers(r: seq<Block>, u: int)
    requires r != [] && Chain(r)
    ensures Covers(r[1..], u) <==> Covers(r, u) && !r[0].Has(u)
  {
    assert r == [r[0]] + r[1..];
    CoversConcat([r[0]], r[1..], u);
    CoversOne(r[0], u);
    if Covers(r[1..], u) {
      var i :| 0 <= i < |r[1..]| && r[1..][i].Has(u);
      assert r[0].End() < r[i + 1].addr;
    }
  }

  /** Freeing the block just allocated restores the free list, whatever was split and joined. */
  lemma FreeUndoesTake(h: Heap, j: nat, n: nat)
    requires HeapOk(h) && 0 < j < |h.ring| && 0 < n <= h.ring[j].size && n <= MAX_UNITS
    ensures var b := Tail(h.ring, j, n);
      h.ring[0].addr < b.addr && Free(Take(h, j, n), b).ring == h.ring && Free(Take(h, j, n), b).taken == h.taken
  {
    var h1, b := Take(h, j, n), Tail(h.ring, j, n);
    TakeOk(h, j, n);
    PlaceFits(h1, b);
    FreeOk(h1, b);
    var r := Free(h1, b).ring;
    forall u
      ensures Covers(r[1..], u) <==> Covers(h.ring[1..], u)
    {
      CutCovers(h.ring, j, n, u);
      TailCovers(r, u);
      TailCovers(h.ring, u);
    }
    SameRing(r, h.ring);
  }

  lemma SameRing(r: seq<Block>, s: seq<Block>)
    requires RingOk(r) && RingOk(s) && forall u :: Covers(r[1..], u) <==> Covers(s[1..], u)
    ensures r == s
  {
    RingCanonical(r[1..], s[1..]);
    assert r == [r[0]] + r[1..] && s == [s[0]] + s[1..];
  }

  /** `my_free` trusts the size field it finds.  For an address in the arena that is not the head of
      a listed block, the call leaves a well-formed heap exactly when it names a taken block with
      its true size: a second `free` of a block that was joined to its lower neighbour, or a pointer
      into the middle of a block, is not detected and destroys the list. */
  lemma FreeOkExactly(h: Heap, b: Block)
    requires HeapOk(h) && b.addr in h.owned && 0 < b.size <= MAX_UNITS
    requires forall i | 0 <= i < |h.ring| :: h.ring[i].addr != b.addr
    ensures HeapOk(Free(h, b)) <==> b in h.taken
  {
    var p := Place(h.ring, b.addr);
    var h' := Free(h, b);
    if b in h.taken {
      FreeOk(h, b);
    } else if Held(h.taken, b.addr) {
      InsertCovers(h.ring, b, p, b.addr);
      assert b.Has(b.addr);
      assert Covers(h'.ring, b.addr) && Held(h'.taken, b.addr);
    } else {
      var i :| 0 <= i < |h.ring| && h.ring[i].Has(b.addr);
      InsideOf(h.ring, b, i);
      assert h'.ring[i].End() > h'.ring[i + 1].addr;
    }
  }

  lemma InsideOf(ring: seq<Block>, b: Block, i: nat)
    requires RingOk(ring) && i < |ring| && ring[0].addr < b.addr && ring[i].addr < b.addr < ring[i].End()
    ensures Place(ring, b.addr) == i
    ensures |Insert(ring, b, i)| > i + 1 && Insert(ring, b, i)[i] == ring[i] && Insert(ring, b, i)[i + 1].addr == b.addr
  {
    var p := Place(ring, b.addr);
    if p + 1 < |ring| {
      ChainAt(ring, p + 1, i);
    }
    ChainAt(ring, i, p);
  }

  // ---------- every run ----------

  datatype Event = MallocCall(nbytes: nat, grants: seq<Option<nat>>) | FreeCall(addr: nat)

  ghost predicate Listed(ring: seq<Block>, a: nat) {
    exists i :: 0 <= i < |ring| && ring[i].addr == a
  }

  /** Clients free NULL, what malloc gave them, or the head of a block that is free already. */
  ghost predicate Legal(h: Heap, e: Event) {
    match e
    case MallocCall(nbytes, grants) => GrantsOk(h.owned, GrowUnits(UnitsFor(nbytes)), grants)
    case FreeCall(a) => a == NULL || Listed(h.ring, a) || exists b :: b in h.taken - h.lost && b.addr == a
  }

  ghost function Step(h: Heap, e: Event): Heap
    requires HeapOk(h) && Legal(h, e)
  {
    match e
    case MallocCall(nbytes, grants) => Malloc(h, nbytes, grants).heap
    case FreeCall(a) =>
      if a == NULL || Listed(h.ring, a) then h
      else
        var b :| b in h.taken - h.lost && b.addr == a;
        PlaceFits(h, b);
        Free(h, b)
  }

  lemma StepOk(h: Heap, e: Event)
    requires HeapOk(h) && Legal(h, e)
    ensures HeapOk(Step(h, e))
    ensures forall b | b in h.taken - h.lost && e != FreeCall(b.addr) :: b in Step(h, e).taken - Step(h, e).lost
  {
    match e
    case MallocCall(nbytes, grants) =>
      if 0 < nbytes <= MAXALLOC {
        AllocateOk(h, UnitsFor(nbytes), grants);
      }
    case FreeCall(a) =>
      if a != NULL && !Listed(h.ring, a) {
        var b :| b in h.taken - h.lost && b.addr == a && Step(h, e) == (PlaceFits(h, b); Free(h, b));
        FreeOk(h, b);
      }
  }

  /** `heaps` are the successive heaps of a run of `events`, starting before the first call. */
  ghost predicate IsRun(heaps: seq<Heap>, events: seq<Event>) {
    && |heaps| == |events| + 1 && heaps[0] == EMPTY
    && forall k | 0 <= k < |events| ::
      HeapOk(heaps[k]) ==> Legal(heaps[k], events[k]) && heaps[k + 1] == Step(heaps[k], events[k])
  }

  lemma EmptyOk()
    ensures HeapOk(EMPTY)
  {
    forall u
      ensures !Covers(EMPTY.ring, u) && !Held(EMPTY.taken, u)
    {
    }
  }

  /** Safety of all runs: every reachable heap is one fully joined ring whose free blocks, with the
      taken ones, tile the arena; and a block handed out stays handed out until it is freed. */
  lemma {:induction false} RunOk(heaps: seq<Heap>, events: seq<Event>, k: nat)
    requires IsRun(heaps, events) && k < |heaps|
    ensures HeapOk(heaps[k])
  {
    if k == 0 {
      EmptyOk();
    } else {
      RunOk(heaps, events, k - 1);
      StepOk(heaps[k - 1], events[k - 1]);
    }
  }

  lemma {:induction false} LiveUntilFreed(heaps: seq<Heap>, events: seq<Event>, b: Block, i: nat, k: nat)
    requires IsRun(heaps, events) && i <= k < |heaps| && b in heaps[i].taken - heaps[i].lost
    requires forall m | i <= m < k :: events[m] != FreeCall(b.addr)
    ensures b in heaps[k].taken - heaps[k].lost
  {
    if i < k {
      LiveUntilFreed(heaps, events, b, i, k - 1);
      RunOk(heaps, events, k - 1);
      StepOk(heaps[k - 1], events[k - 1]);
    }
  }

  // ---------- calls that go wrong ----------

  /** What a second `my_free` of a block does when the first one went well: its header then holds the size of the
      block joined to its upper neighbour. */
  ghost function FreeAgain(h: Heap, b: Block): Heap
    requires HeapOk(h) && b in h.taken && b.size <= MAX_UNITS && BASE < b.addr
  {
    var r, h1 := Raised(h.ring, b, Place(h.ring, b.addr)), Free(h, b);
    FreeOk(h, b);
    if r.size > MAX_UNITS || Listed(h1.ring, b.addr) then h1 else Free(h1, r)
  }

  /** Joined to its lower neighbour, the block is no longer the head of a listed one. */
  lemma ListedAfterFree(h: Heap, b: Block)
    requires HeapOk(h) && b in h.taken && b.size <= MAX_UNITS && BASE < b.addr
    ensures Listed(Free(h, b).ring, b.addr) <==> h.ring[Place(h.ring, b.addr)].End() != b.addr
  {
    PlaceFits(h, b);
    FreeOk(h, b);
    var p := Place(h.ring, b.addr);
    var r := Free(h, b).ring;
    if h.ring[p].End() == b.addr {
      assert r[p] == Block(h.ring[p].addr, h.ring[p].size + Raised(h.ring, b, p).size);
      forall i | 0 <= i < |r| ensures r[i].addr != b.addr {
        ChainAt(r, i, p);
        ChainAt(r, p, i);
      }
    } else {
      assert r[p + 1].addr == b.addr;
    }
  }

  lemma FreedSize(h: Heap, b: Block)
    requires HeapOk(h) && b in h.taken && b.size <= MAX_UNITS && BASE < b.addr
    ensures var r := Raised(h.ring, b, Place(h.ring, b.addr)); r.addr == b.addr && r.size >= b.size > 0
  {
  }

  /** Freeing a block twice: the list survives if and only if the first call did not join the block to its lower
      neighbour, or joined it to an upper one so big that the size is refused. */
  lemma FreeTwiceExactly(h: Heap, b: Block)
    requires HeapOk(h) && b in h.taken && b.size <= MAX_UNITS && BASE < b.addr
    ensures var p := Place(h.ring, b.addr);
      HeapOk(FreeAgain(h, b)) <==> h.ring[p].End() != b.addr || Raised(h.ring, b, p).size > MAX_UNITS
  {
    var p := Place(h.ring, b.addr);
    var h1, r := Free(h, b), Raised(h.ring, b, p);
    FreeOk(h, b);
    ListedAfterFree(h, b);
    InsertCovers(h.ring, b, p, b.addr);
    assert b.size > 0 && b.Has(b.addr) && Covers(h1.ring, b.addr);
    NotTaken(h1, r, b.addr);
    if h.ring[p].End() == b.addr && r.size <= MAX_UNITS {
      assert r.size > 0 && r.addr == b.addr;
      hide Raised, Insert;
      FreeOkExactly(h1, r);
    }
  }

  lemma NotTaken(h: Heap, b: Block, u: int)
    requires HeapOk(h) && Covers(h.ring, u) && b.Has(u)
    ensures b !in h.taken
  {
    if b in h.taken {
      assert Held(h.taken, u);
      assert false;
    }
  }

  /** The heap after the first malloc of 16 bytes: the block is the end of the first region. */
  lemma FirstMalloc()
    ensures HeapOk(EMPTY) && Legal(EMPTY, MallocCall(16, [Some(2)]))
    ensures var h := Step(EMPTY, MallocCall(16, [Some(2)]));
      h.ring == [Block(BASE, 0), Block(2, 1022)] && Block(1024, 2) in h.taken
  {
    EmptyOk();
    assert UnitsFor(16) == 2 && GrowUnits(2) == 1024;
    var grants: seq<Option<nat>> := [Some(2)];
    assert FreshRegion(EMPTY.owned, Block(2, 1024)) && grants[1..] == [];
    var g := Grow(EMPTY, Block(2, 1024));
    GrowOk(EMPTY, Block(2, 1024));
    hide HeapOk, FreshRegion;
    assert g.ring == [Block(BASE, 0), Block(2, 1024)];
    assert FirstFit(EMPTY, 2).None?;
    assert FirstFit(g, 2) == Some(1);
    assert Allocate(g, 2, grants[1..]).heap == Take(g, 1, 2);
    assert Allocate(EMPTY, 2, grants).heap == Take(g, 1, 2);
    assert Cut(g.ring, 1, 2) == [Block(BASE, 0), Block(2, 1022)];
  }

  /** One malloc of 16 bytes, and the block freed twice: the free list is lost. */
  lemma FreeTwiceReached()
    ensures var call, b := MallocCall(16, [Some(2)]), Block(1024, 2);
      && HeapOk(EMPTY) && Legal(EMPTY, call)
      && var h := Step(EMPTY, call);
        && IsRun([EMPTY, h], [call])
        && HeapOk(h) && b in h.taken && !HeapOk(FreeAgain(h, b))
  {
    FirstMalloc();
    var call, b := MallocCall(16, [Some(2)]), Block(1024, 2);
    StepOk(EMPTY, call);
    hide HeapOk, Legal, Step;
    var h := Step(EMPTY, call);
    assert Place(h.ring, 1024) == 1;
    FreeTwiceExactly(h, b);
  }

  /** A request for MAXALLOC bytes: the region obtained for it is lost. */
  lemma OversizeReached()
    ensures var b := Block(2, MAX_UNITS + 1);
      && HeapOk(EMPTY) && GrantsOk(EMPTY.owned, GrowUnits(UnitsFor(MAXALLOC)), [Some(2)])
      && var r := Malloc(EMPTY, MAXALLOC, [Some(2)]);
        r.block.None? && r.regions == 1 && r.heap.lost == {b} && r.heap.ring == EMPTY.ring
  {
    EmptyOk();
    var b := Block(2, MAX_UNITS + 1);
    assert UnitsFor(MAXALLOC) == GrowUnits(MAX_UNITS + 1) == MAX_UNITS + 1;
    var g := Grow(EMPTY, b);
    GrowOk(EMPTY, b);
    assert FirstFit(EMPTY, MAX_UNITS + 1).None? && FirstFit(g, MAX_UNITS + 1).None?;
  }

  // ---------- memory ----------

  datatype Header = Header(ptr: nat, size: nat)

  type Memory = map<nat, Header>

  function First(bs: seq<Block>, last: nat): nat {
    if bs == [] then last else bs[0].addr
  }

  /** Each block's header holds its size and points to the next block, the last one to `last`. */
  ghost predicate Path(mem: Memory, bs: seq<Block>, last: nat) {
    bs != [] ==>
      && bs[0].addr in mem
      && mem[bs[0].addr] == Header(First(bs[1..], last), bs[0].size)
      && Path(mem, bs[1..], last)
  }

  /** The free list is one cycle through the base. */
  ghost predicate Linked(mem: Memory, ring: seq<Block>) {
    Path(mem, ring, BASE)
  }

  lemma {:induction false} PathAt(mem: Memory, bs: seq<Block>, last: nat, i: nat)
    requires Path(mem, bs, last) && i < |bs|
    ensures bs[i].addr in mem && mem[bs[i].addr] == Header(First(bs[i + 1..], last), bs[i].size)
  {
    if i > 0 {
      PathAt(mem, bs[1..], last, i - 1);
      assert bs[1..][i..] == bs[i + 1..];
    }
  }

  lemma {:induction false} PathConcat(mem: Memory, a: seq<Block>, b: seq<Block>, last: nat)
    ensures Path(mem, a + b, last) <==> Path(mem, a, First(b, last)) && Path(mem, b, last)
  {
    if a == [] {
      assert a + b == b;
    } else {
      assert (a + b)[1..] == a[1..] + b;
      PathConcat(mem, a[1..], b, last);
    }
  }

  ghost predicate SameAt(mem: Memory, mem': Memory, a: nat) {
    a in mem && a in mem' && mem'[a] == mem[a]
  }

  lemma {:induction false} PathFrame(mem: Memory, mem': Memory, bs: seq<Block>, last: nat)
    requires Path(mem, bs, last)
    requires forall i | 0 <= i < |bs| :: SameAt(mem, mem', bs[i].addr)
    ensures Path(mem', bs, last)
  {
    if bs != [] {
      assert SameAt(mem, mem', bs[0].addr);
      PathFrame(mem, mem', bs[1..], last);
    }
  }

  /** A write elsewhere. */
  lemma PathOther(mem: Memory, bs: seq<Block>, last: nat, a: nat, x: Header)
    requires Path(mem, bs, last) && forall i | 0 <= i < |bs| :: bs[i].addr != a
    ensures Path(mem[a := x], bs, last)
  {
    forall i | 0 <= i < |bs|
      ensures SameAt(mem, mem[a := x], bs[i].addr)
    {
      PathAt(mem, bs, last, i);
    }
    PathFrame(mem, mem[a := x], bs, last);
  }

  /** Redirecting and resizing the last block of a path. */
  lemma PathRedirect(mem: Memory, a: seq<Block>, x: Block, last: nat, size: nat, last': nat)
    requires Path(mem, a + [x], last) && Chain(a + [x])
    ensures Path(mem[x.addr := Header(last', size)], a + [Block(x.addr, size)], last')
  {
    var mem' := mem[x.addr := Header(last', size)];
    PathConcat(mem, a, [x], last);
    PathConcat(mem', a, [Block(x.addr, size)], last');
    forall i | 0 <= i < |a|
      ensures a[i].addr != x.addr
    {
      ChainAt(a + [x], i, |a|);
    }
    PathOther(mem, a, x.addr, x.addr, Header(last', size));
  }

  /** The two halves of a ring around position `p`. */
  lemma RingSplit(mem: Memory, ring: seq<Block>, p: nat)
    requires Linked(mem, ring) && p < |ring|
    ensures ring == ring[..p + 1] + ring[p + 1..] && ring[..p + 1] == ring[..p] + [ring[p]]
    ensures Path(mem, ring[..p + 1], First(ring[p + 1..], BASE)) && Path(mem, ring[p + 1..], BASE)
    ensures ring[p].addr in mem && mem[ring[p].addr] == Header(First(ring[p + 1..], BASE), ring[p].size)
  {
    assert ring == ring[..p + 1] + ring[p + 1..];
    PathConcat(mem, ring[..p + 1], ring[p + 1..], BASE);
    PathAt(mem, ring, BASE, p);
  }

  /** What follows the last block `y` of a path is replaced by `rest`, and `y` is resized. */
  lemma Relink(mem: Memory, front: seq<Block>, y: Block, last: nat, size: nat, rest: seq<Block>)
    requires Path(mem, front + [y], last) && Chain(front + [y])
    requires Path(mem, rest, BASE) && forall i | 0 <= i < |rest| :: y.addr < rest[i].addr
    ensures Linked(mem[y.addr := Header(First(rest, BASE), size)], front + ([Block(y.addr, size)] + rest))
  {
    hide Path, Chain;
    var x := Header(First(rest, BASE), size);
    PathRedirect(mem, front, y, last, size, First(rest, BASE));
    PathOther(mem, rest, BASE, y.addr, x);
    PathConcat(mem[y.addr := x], front + [Block(y.addr, size)], rest, BASE);
    assert front + ([Block(y.addr, size)] + rest) == (front + [Block(y.addr, size)]) + rest;
  }

  /** The same at position `p` of the ring. */
  lemma RelinkAt(mem: Memory, ring: seq<Block>, p: nat, size: nat, rest: seq<Block>)
    requires p < |ring| && Linked(mem, ring) && RingOk(ring)
    requires Path(mem, rest, BASE) && forall i | 0 <= i < |rest| :: ring[p].addr < rest[i].addr
    ensures Linked(mem[ring[p].addr := Header(First(rest, BASE), size)],
      ring[..p] + ([Block(ring[p].addr, size)] + rest))
  {
    RingPrefix(ring, p + 1);
    hide RingOk, Chain, Linked, Path;
    RingSplit(mem, ring, p);
    Relink(mem, ring[..p], ring[p], First(ring[p + 1..], BASE), size, rest);
  }

  /** Writing where no listed block has its header leaves the list alone. */
  lemma LinkedFrame(mem: Memory, mem': Memory, ring: seq<Block>)
    requires Linked(mem, ring) && mem.Keys <= mem'.Keys
    requires forall a | a in mem && mem'[a] != mem[a] :: !Listed(ring, a)
    ensures Linked(mem', ring)
  {
    forall i | 0 <= i < |ring|
      ensures SameAt(mem, mem', ring[i].addr)
    {
      PathAt(mem, ring, BASE, i);
      assert Listed(ring, ring[i].addr);
    }
    PathFrame(mem, mem', ring, BASE);
  }

  lemma LinkedCut(mem: Memory, ring: seq<Block>, j: nat)
    requires RingOk(ring) && Linked(mem, ring) && 0 < j < |ring|
    ensures ring[j].addr in mem && ring[j - 1].addr in mem
    ensures Linked(mem[ring[j - 1].addr := Header(mem[ring[j].addr].ptr, mem[ring[j - 1].addr].size)],
      Cut(ring, j, ring[j].size))
  {
    hide Path, Chain;
    var rest := ring[j + 1..];
    RingSplit(mem, ring, j);
    RingSplit(mem, ring, j - 1);
    RingPrefix(ring, j);
    forall i | 0 <= i < |rest|
      ensures ring[j - 1].addr < rest[i].addr
    {
      ChainAt(ring, j - 1, j + 1 + i);
    }
    RelinkAt(mem, ring, j - 1, ring[j - 1].size, rest);
    assert Cut(ring, j, ring[j].size) == ring[..j - 1] + ([ring[j - 1]] + rest);
  }

  lemma LinkedShrink(mem: Memory, ring: seq<Block>, j: nat, n: nat)
    requires RingOk(ring) && Linked(mem, ring) && 0 < j < |ring| && 0 < n < ring[j].size
    ensures ring[j].addr in mem
    ensures Linked(mem[ring[j].addr := Header(mem[ring[j].addr].ptr, ring[j].size - n)], Cut(ring, j, n))
  {
    hide Path, Chain;
    var rest := ring[j + 1..];
    RingSplit(mem, ring, j);
    RingPrefix(ring, j + 1);
    forall i | 0 <= i < |rest|
      ensures ring[j].addr < rest[i].addr
    {
      ChainAt(ring, j, j + 1 + i);
    }
    RelinkAt(mem, ring, j, ring[j].size - n, rest);
    assert Cut(ring, j, n) == ring[..j] + ([Block(ring[j].addr, ring[j].size - n)] + rest);
  }

  /** The header `my_free` writes at the freed block: joined to its upper neighbour or not. */
  ghost function RaisedHeader(mem: Memory, ring: seq<Block>, b: Block, p: nat): Header
    requires p < |ring|
  {
    Header(First(Above(ring, b, p), BASE), Raised(ring, b, p).size)
  }

  lemma LinkedRaise(mem: Memory, ring: seq<Block>, b: Block, p: nat)
    requires RingOk(ring) && Linked(mem, ring) && p < |ring| && ring[p].addr < b.addr && !Listed(ring, b.addr)
    requires p + 1 < |ring| ==> b.addr < ring[p + 1].addr
    ensures Linked(mem[b.addr := RaisedHeader(mem, ring, b, p)], ring)
    ensures Path(mem[b.addr := RaisedHeader(mem, ring, b, p)], [Raised(ring, b, p)] + Above(ring, b, p), BASE)
    ensures forall i | 0 <= i < |Above(ring, b, p)| :: b.addr < Above(ring, b, p)[i].addr
  {
    var x, mid, rest := RaisedHeader(mem, ring, b, p), Raised(ring, b, p), Above(ring, b, p);
    AbovePath(mem, ring, b, p);
    hide RingOk, Chain, Above;
    PathOther(mem, rest, BASE, b.addr, x);
    assert ([mid] + rest)[1..] == rest;
    LinkedFrame(mem, mem[b.addr := x], ring);
  }

  lemma AbovePath(mem: Memory, ring: seq<Block>, b: Block, p: nat)
    requires RingOk(ring) && Linked(mem, ring) && p < |ring| && ring[p].addr < b.addr
    requires p + 1 < |ring| ==> b.addr < ring[p + 1].addr
    ensures Path(mem, Above(ring, b, p), BASE)
    ensures forall i | 0 <= i < |Above(ring, b, p)| :: b.addr < Above(ring, b, p)[i].addr
  {
    hide Chain, Path;
    RingSplit(mem, ring, p);
    if JoinsUpper(ring, b, p) {
      RingSplit(mem, ring, p + 1);
    }
    forall i | 0 <= i < |Above(ring, b, p)|
      ensures b.addr < Above(ring, b, p)[i].addr
    {
      var k := if JoinsUpper(ring, b, p) then p + 2 + i else p + 1 + i;
      ChainAt(ring, p + 1, k);
    }
  }

  /** `mem1` is memory after the header of the freed block was written. */
  lemma LinkedJoinLower(mem1: Memory, ring: seq<Block>, b: Block, p: nat)
    requires RingOk(ring) && Linked(mem1, ring) && p < |ring| && ring[p].End() == b.addr && ring[p].addr < b.addr
    requires Path(mem1, [Raised(ring, b, p)] + Above(ring, b, p), BASE) && Raised(ring, b, p).addr == b.addr
    requires forall i | 0 <= i < |Above(ring, b, p)| :: b.addr < Above(ring, b, p)[i].addr
    ensures ring[p].addr in mem1 && b.addr in mem1
    ensures Linked(mem1[ring[p].addr := Header(mem1[b.addr].ptr, ring[p].size + mem1[b.addr].size)], Insert(ring, b, p))
  {
    var mid, rest := Raised(ring, b, p), Above(ring, b, p);
    RingSplit(mem1, ring, p);
    assert ([mid] + rest)[1..] == rest && ([mid] + rest)[0] == mid;
    assert Path(mem1, rest, BASE);
    hide Path, RingOk, Chain, Above, Raised;
    RelinkAt(mem1, ring, p, ring[p].size + mid.size, rest);
  }

  lemma LinkedKeepLower(mem1: Memory, ring: seq<Block>, b: Block, p: nat)
    requires RingOk(ring) && Linked(mem1, ring) && p < |ring| && ring[p].End() != b.addr && ring[p].addr < b.addr
    requires Path(mem1, [Raised(ring, b, p)] + Above(ring, b, p), BASE) && Raised(ring, b, p).addr == b.addr
    requires forall i | 0 <= i < |Above(ring, b, p)| :: b.addr < Above(ring, b, p)[i].addr
    ensures ring[p].addr in mem1
    ensures Linked(mem1[ring[p].addr := Header(b.addr, ring[p].size)], Insert(ring, b, p))
  {
    var rest := [Raised(ring, b, p)] + Above(ring, b, p);
    hide Path, Chain, RingOk, Above, Raised;
    RingSplit(mem1, ring, p);
    forall i | 0 <= i < |rest|
      ensures ring[p].addr < rest[i].addr
    {
      if i > 0 {
        assert rest[i] == Above(ring, b, p)[i - 1];
      }
    }
    RelinkAt(mem1, ring, p, ring[p].size, rest);
    PrefixStep(ring, p, rest);
  }

  lemma PrefixStep(ring: seq<Block>, p: nat, rest: seq<Block>)
    requires p < |ring|
    ensures ring[..p + 1] + rest == ring[..p] + ([Block(ring[p].addr, ring[p].size)] + rest)
  {
  }

  // ---------- the program ----------

  /** Memory holds the arena: the ring is linked, `freep` points into it, and the header of every
      taken block still holds its size. */
  ghost predicate Represents(mem: Memory, freep: nat, h: Heap) {
    && (forall a: nat :: a in mem <==> a == BASE || a in h.owned)
    && (if freep == NULL then h == EMPTY
        else Linked(mem, h.ring) && h.cur < |h.ring| && freep == h.ring[h.cur].addr)
    && (forall b | b in h.taken :: b.addr in mem && mem[b.addr].size == b.size)
  }

  /** The byte address of a block's payload. */
  function BytesOf(b: Option<Block>): nat {
    match b
    case None => NULL
    case Some(b) => (b.addr + 1) * HEADER_BYTES
  }

  /** The header of the block whose payload starts at byte address `ap`. */
  function UnitOf(ap: nat): nat
  {
    if ap < HEADER_BYTES then NULL else ap / HEADER_BYTES - 1
  }

  /** A payload begins 16 bytes behind its header, and `my_free` finds the header again. */
  lemma PayloadAddress(b: Block)
    ensures BytesOf(Some(b)) == 16 * b.addr + 16 && BytesOf(None) == 0
    ensures UnitOf(BytesOf(Some(b))) == b.addr
  {
  }

  /** The allocator's static data, the memory it can reach, and (ghost) the heap they represent. */
  class Arena {
    var mem: Memory
    var freep: nat
    ghost var heap: Heap

    ghost predicate Represented()
      reads this
    {
      Represents(mem, freep, heap)
    }

    ghost predicate Valid()
      reads this
    {
      HeapOk(heap) && Represented()
    }

    constructor ()
      ensures Valid() && heap == EMPTY && freep == NULL
    {
      mem, freep := map[BASE := Header(NULL, 0)], NULL;
      heap := EMPTY;
      new;
      EmptyOk();
    }

    /** Writing into a payload, as clients do: anywhere in a taken block but at its header. */
    method ClientWrite(a: nat, x: Header, ghost b: Block)
      requires Valid() && b in heap.taken && b.addr < a < b.End()
      modifies this`mem
      ensures Valid() && mem == old(mem)[a := x]
    {
      PayloadApart(heap, b, a);
      LinkedFrame(mem, mem[a := x], heap.ring);
      mem := mem[a := x];
    }

    /** The pointers `my_free` ignores: NULL, misaligned, with an impossible size, or free already. */
    ghost predicate Refused(ap: nat)
      reads this
      requires ap != NULL && ap % HEADER_BYTES == 0 ==> UnitOf(ap) in mem
    {
      || ap == NULL || ap % HEADER_BYTES != 0
      || mem[UnitOf(ap)].size == 0 || mem[UnitOf(ap)].size > MAX_UNITS
      || (freep != NULL && Listed(heap.ring, UnitOf(ap)))
    }

    /** `my_free`.  A refused pointer changes nothing; otherwise the list becomes `Insert`'s, and the
        arena stays valid exactly when the pointer named a taken block.  Nothing is written outside
        the free blocks and the freed block's header. */
    method MyFree(ap: nat)
      requires Valid()
      requires ap != NULL && ap % HEADER_BYTES == 0 ==> UnitOf(ap) in mem
      requires freep == NULL ==> Refused(ap)
      modifies this
      ensures old(Refused(ap)) ==> mem == old(mem) && freep == old(freep) && heap == old(heap)
      ensures !old(Refused(ap)) ==>
                && BASE < UnitOf(ap)
                && heap == Free(old(heap), old(Block(UnitOf(ap), mem[UnitOf(ap)].size))) && Represented()
                && (Valid() <==> old(Block(UnitOf(ap), mem[UnitOf(ap)].size) in heap.taken))
      ensures mem.Keys == old(mem.Keys)
      ensures forall a | a in mem && mem[a] != old(mem[a]) :: a == UnitOf(ap) || Listed(old(heap.ring), a)
      ensures !old(Refused(ap)) && old(Block(UnitOf(ap), mem[UnitOf(ap)].size) in heap.taken) ==>
                var b := Block(UnitOf(ap), old(mem[UnitOf(ap)].size));
                mem[UnitOf(ap)].size == Raised(old(heap.ring), b, Place(old(heap.ring), b.addr)).size
    {
      if ap == NULL {
        return;
      }
      if ap % HEADER_BYTES != 0 {
        return;
      }
      var bp := UnitOf(ap);
      if mem[bp].size == 0 || mem[bp].size > MAX_UNITS {
        return;
      }
      var found := FindListed(bp);
      if found {
        return;
      }
      FreeUnlisted(bp, Block(bp, mem[bp].size));
    }

    /** A client that frees its block twice. */
    method FreeTwice(ghost b: Block, ap: nat)
      requires Valid() && freep != NULL && b in heap.taken && b.size <= MAX_UNITS && BASE < b.addr
      requires ap == (b.addr + 1) * HEADER_BYTES
      modifies this
      ensures heap == FreeAgain(old(heap), b) && Represented()
      ensures Valid() <==> HeapOk(FreeAgain(old(heap), b))
    {
      TakenNotListed(heap, b);
      TakenMapped(mem, freep, heap, b);
      FreeOk(heap, b);
      FreedSize(heap, b);
      hide Free, HeapOk, Represents, Listed, Raised, Place;
      assert UnitOf(ap) == b.addr;
      MyFree(ap);
      MyFree(ap);
    }

    /** `my_malloc`: the heap and the block are those of `Malloc`, the arena stays valid, and no unit
        of a taken block is written.  Its third check, against unsigned overflow of the request plus
        a header, can only succeed after the second has, so it is not repeated here. */
    method MyMalloc(nbytes: nat, grants: seq<Option<nat>>, fill: nat -> Header) returns (ap: nat)
      requires Valid() && GrantsOk(heap.owned, GrowUnits(UnitsFor(nbytes)), grants)
      modifies this
      ensures Valid()
      ensures heap == Malloc(old(heap), nbytes, grants).heap
      ensures ap == BytesOf(Malloc(old(heap), nbytes, grants).block)
      ensures Untouched(old(heap.taken), old(mem), mem)
    {
      hide HeapOk, Represents, Untouched, GrantsOk, Allocate;
      if nbytes == 0 {
        UntouchedRefl(mem, freep, heap);
        return NULL;
      }
      if nbytes > MAXALLOC {
        UntouchedRefl(mem, freep, heap);
        return NULL;
      }
      var nunits := (nbytes + HEADER_BYTES - 1) / HEADER_BYTES + 1;
      ap := FindFit(nunits, grants, fill);
    }

    /** The part of `my_malloc` that walks the ring. */
    method FindFit(nunits: nat, grants: seq<Option<nat>>, fill: nat -> Header) returns (ap: nat)
      requires Valid() && 1 < nunits && GrantsOk(heap.owned, GrowUnits(nunits), grants)
      modifies this
      ensures Valid()
      ensures heap == Allocate(old(heap), nunits, grants).heap
      ensures ap == BytesOf(Allocate(old(heap), nunits, grants).block)
      ensures Untouched(old(heap.taken), old(mem), mem)
    {
      hide HeapOk, Represents, Untouched, Grow, GrantsOk, Take;
      ghost var target := Allocate(heap, nunits, grants);
      UntouchedRefl(mem, freep, heap);
      if freep == NULL {
        SetUpOk(mem, freep, heap);
        mem := mem[BASE := Header(BASE, 0)];
        freep := BASE;
      }
      var prevp := freep;
      LapStarts(mem, freep, heap, nunits);
      var p := mem[prevp].ptr;
      var sb := grants;
      ghost var i, j := heap.cur, Next(heap.ring, heap.cur);
      while true
        invariant Valid() && freep != NULL && GrantsOk(heap.owned, GrowUnits(nunits), sb)
        invariant Same(Allocate(heap, nunits, sb), target)
        invariant InLap(mem, heap, nunits, i, j) && p == heap.ring[j].addr && prevp == heap.ring[i].addr
        invariant Untouched(old(heap.taken), old(mem), mem) && old(heap.taken) <= heap.taken
        decreases |sb|, |heap.ring| - Ahead(heap.ring, Next(heap.ring, heap.cur), j)
      {
        LapStep(mem, freep, heap, nunits, i, j);
        if mem[p].size >= nunits {
          ghost var was, taken := mem, heap.taken;
          ap := Carve(prevp, p, nunits, j);
          UntouchedTrans(old(heap.taken), taken, old(mem), was, mem);
          return;
        }
        if p == freep {
          var grant := if sb == [] then None else sb[0];
          ghost var h := heap;
          GrantUsed(heap.owned, nunits, sb);
          ghost var was := mem;
          p := MyMorecore(nunits, grant, fill);
          StillUntouched(h, old(heap.taken), old(mem), was, mem);
          if p == NULL {
            return NULL;
          }
          AllocateGrown(h, nunits, sb);
          sb := sb[1..];
          prevp := p;
          LapStarts(mem, freep, heap, nunits);
          i := heap.cur;
        } else {
          prevp := p;
          i := j;
        }
        p := mem[p].ptr;
        j := Next(heap.ring, i);
      }
    }

    /** "Big enough": the block at `p` is unlinked, or its tail is cut off. */
    method Carve(prevp: nat, p: nat, nunits: nat, ghost j: nat) returns (ap: nat)
      requires Valid() && freep != NULL && 1 < nunits && 0 < j < |heap.ring| && heap.ring[j].size >= nunits
      requires p == heap.ring[j].addr && prevp == heap.ring[j - 1].addr
      modifies this
      ensures Valid()
      ensures heap == Take(old(heap), j, nunits) && ap == (Tail(old(heap.ring), j, nunits).addr + 1) * HEADER_BYTES
      ensures Untouched(old(heap.taken), old(mem), mem)
    {
      hide HeapOk, Represents, Untouched;
      CarveOk(mem, freep, heap, j, nunits);
      var q := p;
      if mem[p].size == nunits {
        mem := mem[prevp := Header(mem[p].ptr, mem[prevp].size)];
      } else {
        mem := mem[p := mem[p].(size := mem[p].size - nunits)];
        q := p + mem[p].size;
        mem := mem[q := mem[q].(size := nunits)];
      }
      freep := prevp;
      heap := Take(heap, j, nunits);
      return (q + 1) * HEADER_BYTES;
    }

    /** `my_morecore`; `grant` is where sbrk places the new units, `fill` what they contain. */
    method MyMorecore(nu: nat, grant: Option<nat>, fill: nat -> Header) returns (p: nat)
      requires Valid() && freep != NULL && 0 < nu
      requires grant.Some? ==> FreshRegion(heap.owned, Block(grant.value, GrowUnits(nu)))
      modifies this
      ensures Valid() && freep != NULL
      ensures grant.None? ==> p == NULL && mem == old(mem) && freep == old(freep) && heap == old(heap)
      ensures grant.Some? ==> p == freep && heap == Grow(old(heap), Block(grant.value, GrowUnits(nu)))
      ensures old(mem.Keys) <= mem.Keys
      ensures forall a | a in old(mem) && mem[a] != old(mem[a]) :: Listed(old(heap.ring), a)
    {
      var units := if nu < NALLOC then NALLOC else nu;
      if grant.None? {
        return NULL;
      }
      var up := grant.value;
      ghost var b := Block(up, units);
      hide HeapOk, Represents, Free;
      GrowOk(heap, b);
      Acquire(up, units, b, fill);
      FreeRegion(up, b);
      return freep;
    }

    /** `my_free((void *)(up + 1))`; a region too big for it is lost. */
    method FreeRegion(up: nat, ghost b: Block)
      requires Valid() && freep != NULL && b in heap.taken && b.addr == up
      modifies this
      ensures Valid() && freep != NULL
      ensures heap == if b.size > MAX_UNITS then old(heap).(lost := old(heap.lost) + {b}) else Free(old(heap), b)
      ensures old(mem.Keys) == mem.Keys
      ensures forall a | a in old(mem) && mem[a] != old(mem[a]) :: a == up || Listed(old(heap.ring), a)
    {
      TakenNotListed(heap, b);
      TakenMapped(mem, freep, heap, b);
      LostOk(mem, freep, heap, b);
      assert UnitOf((up + 1) * HEADER_BYTES) == up;
      hide Free, HeapOk, Represents, Listed;
      MyFree((up + 1) * HEADER_BYTES);
      if b.size > MAX_UNITS {
        heap := heap.(lost := heap.lost + {b});
      }
    }

    /** sbrk maps the units of the new region and `my_morecore` writes its size. */
    method Acquire(up: nat, units: nat, ghost b: Block, fill: nat -> Header)
      requires Valid() && freep != NULL && b == Block(up, units) && FreshRegion(heap.owned, b)
      modifies this`mem, this`heap
      ensures Valid() && heap == old(heap).(taken := old(heap.taken) + {b}, owned := old(heap.owned) + b.Units())
      ensures up in mem && mem[up].size == units
      ensures old(mem.Keys) <= mem.Keys && forall a | a in old(mem) :: mem[a] == old(mem[a])
    {
      hide HeapOk, Represents, Mapped;
      AcquireOk(heap, b);
      AcquireRepresented(mem, freep, heap, b, fill);
      mem := Mapped(mem, Block(up, units), fill);
      mem := mem[up := mem[up].(size := units)];
      heap := heap.(taken := heap.taken + {b}, owned := heap.owned + b.Units());
    }

    /** The rest of `my_free`, for a block that is not listed yet. */
    method FreeUnlisted(bp: nat, ghost b: Block)
      requires Valid() && freep != NULL && bp in mem && b == Block(bp, mem[bp].size)
      requires 0 < b.size <= MAX_UNITS && !Listed(heap.ring, bp)
      modifies this
      ensures BASE < bp && heap == Free(old(heap), b) && Represented()
      ensures HeapOk(heap) <==> b in old(heap.taken)
      ensures mem.Keys == old(mem.Keys)
      ensures forall a | a in mem && mem[a] != old(mem[a]) :: a == bp || Listed(old(heap.ring), a)
      ensures b in old(heap.taken) ==> mem[bp].size == Raised(old(heap.ring), b, Place(old(heap.ring), bp)).size
    {
      assert BASE < bp by { RingStep(mem, heap.ring, 0); }
      var p := FindPlace(bp);
      FreeRepresented(mem, freep, heap, b);
      FreedHeader(mem, freep, heap, b);
      ghost var freed := Free(heap, b);
      hide HeapOk, Represents, Raised, Listed, LinkIn, Free;
      Link(bp, p);
      freep := p;
      heap := freed;
    }

    /** The last part of `my_free`: the block at `bp` is joined to the upper neighbour or linked to
        it, then the block at `p` is joined or linked to it in turn. */
    method Link(bp: nat, p: nat)
      requires bp in mem && p in mem && (bp + mem[bp].size == mem[p].ptr ==> mem[p].ptr in mem)
      modifies this`mem
      ensures mem == LinkIn(old(mem), bp, p)
    {
      var q := mem[p].ptr;
      if bp + mem[bp].size == q {
        mem := mem[bp := Header(mem[q].ptr, (mem[bp].size + mem[q].size) % UINT_LIMIT)];
      } else {
        mem := mem[bp := Header(q, mem[bp].size)];
      }
      if p + mem[p].size == bp {
        mem := mem[p := Header(mem[bp].ptr, (mem[p].size + mem[bp].size) % UINT_LIMIT)];
      } else {
        mem := mem[p := Header(bp, mem[p].size)];
      }
    }

    /** Is `bp` the head of a listed block?  The first scan of `my_free`. */
    method FindListed(bp: nat) returns (found: bool)
      requires Valid() && freep != NULL
      ensures found <==> Listed(heap.ring, bp)
    {
      ghost var n := |heap.ring|;
      var p := freep;
      ghost var k: nat := heap.cur;
      while true
        invariant k < n && p == heap.ring[k].addr
        invariant Passed(heap.ring, heap.cur, k, bp)
        decreases n - Ahead(heap.ring, heap.cur, k)
      {
        RingStep(mem, heap.ring, k);
        PassedStep(heap.ring, heap.cur, k, bp);
        if p == bp {
          return true;
        }
        if mem[p].ptr == freep {
          return false;
        }
        p := mem[p].ptr;
        k := Next(heap.ring, k);
      }
    }

    /** Where `bp` belongs: the second scan of `my_free`. */
    method FindPlace(bp: nat) returns (p: nat)
      requires Valid() && freep != NULL && BASE < bp && !Listed(heap.ring, bp)
      ensures p == heap.ring[Place(heap.ring, bp)].addr
    {
      ghost var place := Place(heap.ring, bp);
      p := freep;
      ghost var k: nat := heap.cur;
      while true
        invariant k < |heap.ring| && p == heap.ring[k].addr
        decreases Ahead(heap.ring, k, place)
      {
        RingStep(mem, heap.ring, k);
        PlaceUnique(heap.ring, bp, k);
        if p < bp < mem[p].ptr {
          return;
        }
        if p >= mem[p].ptr && (bp > p || bp < mem[p].ptr) {
          return;
        }
        p := mem[p].ptr;
        k := Next(heap.ring, k);
      }
    }
  }

  /** A free block's end is within 32-bit reach, so the sums of sizes in `my_free` do not wrap. */
  lemma RingBounds(h: Heap, i: nat)
    requires HeapOk(h) && i < |h.ring|
    ensures h.ring[i].End() <= BASE + UINT_LIMIT
    ensures i > 0 ==> BASE < h.ring[i].addr && h.ring[i].addr in h.owned
  {
    ChainAt(h.ring, 0, i);
    if i > 0 {
      var u := h.ring[i].End() - 1;
      assert h.ring[i].Has(u) && h.ring[i].Has(h.ring[i].addr);
      assert Covers(h.ring, u) && Covers(h.ring, h.ring[i].addr);
    }
  }

  /** What the joins of `my_free` read: the block after `place`, and sizes that cannot wrap. */
  lemma FreeNeighbours(mem: Memory, h: Heap, b: Block, place: nat)
    requires HeapOk(h) && Linked(mem, h.ring) && b.addr in h.owned && !Listed(h.ring, b.addr)
    requires BASE < b.addr && place == Place(h.ring, b.addr) && 0 < b.size <= MAX_UNITS
    ensures h.ring[place].addr in mem &&
      mem[h.ring[place].addr] == Header(First(h.ring[place + 1..], BASE), h.ring[place].size)
    ensures place + 1 < |h.ring| ==> b.addr < h.ring[place + 1].addr
    ensures var q := mem[h.ring[place].addr].ptr;
      && (b.End() == q <==> JoinsUpper(h.ring, b, place))
      && (b.End() == q ==>
            q in mem && mem[q] == Header(First(Above(h.ring, b, place), BASE), h.ring[place + 1].size)
            && (b.size + mem[q].size) % UINT_LIMIT == Raised(h.ring, b, place).size)
  {
    PlaceBelow(h, b, place);
    RingSplit(mem, h.ring, place);
    hide Path, Linked, Place, Listed;
    if JoinsUpper(h.ring, b, place) {
      UpperHeader(mem, h, b, place);
    }
  }

  lemma PlaceBelow(h: Heap, b: Block, place: nat)
    requires HeapOk(h) && BASE < b.addr && place == Place(h.ring, b.addr) && !Listed(h.ring, b.addr)
    ensures place < |h.ring| && (place + 1 < |h.ring| ==> b.addr < h.ring[place + 1].addr)
    ensures First(h.ring[place + 1..], BASE) == if place + 1 < |h.ring| then h.ring[place + 1].addr else BASE
  {
    hide HeapOk;
    assert Listed(h.ring, h.ring[if place + 1 < |h.ring| then place + 1 else 0].addr);
  }

  /** The header of the upper neighbour. */
  lemma UpperHeader(mem: Memory, h: Heap, b: Block, place: nat)
    requires HeapOk(h) && Linked(mem, h.ring) && place < |h.ring| && JoinsUpper(h.ring, b, place)
    requires b.addr in h.owned && BASE < b.addr && 0 < b.size <= MAX_UNITS
    ensures var q := h.ring[place + 1].addr;
      && q in mem && mem[q] == Header(First(Above(h.ring, b, place), BASE), h.ring[place + 1].size)
      && (b.size + mem[q].size) % UINT_LIMIT == Raised(h.ring, b, place).size
  {
    RingSplit(mem, h.ring, place + 1);
    RingBounds(h, place + 1);
    hide HeapOk, Path, Linked;
  }

  /** The second join, once the header of the freed block has been written. */
  lemma FreeJoins(mem1: Memory, h: Heap, b: Block, place: nat)
    requires HeapOk(h) && Linked(mem1, h.ring) && b.addr in h.owned && !Listed(h.ring, b.addr)
    requires BASE < b.addr && place == Place(h.ring, b.addr) && 0 < b.size <= MAX_UNITS
    requires Path(mem1, [Raised(h.ring, b, place)] + Above(h.ring, b, place), BASE)
    requires forall i | 0 <= i < |Above(h.ring, b, place)| :: b.addr < Above(h.ring, b, place)[i].addr
    requires forall c | c in h.taken && c.addr == b.addr :: c == b
    ensures var p := h.ring[place].addr;
      && p in mem1 && mem1[p].size == h.ring[place].size && b.addr in mem1
      && (p + mem1[p].size == b.addr ==>
            Linked(mem1[p := Header(mem1[b.addr].ptr, (mem1[p].size + mem1[b.addr].size) % UINT_LIMIT)],
              Insert(h.ring, b, place)))
      && (p + mem1[p].size != b.addr ==> Linked(mem1[p := Header(b.addr, mem1[p].size)], Insert(h.ring, b, place)))
  {
    hide HeapOk, Path, Linked, Above, Insert, Raised;
    FreeLower(mem1, h, b, place);
    if h.ring[place].End() == b.addr {
      RaisedBounds(h, b, place);
      LinkedJoinLower(mem1, h.ring, b, place);
    } else {
      LinkedKeepLower(mem1, h.ring, b, place);
    }
  }

  /** The headers at the place and at the block that joins behind it. */
  lemma FreeLower(mem1: Memory, h: Heap, b: Block, place: nat)
    requires HeapOk(h) && Linked(mem1, h.ring) && place < |h.ring|
    requires Path(mem1, [Raised(h.ring, b, place)] + Above(h.ring, b, place), BASE)
    ensures RingOk(h.ring)
    ensures var p := h.ring[place].addr; p in mem1 && mem1[p].size == h.ring[place].size
    ensures var r := Raised(h.ring, b, place); r.addr == b.addr && r.addr in mem1 && mem1[r.addr].size == r.size
  {
    assert RingOk(h.ring) && Raised(h.ring, b, place).addr == b.addr;
    hide HeapOk, RingOk, Path, Linked, Above, Insert, Raised;
    RingSplit(mem1, h.ring, place);
    PathAt(mem1, [Raised(h.ring, b, place)] + Above(h.ring, b, place), BASE, 0);
  }

  lemma RaisedBounds(h: Heap, b: Block, place: nat)
    requires HeapOk(h) && b.addr in h.owned && b.size <= MAX_UNITS && BASE < b.addr
    requires place < |h.ring| && h.ring[place].End() == b.addr
    requires forall c | c in h.taken && c.addr == b.addr :: c == b
    ensures h.ring[place].size + Raised(h.ring, b, place).size < UINT_LIMIT
  {
    RingBounds(h, place);
    AfterFree(h, b, place);
    if JoinsUpper(h.ring, b, place) {
      RingBounds(h, place + 1);
    } else {
      assert b.Has(b.End() - 1) && Held(h.taken, b.End() - 1);
    }
  }

  /** An arena unit right after a free block starts a taken block. */
  lemma AfterFree(h: Heap, b: Block, i: nat)
    requires HeapOk(h) && b.addr in h.owned && BASE < b.addr && i < |h.ring| && h.ring[i].End() == b.addr
    requires forall c | c in h.taken && c.addr == b.addr :: c == b
    ensures b in h.taken
  {
    forall k | 0 <= k < |h.ring|
      ensures !h.ring[k].Has(b.addr)
    {
      ChainAt(h.ring, i, k);
      ChainAt(h.ring, k, i);
    }
    assert Held(h.taken, b.addr);
    var c :| c in h.taken && c.Has(b.addr);
    BlockApart(h.ring, h.taken, c, i);
  }

  /** The header of the freed block after the first join. */
  function JoinUp(mem: Memory, bp: nat, p: nat): Header
    requires bp in mem && p in mem && (bp + mem[bp].size == mem[p].ptr ==> mem[p].ptr in mem)
  {
    var q := mem[p].ptr;
    if bp + mem[bp].size == q then Header(mem[q].ptr, (mem[bp].size + mem[q].size) % UINT_LIMIT)
    else Header(q, mem[bp].size)
  }

  /** Memory after both joins. */
  function LinkIn(mem: Memory, bp: nat, p: nat): Memory
    requires bp in mem && p in mem && (bp + mem[bp].size == mem[p].ptr ==> mem[p].ptr in mem)
  {
    var mem1 := mem[bp := JoinUp(mem, bp, p)];
    mem1[p := if p + mem1[p].size == bp then Header(mem1[bp].ptr, (mem1[p].size + mem1[bp].size) % UINT_LIMIT)
              else Header(bp, mem1[p].size)]
  }

  /** The two joins reach mapped headers only, and link the ring that `Insert` gives. */
  lemma LinkJoins(mem: Memory, h: Heap, b: Block, place: nat)
    requires HeapOk(h) && Linked(mem, h.ring) && b.addr in h.owned && !Listed(h.ring, b.addr)
    requires BASE < b.addr && place == Place(h.ring, b.addr) && 0 < b.size <= MAX_UNITS
    requires b.addr in mem && mem[b.addr].size == b.size
    requires forall c | c in h.taken && c.addr == b.addr :: c == b
    ensures var p := h.ring[place].addr;
      && p in mem && (b.addr + mem[b.addr].size == mem[p].ptr ==> mem[p].ptr in mem)
      && Linked(LinkIn(mem, b.addr, p), Insert(h.ring, b, place))
  {
    assert RingOk(h.ring);
    hide HeapOk, Linked, Path, Above, RingOk, Raised, Insert;
    RaisedIsJoinUp(mem, h, b, place);
    LinkedRaise(mem, h.ring, b, place) by { FreeNeighbours(mem, h, b, place); }
    hide JoinUp;
    FreeJoins(mem[b.addr := JoinUp(mem, b.addr, h.ring[place].addr)], h, b, place);
  }

  lemma LinkOk(mem: Memory, h: Heap, b: Block, place: nat)
    requires HeapOk(h) && Linked(mem, h.ring) && b.addr in h.owned && !Listed(h.ring, b.addr)
    requires BASE < b.addr && place == Place(h.ring, b.addr) && 0 < b.size <= MAX_UNITS
    requires b.addr in mem && mem[b.addr].size == b.size
    requires forall c | c in h.taken :: c.addr in mem && mem[c.addr].size == c.size
    requires forall c | c in h.taken && c.addr == b.addr :: c == b
    ensures var p := h.ring[place].addr;
      && p in mem && (b.addr + mem[b.addr].size == mem[p].ptr ==> mem[p].ptr in mem)
      && Linked(LinkIn(mem, b.addr, p), Free(h, b).ring)
      && LinkIn(mem, b.addr, p).Keys == mem.Keys
      && (forall a | a in mem && LinkIn(mem, b.addr, p)[a] != mem[a] :: a == b.addr || Listed(h.ring, a))
      && (forall c | c in h.taken - {b} :: LinkIn(mem, b.addr, p)[c.addr] == mem[c.addr])
      && place < |Free(h, b).ring| && Free(h, b).ring[place].addr == p
  {
    var p := h.ring[place].addr;
    LinkJoins(mem, h, b, place);
    InsertPlace(h.ring, b, place);
    hide HeapOk, Linked, Path, Above, RingOk, Raised, Insert, JoinUp;
    assert Listed(h.ring, p);
    TakenHeadersKept(h, b, mem, LinkIn(mem, b.addr, p));
  }

  /** What the freed block's header holds afterwards. */
  lemma HeaderAfterFree(mem: Memory, h: Heap, b: Block, place: nat)
    requires HeapOk(h) && Linked(mem, h.ring) && b.addr in h.owned && !Listed(h.ring, b.addr)
    requires BASE < b.addr && place == Place(h.ring, b.addr) && 0 < b.size <= MAX_UNITS
    requires b.addr in mem && mem[b.addr].size == b.size
    ensures var p := h.ring[place].addr;
      && p in mem && (b.addr + mem[b.addr].size == mem[p].ptr ==> mem[p].ptr in mem)
      && b.addr in LinkIn(mem, b.addr, p)
      && LinkIn(mem, b.addr, p)[b.addr].size == Raised(h.ring, b, place).size
  {
    RaisedIsJoinUp(mem, h, b, place);
  }

  lemma FreedHeader(mem: Memory, freep: nat, h: Heap, b: Block)
    requires HeapOk(h) && Represents(mem, freep, h) && freep != NULL
    requires b.addr in mem && mem[b.addr].size == b.size && 0 < b.size <= MAX_UNITS && BASE < b.addr
    requires !Listed(h.ring, b.addr)
    ensures var p := h.ring[Place(h.ring, b.addr)].addr;
      && p in mem && (b.addr + mem[b.addr].size == mem[p].ptr ==> mem[p].ptr in mem)
      && b.addr in LinkIn(mem, b.addr, p)
      && LinkIn(mem, b.addr, p)[b.addr].size == Raised(h.ring, b, Place(h.ring, b.addr)).size
  {
    assert |h.ring| > 0 && h.ring[0].addr < b.addr;
    hide HeapOk, Linked, Listed, LinkIn, Raised;
    HeaderAfterFree(mem, h, b, Place(h.ring, b.addr));
  }

  lemma InsertPlace(ring: seq<Block>, b: Block, place: nat)
    requires place < |ring| && ring[place].addr < b.addr
    ensures place < |Insert(ring, b, place)| && Insert(ring, b, place)[place].addr == ring[place].addr
  {
  }

  /** The first call makes the base a ring of its own. */
  lemma SetUpOk(mem: Memory, freep: nat, h: Heap)
    requires HeapOk(h) && Represents(mem, freep, h) && freep == NULL
    ensures Represents(mem[BASE := Header(BASE, 0)], BASE, h) && h.taken == {}
    ensures Untouched(h.taken, mem, mem[BASE := Header(BASE, 0)])
  {
    var mem' := mem[BASE := Header(BASE, 0)];
    assert h.ring == [Block(BASE, 0)] && h.ring[1..] == [];
    assert Path(mem', h.ring[1..], BASE);
    assert Linked(mem', h.ring);
  }

  lemma UntouchedTrans(few: set<Block>, taken: set<Block>, mem: Memory, mem1: Memory, mem2: Memory)
    requires few <= taken && Untouched(few, mem, mem1) && Untouched(taken, mem1, mem2)
    ensures Untouched(few, mem, mem2)
  {
    forall c, a: nat | c in few && c.Has(a)
      ensures SameAt(mem, mem2, a)
    {
      assert SameAt(mem, mem1, a) && SameAt(mem1, mem2, a);
    }
  }

  lemma StillUntouched(h: Heap, taken: set<Block>, was: Memory, mem: Memory, mem': Memory)
    requires HeapOk(h) && taken <= h.taken && Untouched(taken, was, mem) && mem.Keys <= mem'.Keys
    requires forall a | a in mem && mem'[a] != mem[a] :: Listed(h.ring, a)
    ensures Untouched(taken, was, mem')
  {
    forall c, a: nat | c in taken && c.Has(a)
      ensures SameAt(was, mem', a)
    {
      assert SameAt(was, mem, a);
      UnitNotListed(h, c, a);
    }
  }

  lemma UnitNotListed(h: Heap, c: Block, a: nat)
    requires HeapOk(h) && c in h.taken && c.Has(a)
    ensures !Listed(h.ring, a)
  {
    if a == c.addr {
      TakenNotListed(h, c);
    } else {
      PayloadApart(h, c, a);
    }
  }

  /** `p` is at block `j`, one after block `i`, and the blocks passed in this lap are too small. */
  ghost predicate InLap(mem: Memory, h: Heap, n: nat, i: nat, j: nat) {
    && h.cur < |h.ring| && i < |h.ring| && j == Next(h.ring, i)
    && h.ring[i].addr in mem && mem[h.ring[i].addr].ptr == h.ring[j].addr
    && Ahead(h.ring, Next(h.ring, h.cur), j) < |h.ring|
    && FirstFit(h, n) == Scan(h.ring, j, |h.ring| - Ahead(h.ring, Next(h.ring, h.cur), j), n)
  }

  lemma LapStarts(mem: Memory, freep: nat, h: Heap, n: nat)
    requires HeapOk(h) && Represents(mem, freep, h) && freep != NULL
    ensures h.cur < |h.ring| && freep == h.ring[h.cur].addr && InLap(mem, h, n, h.cur, Next(h.ring, h.cur))
  {
    hide HeapOk, Represents, FirstFit, Scan;
    CurHeader(mem, freep, h);
    LapWhole(h, n);
  }

  lemma CurHeader(mem: Memory, freep: nat, h: Heap)
    requires HeapOk(h) && Represents(mem, freep, h) && freep != NULL
    ensures h.cur < |h.ring| && freep == h.ring[h.cur].addr
    ensures freep in mem && mem[freep].ptr == h.ring[Next(h.ring, h.cur)].addr
  {
    RingStep(mem, h.ring, h.cur);
  }

  lemma LapWhole(h: Heap, n: nat)
    requires h.cur < |h.ring|
    ensures var start := Next(h.ring, h.cur);
      Ahead(h.ring, start, start) == 0 && FirstFit(h, n) == Scan(h.ring, start, |h.ring|, n)
  {
  }

  /** At block `j`: it fits, or the lap ends here, or the walk goes on to the next block. */
  lemma LapStep(mem: Memory, freep: nat, h: Heap, n: nat, i: nat, j: nat)
    requires HeapOk(h) && Represents(mem, freep, h) && freep != NULL && InLap(mem, h, n, i, j) && n > 0
    ensures h.ring[j].addr in mem && mem[h.ring[j].addr].size == h.ring[j].size
    ensures h.ring[j].size >= n ==> FirstFit(h, n) == Some(j) && j > 0 && i == j - 1
    ensures h.ring[j].size < n && h.ring[j].addr == freep ==> FirstFit(h, n) == None
    ensures h.ring[j].size < n && h.ring[j].addr != freep ==> LapGoesOn(mem, h, n, j)
  {
    RingStep(mem, h.ring, j);
    RingHeads(h.ring, j, h.cur);
    LapCases(mem, h, n, i, j);
  }

  ghost predicate LapGoesOn(mem: Memory, h: Heap, n: nat, j: nat)
    requires h.cur < |h.ring| && j < |h.ring|
  {
    && InLap(mem, h, n, j, Next(h.ring, j))
    && Ahead(h.ring, Next(h.ring, h.cur), Next(h.ring, j)) == Ahead(h.ring, Next(h.ring, h.cur), j) + 1
  }

  lemma LapCases(mem: Memory, h: Heap, n: nat, i: nat, j: nat)
    requires InLap(mem, h, n, i, j) && n > 0 && h.ring[0].size == 0
    requires h.ring[j].addr in mem && mem[h.ring[j].addr].ptr == h.ring[Next(h.ring, j)].addr
    ensures h.ring[j].size >= n ==> FirstFit(h, n) == Some(j) && j > 0 && i == j - 1
    ensures h.ring[j].size < n && j == h.cur ==> FirstFit(h, n) == None
    ensures h.ring[j].size < n && j != h.cur ==> LapGoesOn(mem, h, n, j)
  {
    hide Scan;
    LapScan(h.ring, h.cur, j, n);
  }

  lemma RingHeads(ring: seq<Block>, i: nat, j: nat)
    requires RingOk(ring) && i < |ring| && j < |ring|
    ensures ring[i].addr == ring[j].addr <==> i == j
  {
    ChainAt(ring, i, j);
    ChainAt(ring, j, i);
  }

  /** One step of a scan that started after `cur`. */
  lemma LapScan(ring: seq<Block>, cur: nat, j: nat, n: nat)
    requires cur < |ring| && j < |ring|
    ensures var start := Next(ring, cur);
      var left := |ring| - Ahead(ring, start, j);
      && left >= 1 && (j == cur <==> left == 1)
      && (ring[j].size >= n ==> Scan(ring, j, left, n) == Some(j))
      && (ring[j].size < n && j == cur ==> Scan(ring, j, left, n) == None)
      && (ring[j].size < n && j != cur ==>
            && Ahead(ring, start, Next(ring, j)) == Ahead(ring, start, j) + 1
            && Scan(ring, j, left, n) == Scan(ring, Next(ring, j), left - 1, n))
  {
  }

  ghost predicate Same(a: Outcome, b: Outcome) {
    a.heap == b.heap && a.block == b.block
  }

  lemma GrantUsed(owned: set<int>, n: nat, grants: seq<Option<nat>>)
    requires GrantsOk(owned, GrowUnits(n), grants)
    ensures grants != [] && grants[0].Some? ==> FreshRegion(owned, Block(grants[0].value, GrowUnits(n)))
  {
  }

  lemma AllocateGrown(h: Heap, n: nat, grants: seq<Option<nat>>)
    requires HeapOk(h) && 0 < n && GrantsOk(h.owned, GrowUnits(n), grants)
    requires FirstFit(h, n) == None && grants != [] && grants[0].Some?
    ensures var b := Block(grants[0].value, GrowUnits(n));
      && FreshRegion(h.owned, b) && HeapOk(Grow(h, b)) && h.taken <= Grow(h, b).taken
      && GrantsOk(Grow(h, b).owned, GrowUnits(n), grants[1..])
      && Same(Allocate(h, n, grants), Allocate(Grow(h, b), n, grants[1..]))
  {
    GrowOk(h, Block(grants[0].value, GrowUnits(n)));
  }

  lemma FreeRepresented(mem: Memory, freep: nat, h: Heap, b: Block)
    requires HeapOk(h) && Represents(mem, freep, h) && freep != NULL
    requires b.addr in mem && mem[b.addr].size == b.size && 0 < b.size <= MAX_UNITS && BASE < b.addr &&
      !Listed(h.ring, b.addr)
    ensures var p := h.ring[Place(h.ring, b.addr)].addr;
      && p in mem && (b.addr + mem[b.addr].size == mem[p].ptr ==> mem[p].ptr in mem)
      && Represents(LinkIn(mem, b.addr, p), p, Free(h, b)) && p != NULL
      && (HeapOk(Free(h, b)) <==> b in h.taken)
      && LinkIn(mem, b.addr, p).Keys == mem.Keys
      && (forall a | a in mem && LinkIn(mem, b.addr, p)[a] != mem[a] :: a == b.addr || Listed(h.ring, a))
  {
    FreeOkExactly(h, b);
    LinkOk(mem, h, b, Place(h.ring, b.addr));
    ChainAt(h.ring, 0, Place(h.ring, b.addr));
  }

  /** Memory after sbrk has mapped the units of `b`, filled with `fill`. */
  function Mapped(mem: Memory, b: Block, fill: nat -> Header): (mem': Memory)
    ensures forall a: nat :: a in mem' <==> a in mem || b.Has(a)
    ensures forall a: nat | a in mem && !b.Has(a) :: mem'[a] == mem[a]
  {
    mem + map a: nat | b.addr <= a < b.addr + b.size :: fill(a)
  }

  lemma AcquireRepresented(mem: Memory, freep: nat, h: Heap, b: Block, fill: nat -> Header)
    requires HeapOk(h) && Represents(mem, freep, h) && freep != NULL && FreshRegion(h.owned, b)
    ensures var mem1 := Mapped(mem, b, fill);
      && b.addr in mem1 && (forall a | a in mem :: a in mem1 && mem1[a] == mem[a] && a != b.addr)
      && Represents(mem1[b.addr := mem1[b.addr].(size := b.size)], freep,
        h.(taken := h.taken + {b}, owned := h.owned + b.Units()))
  {
    var mem1 := Mapped(mem, b, fill);
    var mem2 := mem1[b.addr := mem1[b.addr].(size := b.size)];
    hide HeapOk;
    MappedFrame(mem, freep, h, b, fill);
    hide FreshRegion, Linked, Mapped;
    LinkedFrame(mem, mem2, h.ring);
    HeadersWith(mem, mem2, h.taken, b);
  }

  /** The new units are none of the mapped ones. */
  lemma MappedFrame(mem: Memory, freep: nat, h: Heap, b: Block, fill: nat -> Header)
    requires Represents(mem, freep, h) && freep != NULL && FreshRegion(h.owned, b)
    ensures b.addr in Mapped(mem, b, fill)
    ensures forall a | a in mem :: a != b.addr && a in Mapped(mem, b, fill) && Mapped(mem, b, fill)[a] == mem[a]
    ensures forall a: nat :: a in Mapped(mem, b, fill) <==> a in mem || a in b.Units()
  {
    hide Linked;
    assert b.Has(b.addr);
    assert forall a: nat | a in mem :: !b.Has(a);
  }

  lemma TakenMapped(mem: Memory, freep: nat, h: Heap, b: Block)
    requires HeapOk(h) && Represents(mem, freep, h) && b in h.taken
    ensures b.addr in mem && mem[b.addr].size == b.size > 0
  {
    hide RingOk, Tiles, Apart, Linked;
  }

  /** A taken block may be counted as lost. */
  lemma LostOk(mem: Memory, freep: nat, h: Heap, b: Block)
    requires HeapOk(h) && Represents(mem, freep, h) && b in h.taken && freep != NULL
    ensures var h1 := h.(lost := h.lost + {b}); HeapOk(h1) && Represents(mem, freep, h1)
  {
    hide RingOk, Apart, Linked;
  }

  lemma HeadersWith(mem: Memory, mem': Memory, taken: set<Block>, b: Block)
    requires forall c | c in taken :: c.addr in mem && mem[c.addr].size == c.size
    requires forall a | a in mem :: a in mem' && mem'[a] == mem[a]
    requires b.addr in mem' && mem'[b.addr].size == b.size
    ensures forall c | c in taken + {b} :: c.addr in mem' && mem'[c.addr].size == c.size
  {
  }

  /** No unit of a taken block has been written. */
  ghost predicate Untouched(taken: set<Block>, mem: Memory, mem': Memory) {
    forall c, a: nat | c in taken && c.Has(a) :: SameAt(mem, mem', a)
  }

  lemma UntouchedRefl(mem: Memory, freep: nat, h: Heap)
    requires HeapOk(h) && Represents(mem, freep, h)
    ensures Untouched(h.taken, mem, mem)
  {
    forall c, a: nat | c in h.taken && c.Has(a)
      ensures a in mem
    {
      assert Held(h.taken, a);
    }
  }

  /** Memory and free list after a block has been carved from block `j`. */
  ghost function Carving(mem: Memory, ring: seq<Block>, j: nat, n: nat): Memory
    requires 0 < j < |ring| && 0 < n <= ring[j].size
    requires ring[j].addr in mem && ring[j - 1].addr in mem && Tail(ring, j, n).addr in mem
  {
    if ring[j].size == n then mem[ring[j - 1].addr := Header(mem[ring[j].addr].ptr, mem[ring[j - 1].addr].size)]
    else
      var mem1 := mem[ring[j].addr := Header(mem[ring[j].addr].ptr, ring[j].size - n)];
      mem1[Tail(ring, j, n).addr := mem1[Tail(ring, j, n).addr].(size := n)]
  }

  lemma CarveOk(mem: Memory, freep: nat, h: Heap, j: nat, n: nat)
    requires HeapOk(h) && Represents(mem, freep, h) && freep != NULL
    requires 0 < j < |h.ring| && 0 < n <= h.ring[j].size
    ensures h.ring[j].addr in mem && mem[h.ring[j].addr].size == h.ring[j].size
    ensures h.ring[j - 1].addr in mem && Tail(h.ring, j, n).addr in mem
    ensures HeapOk(Take(h, j, n)) && Represents(Carving(mem, h.ring, j, n), h.ring[j - 1].addr, Take(h, j, n))
    ensures Untouched(h.taken, mem, Carving(mem, h.ring, j, n))
  {
    TakeOk(h, j, n);
    CarveAddresses(mem, freep, h, j, n);
    CarveUntouched(mem, freep, h, j, n);
    RingStep(mem, h.ring, j);
    CarveHeaders(mem, h, j, n);
    CarveLinked(mem, h.ring, j, n);
    hide HeapOk, Linked, Untouched, RingOk, Cut, Carving;
    CarveRepresents(mem, Carving(mem, h.ring, j, n), freep, h, j, n);
  }

  lemma CarveRepresents(mem: Memory, mem': Memory, freep: nat, h: Heap, j: nat, n: nat)
    requires Represents(mem, freep, h) && 0 < j < |h.ring| && 0 < n <= h.ring[j].size
    requires mem'.Keys == mem.Keys && Linked(mem', Cut(h.ring, j, n)) && h.ring[j - 1].addr in mem
    requires j - 1 < |Cut(h.ring, j, n)| && Cut(h.ring, j, n)[j - 1] == h.ring[j - 1]
    requires Tail(h.ring, j, n).addr in mem && mem'[Tail(h.ring, j, n).addr].size == n
    requires forall b | b in h.taken :: b.addr in mem && mem'[b.addr].size == b.size
    requires h.ring[j - 1].addr != NULL
    ensures Represents(mem', h.ring[j - 1].addr, Take(h, j, n))
  {
    hide Linked, Cut;
  }

  lemma CarveLinked(mem: Memory, ring: seq<Block>, j: nat, n: nat)
    requires RingOk(ring) && Linked(mem, ring) && 0 < j < |ring| && 0 < n <= ring[j].size
    requires ring[j].addr in mem && ring[j - 1].addr in mem && Tail(ring, j, n).addr in mem
    requires n < ring[j].size ==> !Listed(Cut(ring, j, n), Tail(ring, j, n).addr)
    ensures Linked(Carving(mem, ring, j, n), Cut(ring, j, n))
  {
    hide Linked, RingOk;
    LinkedCut(mem, ring, j);
    if n < ring[j].size {
      LinkedShrink(mem, ring, j, n);
      var mem1 := mem[ring[j].addr := Header(mem[ring[j].addr].ptr, ring[j].size - n)];
      LinkedFrame(mem1, Carving(mem, ring, j, n), Cut(ring, j, n));
    }
  }

  lemma CarveHeaders(mem: Memory, h: Heap, j: nat, n: nat)
    requires RingOk(h.ring) && 0 < j < |h.ring| && 0 < n <= h.ring[j].size
    requires h.ring[j].addr in mem && h.ring[j - 1].addr in mem && Tail(h.ring, j, n).addr in mem
    requires mem[h.ring[j].addr].size == h.ring[j].size
    requires Untouched(h.taken, mem, Carving(mem, h.ring, j, n))
    requires forall b | b in h.taken :: b.size > 0 && b.addr in mem && mem[b.addr].size == b.size
    ensures Carving(mem, h.ring, j, n).Keys == mem.Keys
    ensures forall b | b in h.taken :: Carving(mem, h.ring, j, n)[b.addr].size == b.size
    ensures Carving(mem, h.ring, j, n)[Tail(h.ring, j, n).addr].size == n
    ensures j - 1 < |Cut(h.ring, j, n)| && Cut(h.ring, j, n)[j - 1] == h.ring[j - 1]
  {
    RingHeads(h.ring, j - 1, j);
    forall b | b in h.taken
      ensures Carving(mem, h.ring, j, n)[b.addr].size == b.size
    {
      assert b.Has(b.addr) && SameAt(mem, Carving(mem, h.ring, j, n), b.addr);
    }
  }

  lemma CarveAddresses(mem: Memory, freep: nat, h: Heap, j: nat, n: nat)
    requires HeapOk(h) && Represents(mem, freep, h) && freep != NULL
    requires 0 < j < |h.ring| && 0 < n <= h.ring[j].size
    ensures RingOk(h.ring) && Linked(mem, h.ring)
    ensures Tail(h.ring, j, n).addr in mem && Tail(h.ring, j, n).addr in h.owned && BASE < Tail(h.ring, j, n).addr
    ensures h.ring[j].addr in mem && h.ring[j - 1].addr in mem && h.ring[j - 1].addr != NULL
    ensures n < h.ring[j].size ==> !Listed(Cut(h.ring, j, n), Tail(h.ring, j, n).addr)
  {
    var t := Tail(h.ring, j, n);
    assert h.ring[j].Has(t.addr) && Covers(h.ring, t.addr);
    RingStep(mem, h.ring, j);
    RingStep(mem, h.ring, j - 1);
    hide HeapOk, Linked, Chain, Path;
    if n < h.ring[j].size { CutNotListed(h.ring, j, n); }
  }

  /** A tail that is cut off heads no listed block. */
  lemma CutNotListed(ring: seq<Block>, j: nat, n: nat)
    requires RingOk(ring) && 0 < j < |ring| && 0 < n < ring[j].size
    ensures !Listed(Cut(ring, j, n), Tail(ring, j, n).addr)
  {
    var t, cut := Tail(ring, j, n), Cut(ring, j, n);
    forall i | 0 <= i < |cut| ensures cut[i].addr != t.addr {
      assert cut[i].addr == ring[i].addr;
      ChainAt(ring, j, i);
      ChainAt(ring, i, j);
    }
  }

  /** Carving writes only units that were free. */
  lemma CarveUntouched(mem: Memory, freep: nat, h: Heap, j: nat, n: nat)
    requires HeapOk(h) && Represents(mem, freep, h) && freep != NULL
    requires 0 < j < |h.ring| && 0 < n <= h.ring[j].size
    requires h.ring[j].addr in mem && h.ring[j - 1].addr in mem && Tail(h.ring, j, n).addr in mem
    ensures Untouched(h.taken, mem, Carving(mem, h.ring, j, n))
  {
    forall c, a: nat | c in h.taken && c.Has(a)
      ensures SameAt(mem, Carving(mem, h.ring, j, n), a)
    {
      UnitNotListed(h, c, a);
      assert Held(h.taken, a);
      CoversAt(h.ring, j, a);
    }
  }

  lemma RaisedIsJoinUp(mem: Memory, h: Heap, b: Block, place: nat)
    requires HeapOk(h) && Linked(mem, h.ring) && b.addr in h.owned && !Listed(h.ring, b.addr)
    requires BASE < b.addr && place == Place(h.ring, b.addr) && 0 < b.size <= MAX_UNITS
    requires b.addr in mem && mem[b.addr].size == b.size
    ensures var p := h.ring[place].addr;
      && p in mem && (b.addr + mem[b.addr].size == mem[p].ptr ==> mem[p].ptr in mem)
      && JoinUp(mem, b.addr, p) == RaisedHeader(mem, h.ring, b, place)
  {
    FreeNeighbours(mem, h, b, place);
  }

  /** `my_free` writes only the headers of `b` and of listed blocks, never that of a block still taken. */
  lemma TakenHeadersKept(h: Heap, b: Block, mem: Memory, mem': Memory)
    requires HeapOk(h) && mem.Keys == mem'.Keys
    requires forall a | a in mem && mem'[a] != mem[a] :: a == b.addr || Listed(h.ring, a)
    requires forall c | c in h.taken :: c.addr in mem && mem[c.addr].size == c.size
    requires b.addr in mem && mem[b.addr].size == b.size
    ensures forall c | c in h.taken - {b} :: c.addr in mem' && mem'[c.addr] == mem[c.addr]
  {
    forall c | c in h.taken - {b}
      ensures !Listed(h.ring, c.addr)
    {
      TakenNotListed(h, c);
    }
  }

  lemma TakenNotListed(h: Heap, c: Block)
    requires HeapOk(h) && c in h.taken
    ensures !Listed(h.ring, c.addr) && BASE < c.addr && c.addr in h.owned
  {
    PlaceFits(h, c);
    assert c.Has(c.addr) && Held(h.taken, c.addr);
    forall i | 0 <= i < |h.ring|
      ensures h.ring[i].addr != c.addr
    {
      BlockApart(h.ring, h.taken, c, i);
    }
  }

  lemma RingStep(mem: Memory, ring: seq<Block>, k: nat)
    requires RingOk(ring) && Linked(mem, ring) && k < |ring|
    ensures ring[k].addr in mem && mem[ring[k].addr] == Header(ring[Next(ring, k)].addr, ring[k].size)
  {
    PathAt(mem, ring, BASE, k);
  }

  /** None of the blocks from `cur` up to but not including `k` has its head at `bp`. */
  ghost predicate Passed(ring: seq<Block>, cur: nat, k: nat, bp: nat) {
    forall i | 0 <= i < |ring| && Ahead(ring, cur, i) < Ahead(ring, cur, k) :: ring[i].addr != bp
  }

  /** One more block seen: either the lap is not over, or every block has been visited. */
  lemma PassedStep(ring: seq<Block>, cur: nat, k: nat, bp: nat)
    requires RingOk(ring) && cur < |ring| && k < |ring| && Passed(ring, cur, k, bp)
    ensures ring[k].addr == bp ==> Listed(ring, bp)
    ensures ring[k].addr != bp && ring[Next(ring, k)].addr == ring[cur].addr ==> !Listed(ring, bp)
    ensures ring[k].addr != bp && ring[Next(ring, k)].addr != ring[cur].addr ==>
      Passed(ring, cur, Next(ring, k), bp) && Ahead(ring, cur, Next(ring, k)) == Ahead(ring, cur, k) + 1
    ensures Ahead(ring, cur, k) < |ring|
  {
    ChainAt(ring, Next(ring, k), cur);
    ChainAt(ring, cur, Next(ring, k));
  }

  lemma PlaceUnique(ring: seq<Block>, bp: nat, k: nat)
    requires RingOk(ring) && BASE < bp && !Listed(ring, bp) && k < |ring|
    ensures k == Place(ring, bp) <==>
      ring[k].addr < bp && (k + 1 < |ring| ==> bp < ring[k + 1].addr)
  {
    var p := Place(ring, bp);
    assert Listed(ring, ring[if p + 1 < |ring| then p + 1 else 0].addr);
    ChainAt(ring, p, k);
    ChainAt(ring, k, p);
    if p + 1 < |ring| {
      ChainAt(ring, p + 1, k);
    }
    if k + 1 < |ring| {
      ChainAt(ring, k + 1, p);
    }
  }

  lemma PayloadApart(h: Heap, b: Block, a: nat)
    requires HeapOk(h) && b in h.taken && b.addr < a < b.End()
    ensures a in h.owned && !Listed(h.ring, a)
    ensures forall c | c in h.taken :: c.addr != a
  {
    assert b.Has(a) && Held(h.taken, a);
    assert forall c | c in h.taken && c.addr == a :: c.Has(a);
    forall i | 0 <= i < |h.ring|
      ensures h.ring[i].addr != a
    {
      BlockApart(h.ring, h.taken, b, i);
    }
  }
}
