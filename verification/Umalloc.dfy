/** The user-level storage allocator (umalloc.c). Addresses count Header units, and `base` lies
    below the heap. Memory is a map from addresses to headers; the free list is the circular
    list through `ptr`, and the ghost field `free` spells it out in address order. */
module Umalloc {

  const BASE := 1
  const NULL := 0
  const UNIT := 8 // sizeof(Header)
  const MINCORE := 4096

  datatype Header = Header(ptr: int, size: int)
  type Memory = map<int, Header>

  datatype Block = Block(addr: int, size: int)

  // ----- geometry of the free list

  /** Address order with a gap between neighbours: disjoint and fully coalesced. The first
      block is `base`, of size 0. */
  predicate Ordered(bs: seq<Block>) {
    && |bs| >= 1 && bs[0] == Block(BASE, 0)
    && (forall i :: 1 <= i < |bs| ==> bs[i].size >= 1)
    && (forall i, j :: 0 <= i < j < |bs| ==> bs[i].addr + bs[i].size < bs[j].addr)
  }

  predicate Holds(b: Block, a: int) {
    b.addr <= a < b.addr + b.size
  }

  /** Some block of bs holds unit a. */
  predicate InBlocks(bs: seq<Block>, a: int) {
    exists i :: 0 <= i < |bs| && Holds(bs[i], a)
  }

  /** b starts in the gap after block t, and ends in it. */
  predicate Gap(bs: seq<Block>, t: nat, b: Block) {
    && t < |bs| && b.size >= 1
    && bs[t].addr + bs[t].size <= b.addr && bs[t].addr < b.addr
    && (t + 1 < |bs| ==> b.addr + b.size <= bs[t+1].addr)
  }

  predicate MeetsLower(bs: seq<Block>, t: nat, b: Block)
    requires t < |bs|
  {
    bs[t].addr + bs[t].size == b.addr
  }

  predicate MeetsUpper(bs: seq<Block>, t: nat, b: Block) {
    t + 1 < |bs| && b.addr + b.size == bs[t+1].addr
  }

  /** b grown by the block above it, if it meets that one. */
  function Grown(bs: seq<Block>, t: nat, b: Block): Block {
    if MeetsUpper(bs, t, b) then Block(b.addr, b.size + bs[t+1].size) else b
  }

  /** The free list with b put into the gap after block t and joined to the neighbours it meets. */
  function Put(bs: seq<Block>, t: nat, b: Block): (r: seq<Block>)
    requires t < |bs|
  {
    var skip := if MeetsUpper(bs, t, b) then 1 else 0;
    if MeetsLower(bs, t, b) then
      seq(|bs| - skip, k requires 0 <= k < |bs| - skip =>
        if k < t then bs[k]
        else if k == t then Block(bs[t].addr, bs[t].size + Grown(bs, t, b).size)
        else bs[k + skip])
    else
      seq(|bs| + 1 - skip, k requires 0 <= k < |bs| + 1 - skip =>
        if k <= t then bs[k] else if k == t + 1 then Grown(bs, t, b) else bs[k - 1 + skip])
  }

  /** The free list without block i. */
  function Drop(bs: seq<Block>, i: nat): (r: seq<Block>)
    requires i < |bs|
  {
    seq(|bs| - 1, k requires 0 <= k < |bs| - 1 => if k < i then bs[k] else bs[k+1])
  }

  /** How many blocks above b are absorbed, and where b ends up. */
  function Skip(bs: seq<Block>, t: nat, b: Block): nat {
    if MeetsUpper(bs, t, b) then 1 else 0
  }

  function Place(bs: seq<Block>, t: nat, b: Block): nat
    requires t < |bs|
  {
    if MeetsLower(bs, t, b) then t else t + 1
  }

  /** Put, element by element. */
  lemma PutAt(bs: seq<Block>, t: nat, b: Block, k: nat)
    requires t < |bs|
    ensures |Put(bs, t, b)| == |bs| - Skip(bs, t, b) + Place(bs, t, b) - t
    ensures k < Place(bs, t, b) ==> Put(bs, t, b)[k] == bs[k]
    ensures Place(bs, t, b) < |Put(bs, t, b)|
    ensures
      var r := Put(bs, t, b)[Place(bs, t, b)];
      if MeetsLower(bs, t, b) then r == Block(bs[t].addr, bs[t].size + Grown(bs, t, b).size) else r == Grown(bs, t, b)
    ensures Place(bs, t, b) < k < |Put(bs, t, b)| ==>
      Put(bs, t, b)[k] == bs[k - Place(bs, t, b) + t + Skip(bs, t, b)]
  {}

  lemma PutOrdered(bs: seq<Block>, t: nat, b: Block)
    requires Ordered(bs) && Gap(bs, t, b)
    ensures Ordered(Put(bs, t, b))
  {
    hide Put;
    var r := Put(bs, t, b);
    PutAt(bs, t, b, 0);
    assert bs[t].addr == (if t == 0 then BASE else bs[t].addr);
    forall i, j | 0 <= i < j < |r|
      ensures r[i].addr + r[i].size < r[j].addr
    {
      PutGap(bs, t, b, i, j);
    }
    forall i | 1 <= i < |r|
      ensures r[i].size >= 1
    {
      PutAt(bs, t, b, i);
    }
  }

  lemma PutGap(bs: seq<Block>, t: nat, b: Block, i: nat, j: nat)
    requires Ordered(bs) && Gap(bs, t, b) && i < j < |Put(bs, t, b)|
    ensures Put(bs, t, b)[i].addr + Put(bs, t, b)[i].size < Put(bs, t, b)[j].addr
  {
    hide Put;
    PutAt(bs, t, b, i);
    PutAt(bs, t, b, j);
    var at, skip := Place(bs, t, b), Skip(bs, t, b);
    if j < at {
    } else if j == at {
      assert i < t ==> bs[i].addr + bs[i].size < bs[t].addr;
    } else {
      var k := j - at + t + skip;
      assert t < k < |bs|;
      if i < at {
        assert bs[i].addr + bs[i].size < bs[k].addr;
      } else if i == at {
        assert k > t + 1 ==> bs[t+1].addr + bs[t+1].size < bs[k].addr;
      }
    }
  }

  /** Units are conserved: the new list holds the units of the old one and those of b. */
  lemma PutUnits(bs: seq<Block>, t: nat, b: Block, a: int)
    requires Ordered(bs) && Gap(bs, t, b)
    ensures InBlocks(Put(bs, t, b), a) <==> InBlocks(bs, a) || Holds(b, a)
  {
    if InBlocks(Put(bs, t, b), a) {
      PutNoNew(bs, t, b, a);
    }
    if InBlocks(bs, a) || Holds(b, a) {
      PutNoneLost(bs, t, b, a);
    }
  }

  lemma PutNoNew(bs: seq<Block>, t: nat, b: Block, a: int)
    requires Ordered(bs) && Gap(bs, t, b) && InBlocks(Put(bs, t, b), a)
    ensures InBlocks(bs, a) || Holds(b, a)
  {
    hide Put;
    var i :| 0 <= i < |Put(bs, t, b)| && Holds(Put(bs, t, b)[i], a);
    PutAt(bs, t, b, i);
    var at, skip := Place(bs, t, b), Skip(bs, t, b);
    if i < at {
      assert Holds(bs[i], a);
    } else if i > at {
      assert Holds(bs[i - at + t + skip], a);
    } else if a < b.addr {
      assert Holds(bs[t], a);
    } else if a >= b.addr + b.size {
      assert Holds(bs[t+1], a);
    }
  }

  lemma PutNoneLost(bs: seq<Block>, t: nat, b: Block, a: int)
    requires Ordered(bs) && Gap(bs, t, b) && (InBlocks(bs, a) || Holds(b, a))
    ensures InBlocks(Put(bs, t, b), a)
  {
    hide Put;
    var r := Put(bs, t, b);
    var at, skip := Place(bs, t, b), Skip(bs, t, b);
    PutAt(bs, t, b, 0);
    if Holds(b, a) {
      assert Holds(r[at], a);
    } else {
      var i :| 0 <= i < |bs| && Holds(bs[i], a);
      if i < at {
        PutAt(bs, t, b, i);
        assert Holds(r[i], a);
      } else if i <= t + skip {
        assert Holds(r[at], a);
      } else {
        PutAt(bs, t, b, i - t - skip + at);
        assert Holds(r[i - t - skip + at], a);
      }
    }
  }

  lemma DropAt(bs: seq<Block>, i: nat, k: nat)
    requires i < |bs|
    ensures |Drop(bs, i)| == |bs| - 1
    ensures k < |bs| - 1 ==> Drop(bs, i)[k] == bs[if k < i then k else k + 1]
  {}

  lemma DropOrdered(bs: seq<Block>, i: nat)
    requires Ordered(bs) && 1 <= i < |bs|
    ensures Ordered(Drop(bs, i))
  {
    hide Drop;
    DropAt(bs, i, 0);
    forall k | 0 <= k < |bs| - 1
      ensures Drop(bs, i)[k] == bs[if k < i then k else k + 1]
    {
      DropAt(bs, i, k);
    }
  }

  lemma DropUnits(bs: seq<Block>, i: nat, a: int)
    requires Ordered(bs) && 1 <= i < |bs|
    ensures InBlocks(bs, a) <==> InBlocks(Drop(bs, i), a) || Holds(bs[i], a)
    ensures !(InBlocks(Drop(bs, i), a) && Holds(bs[i], a))
  {
    hide Drop;
    var r := Drop(bs, i);
    DropAt(bs, i, 0);
    if InBlocks(r, a) {
      var k :| 0 <= k < |r| && Holds(r[k], a);
      DropAt(bs, i, k);
      assert Holds(bs[if k < i then k else k + 1], a);
    }
    if InBlocks(bs, a) {
      var k :| 0 <= k < |bs| && Holds(bs[k], a);
      if k != i {
        DropAt(bs, i, if k < i then k else k - 1);
        assert Holds(r[if k < i then k else k - 1], a);
      }
    }
  }

  /** The free list once the last n units of block i are cut off. */
  function Cut(bs: seq<Block>, i: nat, n: nat): seq<Block>
    requires i < |bs|
  {
    bs[i := Block(bs[i].addr, bs[i].size - n)]
  }

  lemma CutAt(bs: seq<Block>, i: nat, n: nat)
    requires 1 <= i < |bs|
    ensures |Cut(bs, i, n)| == |bs| && Cut(bs, i, n)[i-1] == bs[i-1]
  {}

  lemma CutUnits(bs: seq<Block>, i: nat, n: nat, a: int)
    requires Ordered(bs) && 1 <= i < |bs| && 1 <= n < bs[i].size
    ensures Ordered(Cut(bs, i, n))
    ensures
      var b := Block(bs[i].addr + bs[i].size - n, n);
      && (InBlocks(bs, a) <==> InBlocks(Cut(bs, i, n), a) || Holds(b, a))
      && !(InBlocks(Cut(bs, i, n), a) && Holds(b, a))
  {
    var r := Cut(bs, i, n);
    if InBlocks(r, a) {
      var k :| 0 <= k < |r| && Holds(r[k], a);
      assert Holds(bs[k], a);
    }
    if InBlocks(bs, a) {
      var k :| 0 <= k < |bs| && Holds(bs[k], a);
      assert k != i ==> Holds(r[k], a);
      assert k == i ==> Holds(r[i], a) || Holds(Block(bs[i].addr + bs[i].size - n, n), a);
    }
  }

  // ----- the links

  function NextAddr(bs: seq<Block>, i: nat): int
    requires i < |bs|
  {
    bs[After(i, |bs|)].addr
  }

  /** Entry i of r is the header memory holds for it. */
  predicate LinkedAt(mem: Memory, r: seq<Block>, i: nat)
    requires i < |r|
  {
    r[i].addr in mem && mem[r[i].addr] == Header(NextAddr(r, i), r[i].size)
  }

  /** Following ptr from base visits bs in order and comes back. */
  predicate Linked(mem: Memory, bs: seq<Block>) {
    forall i :: 0 <= i < |bs| ==> LinkedAt(mem, bs, i)
  }

  /** What free() stores once it has found block t: bp's header, then p's. */
  function FreeStores(mem: Memory, bs: seq<Block>, t: nat, b: Block): Memory
    requires t < |bs| && LinkedAt(mem, bs, t) && (t + 1 < |bs| ==> LinkedAt(mem, bs, t + 1))
  {
    var p := bs[t].addr;
    var bp := if MeetsUpper(bs, t, b)
              then Header(mem[bs[t+1].addr].ptr, b.size + mem[bs[t+1].addr].size)
              else Header(mem[p].ptr, b.size);
    var mem1 := mem[b.addr := bp];
    if MeetsLower(bs, t, b) then mem1[p := Header(bp.ptr, mem[p].size + bp.size)]
    else mem1[p := mem[p].(ptr := b.addr)]
  }

  /** b's address is none of the list's, and only block t has block t's. */
  lemma Between(bs: seq<Block>, t: nat, b: Block)
    requires Ordered(bs) && Gap(bs, t, b)
    ensures forall k :: 0 <= k < |bs| ==> if k <= t then bs[k].addr < b.addr else b.addr < bs[k].addr
    ensures forall k :: 0 <= k < |bs| && k != t ==> bs[k].addr != bs[t].addr
  {
    forall k | 0 <= k < |bs|
      ensures if k <= t then bs[k].addr < b.addr else b.addr < bs[k].addr
    {
      if k < t {
        assert bs[k].addr + bs[k].size < bs[t].addr;
      } else if k > t + 1 {
        assert bs[t+1].addr + bs[t+1].size < bs[k].addr;
      }
    }
  }

  lemma PutLinkedBelow(mem: Memory, bs: seq<Block>, t: nat, b: Block, i: nat)
    requires Ordered(bs) && Gap(bs, t, b) && Linked(mem, bs) && i < Place(bs, t, b)
    ensures i < |Put(bs, t, b)| && LinkedAt(FreeStores(mem, bs, t, b), Put(bs, t, b), i)
  {
    Between(bs, t, b);
    PutAt(bs, t, b, i);
    PutAt(bs, t, b, i + 1);
    hide Put, Ordered;
    assert LinkedAt(mem, bs, i);
  }

  lemma PutLinkedHere(mem: Memory, bs: seq<Block>, t: nat, b: Block)
    requires Ordered(bs) && Gap(bs, t, b) && Linked(mem, bs)
    ensures Place(bs, t, b) < |Put(bs, t, b)|
    ensures LinkedAt(FreeStores(mem, bs, t, b), Put(bs, t, b), Place(bs, t, b))
  {
    Between(bs, t, b);
    PutAt(bs, t, b, 0);
    PutAt(bs, t, b, Place(bs, t, b) + 1);
    hide Put, Ordered;
    assert LinkedAt(mem, bs, t);
    assert t + 1 < |bs| ==> LinkedAt(mem, bs, t + 1);
  }

  lemma PlacePositive(bs: seq<Block>, t: nat, b: Block)
    requires Ordered(bs) && Gap(bs, t, b)
    ensures Place(bs, t, b) > 0
  {}

  lemma PutAbove(bs: seq<Block>, t: nat, b: Block, i: nat)
    requires t < |bs| && 0 < Place(bs, t, b) < i < |Put(bs, t, b)|
    ensures
      var k := i - Place(bs, t, b) + t + Skip(bs, t, b);
      t < k < |bs| && Put(bs, t, b)[i] == bs[k] && NextAddr(Put(bs, t, b), i) == NextAddr(bs, k)
  {
    PutAt(bs, t, b, 0);
    PutAt(bs, t, b, i);
    PutAt(bs, t, b, i + 1);
    hide Put, Place, Skip, Grown, MeetsLower, MeetsUpper;
  }

  lemma PutLinkedAbove(mem: Memory, bs: seq<Block>, t: nat, b: Block, i: nat)
    requires Ordered(bs) && Gap(bs, t, b) && Linked(mem, bs) && Place(bs, t, b) < i < |Put(bs, t, b)|
    ensures LinkedAt(FreeStores(mem, bs, t, b), Put(bs, t, b), i)
  {
    Between(bs, t, b);
    PlacePositive(bs, t, b);
    PutAbove(bs, t, b, i);
    var k := i - Place(bs, t, b) + t + Skip(bs, t, b);
    hide Put, Ordered, Place, NextAddr;
    assert LinkedAt(mem, bs, k);
  }

  lemma PutLinked(mem: Memory, bs: seq<Block>, t: nat, b: Block)
    requires Ordered(bs) && Gap(bs, t, b) && Linked(mem, bs)
    ensures Linked(FreeStores(mem, bs, t, b), Put(bs, t, b))
  {
    hide Put, FreeStores, LinkedAt;
    var r, mem' := Put(bs, t, b), FreeStores(mem, bs, t, b);
    forall i | 0 <= i < |r|
      ensures LinkedAt(mem', r, i)
    {
      if i < Place(bs, t, b) {
        PutLinkedBelow(mem, bs, t, b, i);
      } else if i == Place(bs, t, b) {
        PutLinkedHere(mem, bs, t, b);
      } else {
        PutLinkedAbove(mem, bs, t, b, i);
      }
    }
  }

  /** Block i leaves the list: its predecessor points past it. */
  lemma DropLinked(mem: Memory, bs: seq<Block>, i: nat)
    requires Ordered(bs) && Linked(mem, bs) && 1 <= i < |bs| && LinkedAt(mem, bs, i) && LinkedAt(mem, bs, i - 1)
    ensures Linked(mem[bs[i-1].addr := mem[bs[i-1].addr].(ptr := mem[bs[i].addr].ptr)], Drop(bs, i))
  {
    hide Drop;
    var r, prev := Drop(bs, i), bs[i-1].addr;
    var mem' := mem[prev := mem[prev].(ptr := mem[bs[i].addr].ptr)];
    DropAt(bs, i, 0);
    forall k | 0 <= k < |r|
      ensures LinkedAt(mem', r, k)
    {
      DropAt(bs, i, k);
      DropAt(bs, i, k + 1);
      var j := if k < i then k else k + 1;
      assert LinkedAt(mem, bs, j);
      assert j != i - 1 ==> bs[j].addr != prev;
    }
  }

  /** Block i shrinks by n units at its end; the cut-off header is written at x. */
  lemma CutLinked(mem: Memory, bs: seq<Block>, i: nat, n: nat, h: Header)
    requires Ordered(bs) && Linked(mem, bs) && 1 <= i < |bs| && 1 <= n < bs[i].size && LinkedAt(mem, bs, i)
    ensures
      var p := bs[i].addr;
      Linked(mem[p := mem[p].(size := bs[i].size - n)][p + bs[i].size - n := h], Cut(bs, i, n))
  {
    var p, r := bs[i].addr, Cut(bs, i, n);
    var mem' := mem[p := mem[p].(size := bs[i].size - n)][p + bs[i].size - n := h];
    forall k | 0 <= k < |r|
      ensures LinkedAt(mem', r, k)
    {
      assert LinkedAt(mem, bs, k);
      assert k < i ==> bs[k].addr + bs[k].size < bs[i].addr;
      assert k > i ==> bs[i].addr + bs[i].size < bs[k].addr;
    }
  }

  // ----- ownership of units

  function Units(b: Block): set<int> {
    set a: int | b.addr <= a < b.addr + b.size && Holds(b, a)
  }

  predicate InLive(live: map<int, int>, a: int) {
    exists l :: l in live && Holds(Block(l, live[l]), a)
  }

  /** Headers of the blocks handed out are intact, and those blocks are pairwise disjoint. */
  predicate LiveOk(mem: Memory, live: map<int, int>) {
    && (forall l :: l in live ==> l in mem && mem[l].size == live[l] && live[l] >= 1)
    && (forall l, k :: l in live && k in live && l < k ==> l + live[l] <= k)
  }

  /** Every unit obtained from the system is in exactly one of the free and the live blocks. */
  ghost predicate Partition(bs: seq<Block>, live: map<int, int>, owned: set<int>) {
    && (forall a :: a in owned ==> BASE < a)
    && (forall a :: a in owned <==> InBlocks(bs, a) || InLive(live, a))
    && (forall a :: !(InBlocks(bs, a) && InLive(live, a)))
  }

  ghost predicate Sound(mem: Memory, bs: seq<Block>, live: map<int, int>, owned: set<int>) {
    Ordered(bs) && Linked(mem, bs) && LiveOk(mem, live) && Partition(bs, live, owned)
  }

  /** Stores into free blocks, base or b leave the headers of other live blocks alone. */
  lemma LiveKept(mem: Memory, mem': Memory, bs: seq<Block>, live: map<int, int>, owned: set<int>, live': map<int, int>)
    requires LiveOk(mem, live) && Partition(bs, live, owned)
    requires live'.Keys <= live.Keys && forall l :: l in live' ==> live'[l] == live[l]
    requires forall a :: a in mem && (a !in mem' || mem'[a] != mem[a]) ==>
      a == BASE || InBlocks(bs, a) || !InLive(live', a)
    ensures LiveOk(mem', live')
  {
    forall l | l in live'
      ensures l in mem' && mem'[l] == mem[l]
    {
      assert Holds(Block(l, live[l]), l);
      assert Holds(Block(l, live'[l]), l);
      assert InLive(live, l) && InLive(live', l);
    }
  }

  lemma LiveWithout(live: map<int, int>, l: int, a: int)
    requires l in live && forall i, k :: i in live && k in live && i < k ==> i + live[i] <= k
    ensures InLive(live, a) <==> InLive(live - {l}, a) || Holds(Block(l, live[l]), a)
    ensures !(InLive(live - {l}, a) && Holds(Block(l, live[l]), a))
  {
    if InLive(live - {l}, a) {
      var k :| k in live - {l} && Holds(Block(k, (live - {l})[k]), a);
      assert Holds(Block(k, live[k]), a);
      assert k < l || l < k;
    }
    if InLive(live, a) {
      var k :| k in live && Holds(Block(k, live[k]), a);
      assert k != l ==> Holds(Block(k, (live - {l})[k]), a);
    }
  }

  /** A live block sits in one gap of the free list. */
  lemma LiveInGap(bs: seq<Block>, live: map<int, int>, owned: set<int>, l: int, t: nat)
    requires Ordered(bs) && Partition(bs, live, owned) && l in live && live[l] >= 1
    requires t < |bs| && bs[t].addr < l && (t + 1 < |bs| ==> l < bs[t+1].addr)
    ensures Gap(bs, t, Block(l, live[l]))
  {
    assert Holds(Block(l, live[l]), l);
    assert InLive(live, l);
    assert !InBlocks(bs, l);
    assert !Holds(bs[t], l);
    if t + 1 < |bs| {
      var a := bs[t+1].addr;
      assert Holds(bs[t+1], a);
      assert InBlocks(bs, a);
      assert !InLive(live, a);
      assert !Holds(Block(l, live[l]), a);
    }
  }

  /** free(): the list, the links, the live blocks and the ownership of units after it. */
  lemma FreeSound(mem: Memory, bs: seq<Block>, live: map<int, int>, owned: set<int>, l: int, t: nat)
    requires Sound(mem, bs, live, owned) && l in live
    requires t < |bs| && bs[t].addr < l && (t + 1 < |bs| ==> l < bs[t+1].addr)
    ensures Gap(bs, t, Block(l, live[l])) && LinkedAt(mem, bs, t) && (t + 1 < |bs| ==> LinkedAt(mem, bs, t + 1))
    ensures Sound(FreeStores(mem, bs, t, Block(l, live[l])), Put(bs, t, Block(l, live[l])), live - {l}, owned)
  {
    var b := Block(l, live[l]);
    LiveInGap(bs, live, owned, l, t);
    PutOrdered(bs, t, b);
    PutLinked(mem, bs, t, b);
    FreeLive(mem, bs, live, owned, l, t);
    FreePartition(bs, live, owned, l, t);
  }

  lemma FreeLive(mem: Memory, bs: seq<Block>, live: map<int, int>, owned: set<int>, l: int, t: nat)
    requires Ordered(bs) && Linked(mem, bs) && LiveOk(mem, live) && Partition(bs, live, owned) && l in live
    requires Gap(bs, t, Block(l, live[l])) && LinkedAt(mem, bs, t) && (t + 1 < |bs| ==> LinkedAt(mem, bs, t + 1))
    ensures LiveOk(FreeStores(mem, bs, t, Block(l, live[l])), live - {l})
  {
    var b := Block(l, live[l]);
    assert t > 0 ==> Holds(bs[t], bs[t].addr);
    LiveWithout(live, l, l);
    assert Holds(b, l);
    hide Ordered, Linked, Gap;
    LiveKept(mem, FreeStores(mem, bs, t, b), bs, live, owned, live - {l});
  }

  lemma FreePartition(bs: seq<Block>, live: map<int, int>, owned: set<int>, l: int, t: nat)
    requires Ordered(bs) && Partition(bs, live, owned) && l in live && Gap(bs, t, Block(l, live[l]))
    requires forall i, k :: i in live && k in live && i < k ==> i + live[i] <= k
    ensures Partition(Put(bs, t, Block(l, live[l])), live - {l}, owned)
  {
    var b := Block(l, live[l]);
    forall a
      ensures a in owned <==> InBlocks(Put(bs, t, b), a) || InLive(live - {l}, a)
      ensures !(InBlocks(Put(bs, t, b), a) && InLive(live - {l}, a))
    {
      PutUnits(bs, t, b, a);
      LiveWithout(live, l, a);
    }
  }

  lemma LiveWith(live: map<int, int>, b: Block, a: int)
    requires b.addr !in live
    ensures InLive(live[b.addr := b.size], a) <==> InLive(live, a) || Holds(b, a)
  {
    var live' := live[b.addr := b.size];
    if InLive(live', a) {
      var k :| k in live' && Holds(Block(k, live'[k]), a);
      assert k != b.addr ==> Holds(Block(k, live[k]), a);
    }
    if InLive(live, a) {
      var k :| k in live && Holds(Block(k, live[k]), a);
      assert Holds(Block(k, live'[k]), a);
    }
    if Holds(b, a) {
      assert Holds(Block(b.addr, live'[b.addr]), a);
    }
  }

  /** A block none of whose units is live can join the live blocks. */
  lemma LiveJoins(mem: Memory, live: map<int, int>, b: Block)
    requires LiveOk(mem, live) && b.size >= 1 && b.addr in mem && mem[b.addr].size == b.size
    requires forall a :: Holds(b, a) ==> !InLive(live, a)
    ensures b.addr !in live && LiveOk(mem, live[b.addr := b.size])
  {
    assert Holds(b, b.addr);
    forall l | l in live
      ensures l + live[l] <= b.addr || b.addr + b.size <= l
    {
      assert Holds(Block(l, live[l]), l);
      if l < b.addr {
        assert !Holds(Block(l, live[l]), b.addr);
      } else {
        assert !Holds(b, l);
      }
    }
  }

  /** malloc, exact fit: block i leaves the list. */
  lemma TakeWhole(mem: Memory, bs: seq<Block>, live: map<int, int>, owned: set<int>, i: nat)
    requires Sound(mem, bs, live, owned) && 1 <= i < |bs|
    ensures LinkedAt(mem, bs, i) && LinkedAt(mem, bs, i - 1) && bs[i].addr !in live
    ensures Sound(mem[bs[i-1].addr := mem[bs[i-1].addr].(ptr := mem[bs[i].addr].ptr)], Drop(bs, i),
                  live[bs[i].addr := bs[i].size], owned)
  {
    assert LinkedAt(mem, bs, i) && LinkedAt(mem, bs, i - 1);
    var mem' := mem[bs[i-1].addr := mem[bs[i-1].addr].(ptr := mem[bs[i].addr].ptr)];
    assert i > 1 ==> Holds(bs[i-1], bs[i-1].addr);
    assert bs[i-1].addr < bs[i].addr;
    DropOrdered(bs, i);
    DropLinked(mem, bs, i);
    hide Ordered, Linked;
    LiveKept(mem, mem', bs, live, owned, live);
    forall a
      ensures Holds(bs[i], a) ==> !InLive(live, a)
    {
      assert Holds(bs[i], a) ==> InBlocks(bs, a);
    }
    LiveJoins(mem', live, bs[i]);
    TakePartition(bs, Drop(bs, i), live, owned, bs[i]) by {
      forall a {
        DropUnits(bs, i, a);
      }
    }
  }

  /** The units of b move from the free list to the live blocks. */
  lemma TakePartition(bs: seq<Block>, cs: seq<Block>, live: map<int, int>, owned: set<int>, b: Block)
    requires Partition(bs, live, owned) && b.addr !in live
    requires forall a :: InBlocks(bs, a) <==> InBlocks(cs, a) || Holds(b, a)
    requires forall a :: !(InBlocks(cs, a) && Holds(b, a))
    ensures Partition(cs, live[b.addr := b.size], owned)
  {
    var live' := live[b.addr := b.size];
    forall a
      ensures InLive(live', a) <==> InLive(live, a) || Holds(b, a)
    {
      LiveWith(live, b, a);
    }
  }

  /** malloc, larger block: its last n units are handed out. */
  lemma TakeTail(mem: Memory, bs: seq<Block>, live: map<int, int>, owned: set<int>, i: nat, n: nat, h: Header)
    requires Sound(mem, bs, live, owned) && 1 <= i < |bs| && 1 <= n < bs[i].size && h.size == n
    ensures
      var p := bs[i].addr;
      var x := p + bs[i].size - n;
      && LinkedAt(mem, bs, i) && x !in live
      && Sound(mem[p := mem[p].(size := bs[i].size - n)][x := h], Cut(bs, i, n), live[x := n], owned)
  {
    var p := bs[i].addr;
    var x := p + bs[i].size - n;
    var b := Block(x, n);
    assert LinkedAt(mem, bs, i);
    var mem' := mem[p := mem[p].(size := bs[i].size - n)][x := h];
    CutLinked(mem, bs, i, n, h);
    CutUnits(bs, i, n, p);
    assert Holds(bs[i], p) && Holds(bs[i], x);
    forall a
      ensures InBlocks(bs, a) <==> InBlocks(Cut(bs, i, n), a) || Holds(b, a)
      ensures !(InBlocks(Cut(bs, i, n), a) && Holds(b, a))
    {
      CutUnits(bs, i, n, a);
    }
    hide Ordered, Linked, Cut;
    LiveKept(mem, mem', bs, live, owned, live);
    LiveJoins(mem', live, b);
    TakePartition(bs, Cut(bs, i, n), live, owned, b);
  }

  /** morecore: n fresh units at x, above everything owned so far, start out live. */
  lemma MoreSound(mem: Memory, bs: seq<Block>, live: map<int, int>, owned: set<int>, x: int, n: nat, h: Header)
    requires Sound(mem, bs, live, owned) && n >= 1 && h.size == n
    requires BASE < x && forall a :: a in owned ==> a < x
    ensures x !in live
    ensures Sound(mem[x := h], bs, live[x := n], owned + Units(Block(x, n)))
  {
    var b, owned' := Block(x, n), owned + Units(Block(x, n));
    forall a | Holds(b, a)
      ensures !InBlocks(bs, a) && !InLive(live, a)
    {
      assert a !in owned;
    }
    forall i | 0 <= i < |bs|
      ensures bs[i].addr != x
    {
      assert i > 0 ==> Holds(bs[i], bs[i].addr);
      assert i > 0 ==> InBlocks(bs, bs[i].addr);
    }
    var mem' := mem[x := h];
    forall i | 0 <= i < |bs|
      ensures LinkedAt(mem', bs, i)
    {
      assert LinkedAt(mem, bs, i);
    }
    assert Linked(mem', bs);
    hide Ordered, Linked;
    assert Holds(b, x);
    LiveKept(mem, mem', bs, live, owned, live);
    LiveJoins(mem', live, b);
    var live' := live[x := n];
    forall a
      ensures InLive(live', a) <==> InLive(live, a) || Holds(b, a)
    {
      LiveWith(live, b, a);
    }
  }

  /** Where address x belongs in the list. */
  lemma {:induction false} FindGap(bs: seq<Block>, x: int, n: nat) returns (t: nat)
    requires Ordered(bs) && BASE < x && 1 <= n <= |bs|
    requires forall i :: 0 <= i < |bs| ==> bs[i].addr != x
    requires n < |bs| ==> x < bs[n].addr
    ensures t < n && bs[t].addr < x && (t + 1 < |bs| ==> x < bs[t+1].addr)
    decreases n
  {
    if bs[n-1].addr < x {
      t := n - 1;
    } else {
      t := FindGap(bs, x, n - 1);
    }
  }

  lemma LiveGap(mem: Memory, bs: seq<Block>, live: map<int, int>, owned: set<int>, l: int) returns (t: nat)
    requires Sound(mem, bs, live, owned) && l in live
    ensures t < |bs| && bs[t].addr < l && (t + 1 < |bs| ==> l < bs[t+1].addr)
  {
    assert Holds(Block(l, live[l]), l);
    assert InLive(live, l) && l in owned;
    forall i | 0 <= i < |bs|
      ensures bs[i].addr != l
    {
      assert i > 0 ==> Holds(bs[i], bs[i].addr);
      assert i > 0 ==> InBlocks(bs, bs[i].addr);
    }
    t := FindGap(bs, l, |bs|);
  }

  /** How far round the ring index i is from index t. */
  function Distance(i: nat, t: nat, n: nat): int {
    if i <= t then t - i else t - i + n
  }

  /** One look of free()'s search at block i: it stops exactly at the gap that x belongs in. */
  lemma SearchStep(mem: Memory, bs: seq<Block>, x: int, t: nat, i: nat)
    requires Ordered(bs) && Linked(mem, bs) && i < |bs| && t < |bs|
    requires BASE < x && bs[t].addr < x && (t + 1 < |bs| ==> x < bs[t+1].addr)
    ensures LinkedAt(mem, bs, i)
    ensures
      var p, next := bs[i].addr, mem[bs[i].addr].ptr;
      ((x > p && x < next) || (p >= next && (x > p || x < next))) <==> i == t
  {
    assert LinkedAt(mem, bs, i);
    if i < t {
      assert bs[i+1].addr <= bs[t].addr;
    } else if i > t {
      assert bs[t+1].addr <= bs[i].addr;
      assert bs[0].addr < bs[i].addr;
    }
  }

  /** b was put after block t, which freep now names. */
  predicate Joined(bs: seq<Block>, t: nat, b: Block, freep: int, cs: seq<Block>) {
    t < |bs| && freep == bs[t].addr && cs == Put(bs, t, b)
  }

  datatype Result = Null | Pointer(ap: int)

  class Heap {
    var mem: Memory
    var freep: int
    ghost var free: seq<Block>
    ghost var live: map<int, int>  // blocks handed out: header address to size in units
    ghost var owned: set<int>      // units obtained from sbrk

    ghost predicate Valid()
      reads this
    {
      if freep == NULL then live == map[] && owned == {}
      else Sound(mem, free, live, owned) && exists s :: 0 <= s < |free| && free[s].addr == freep
    }

    constructor ()
      ensures Valid() && freep == NULL && live == map[] && owned == {}
    {
      mem, freep, free, live, owned := map[], NULL, [], map[], {};
    }

    /** The search loop of free: the block below bp, or the last one. */
    method FindPlace(bp: int, ghost t: nat) returns (p: int)
      requires freep != NULL && Ordered(free) && Linked(mem, free) && BASE < bp
      requires exists s :: 0 <= s < |free| && free[s].addr == freep
      requires t < |free| && free[t].addr < bp && (t + 1 < |free| ==> bp < free[t+1].addr)
      ensures p == free[t].addr
    {
      ghost var i :| 0 <= i < |free| && free[i].addr == freep;
      hide Ordered, Linked;
      p := freep;
      SearchStep(mem, free, bp, t, i);
      while !(bp > p && bp < mem[p].ptr)
        invariant 0 <= i < |free| && p == free[i].addr && LinkedAt(mem, free, i)
        decreases Distance(i, t, |free|)
      {
        SearchStep(mem, free, bp, t, i);
        if p >= mem[p].ptr && (bp > p || bp < mem[p].ptr) {
          break;
        }
        p := mem[p].ptr;
        i := if i + 1 < |free| then i + 1 else 0;
        SearchStep(mem, free, bp, t, i);
      }
      SearchStep(mem, free, bp, t, i);
    }

    /** Give a block back: it joins the free list, merged with the neighbours it meets. */
    method Free(ap: int) returns (ghost t: nat)
      requires Valid() && ap - 1 in live
      modifies this
      ensures Valid() && freep != NULL && live == old(live) - {ap - 1} && owned == old(owned)
      ensures Joined(old(free), t, Block(ap - 1, old(live)[ap - 1]), freep, free)
    {
      hide Sound, Put;
      var bp := ap - 1;
      ghost var b := Block(bp, live[bp]);
      t := LiveGap(mem, free, live, owned, bp);
      FreeSound(mem, free, live, owned, bp, t);
      SearchReady(mem, free, live, owned, bp);
      var p := FindPlace(bp, t);
      hide Ordered, Linked;
      ghost var mem0 := mem;
      assert bp + live[bp] == mem[p].ptr <==> MeetsUpper(free, t, b) by {
        assert free[0].addr == BASE by { BaseFirst(free); }
      }
      if bp + mem[bp].size == mem[p].ptr {
        var next := mem[p].ptr;
        mem := mem[bp := Header(mem[next].ptr, mem[bp].size + mem[next].size)];
      } else {
        mem := mem[bp := mem[bp].(ptr := mem[p].ptr)];
      }
      if p + mem[p].size == bp {
        mem := mem[p := Header(mem[bp].ptr, mem[p].size + mem[bp].size)];
      } else {
        mem := mem[p := mem[p].(ptr := bp)];
      }
      assert mem == FreeStores(mem0, free, t, b);
      freep := p;
      free := Put(free, t, b);
      live := live - {bp};
      PutKeeps(old(free), t, b);
      assert Joined(old(free), t, b, freep, free);
    }

    /** Ask the system for at least nu units. grant is what sbrk returned: -1, or an address
        above everything obtained before. */
    method Morecore(nu: nat, grant: int) returns (r: int)
      requires Valid() && freep != NULL && nu >= 1
      requires grant == -1 || (BASE < grant && forall a :: a in owned ==> a < grant)
      modifies this
      ensures Valid() && freep != NULL && live == old(live)
      ensures grant == -1 ==>
        r == NULL && mem == old(mem) && free == old(free) && freep == old(freep) && owned == old(owned)
      ensures grant != -1 ==>
        && r == freep
        && owned == old(owned) + Units(Block(grant, if nu < MINCORE then MINCORE else nu))
        && HasRoom(free, nu)
    {
      hide Sound, Put;
      var n := if nu < MINCORE then MINCORE else nu;
      if grant == -1 {
        return NULL;
      }
      var h := Header(if grant in mem then mem[grant].ptr else 0, n);
      MoreSound(mem, free, live, owned, grant, n, h);
      mem := mem[grant := h];
      live := live[grant := n];
      owned := owned + Units(Block(grant, n));
      ghost var bs := free;
      ghost var t := Free(grant + 1);
      SoundOrdered(old(mem), bs, old(live), old(owned));
      PutRoom(bs, t, Block(grant, n));
      assert live == old(live);
      return freep;
    }

    /** Hand out block p, which prevp points to: all of it, or its last nunits units. */
    method TakeBlock(p: int, prevp: int, ghost j: nat, nunits: nat) returns (x: int)
      requires Sound(mem, free, live, owned) && freep != NULL && nunits >= 1
      requires j < |free| && prevp == free[j].addr && p == NextAddr(free, j)
      requires free[After(j, |free|)].size >= nunits
      modifies this
      ensures Valid() && freep == prevp != NULL && owned == old(owned)
      ensures x !in old(live) && live == old(live)[x := nunits]
      ensures
        var i := After(j, |old(free)|);
        && free == (if old(free)[i].size == nunits then Drop(old(free), i) else Cut(old(free), i, nunits))
        && x == old(free)[i].addr + old(free)[i].size - nunits
    {
      hide Sound, Drop, Cut;
      ghost var i := After(j, |free|);
      AtBlock(mem, free, live, owned, i);
      AtBlock(mem, free, live, owned, j);
      assert i == j + 1;
      CutAt(free, i, nunits);
      DropAt(free, i, j);
      x := p;
      if mem[p].size == nunits {
        TakeWhole(mem, free, live, owned, i);
        mem := mem[prevp := mem[prevp].(ptr := mem[p].ptr)];
        free := Drop(free, i);
      } else {
        x := p + mem[p].size - nunits;
        var h := Header(if x in mem then mem[x].ptr else 0, nunits);
        TakeTail(mem, free, live, owned, i, nunits, h);
        mem := mem[p := mem[p].(size := mem[p].size - nunits)];
        mem := mem[x := h];
        free := Cut(free, i, nunits);
      }
      freep := prevp;
      live := live[x := nunits];
      assert free[j].addr == prevp;
    }

    /** Allocate nbytes bytes. The block handed out is disjoint from every free and every live
        block: it is the end of the first block on the list that is large enough. sbrk is asked at
        most once, and only if no block on the list is. */
    method Malloc(nbytes: nat, grant: int) returns (r: Result)
      requires Valid() && (grant == -1 || (BASE < grant && forall a :: a in owned ==> a < grant))
      modifies this
      ensures Valid() && freep != NULL
      ensures r.Null? <==> grant == -1 && !(old(freep) != NULL && HasRoom(old(free), UnitsFor(nbytes)))
      ensures r.Null? ==> !HasRoom(free, UnitsFor(nbytes)) && live == old(live) && owned == old(owned)
      ensures r.Null? && old(freep) != NULL ==> mem == old(mem) && free == old(free) && freep == old(freep)
      ensures r.Pointer? ==> r.ap - 1 !in old(live) && live == old(live)[r.ap - 1 := UnitsFor(nbytes)]
      ensures old(freep) != NULL && HasRoom(old(free), UnitsFor(nbytes)) ==>
        owned == old(owned) && r.Pointer? && TookFirst(old(free), old(freep), free, freep, UnitsFor(nbytes), r.ap - 1)
      ensures !(old(freep) != NULL && HasRoom(old(free), UnitsFor(nbytes))) && grant != -1 ==>
        owned == old(owned) + Units(Block(grant, if UnitsFor(nbytes) < MINCORE then MINCORE else UnitsFor(nbytes)))
    {
      hide Sound, HasRoom, Units, UnitsFor, TookFirst;
      var nunits := UnitsFor(nbytes);
      var prevp := freep;
      ghost var room := freep != NULL && HasRoom(free, nunits);
      if prevp == NULL {
        mem := mem[BASE := Header(BASE, 0)];
        freep, prevp := BASE, BASE;
        free := [Block(BASE, 0)];
        FirstSound(mem);
        assert free[0].addr == freep;
        NoRoomYet(nunits);
      }
      ghost var asked := false;
      while true
        invariant Valid() && freep != NULL && live == old(live)
        invariant owned ==
          if asked then old(owned) + Units(Block(grant, if nunits < MINCORE then MINCORE else nunits)) else old(owned)
        invariant asked ==> grant != -1 && HasRoom(free, nunits) && !room
        invariant !asked ==> (room <==> HasRoom(free, nunits))
        invariant !asked && old(freep) != NULL ==> mem == old(mem) && free == old(free) && freep == old(freep)
        decreases if asked then 0 else 1
      {
        ghost var j;
        var found, p;
        found, p, prevp, j := Scan(nunits);
        if found {
          ghost var bs, start := free, freep;
          var x := TakeBlock(p, prevp, j, nunits);
          Took(bs, start, free, freep, nunits, x, j);
          return Pointer(x + 1);
        }
        assert !asked;
        p := Morecore(nunits, grant);
        if p == NULL {
          return Null;
        }
        asked := true;
      }
    }

    /** Once round the list from freep: the first block large enough and the one before it, or
        no block at all is large enough. */
    method Scan(nunits: nat) returns (found: bool, p: int, prevp: int, ghost j: nat)
      requires Valid() && freep != NULL && nunits >= 1
      ensures found ==>
        j < |free| && prevp == free[j].addr && p == NextAddr(free, j) && free[After(j, |free|)].size >= nunits
      ensures found <==> HasRoom(free, nunits)
      ensures found ==> FirstFit(free, freep, After(j, |free|), nunits)
    {
      ghost var s :| 0 <= s < |free| && free[s].addr == freep;
      hide Sound, PassedOver, Ordered, HasRoom, Distance;
      SoundOrdered(mem, free, live, owned);
      AtBlock(mem, free, live, owned, s);
      prevp := freep;
      p := mem[prevp].ptr;
      j := s;
      PassNone(free, s, nunits);
      while true
        invariant 0 <= j < |free| && prevp == free[j].addr && p == NextAddr(free, j)
        invariant PassedOver(free, s, After(j, |free|), nunits)
        decreases Distance(After(j, |free|), s, |free|)
      {
        ghost var i := After(j, |free|);
        AtBlock(mem, free, live, owned, i);
        if mem[p].size >= nunits {
          RoomAt(free, i, nunits);
          FitsFirst(free, s, i, nunits);
          return true, p, prevp, j;
        }
        if p == freep {
          Exhausted(free, s, i, nunits);
          return false, p, prevp, j;
        }
        PassStep(free, s, i, nunits);
        prevp, p := p, mem[p].ptr;
        j := i;
      }
    }
  }

  function UnitsFor(nbytes: nat): (n: nat)
    ensures n >= 1 && (n - 2) * UNIT < nbytes <= (n - 1) * UNIT
  {
    (nbytes + UNIT - 1) / UNIT + 1
  }

  function After(i: nat, n: nat): nat {
    if i + 1 < n then i + 1 else 0
  }

  /** Some block has at least n units. */
  predicate HasRoom(bs: seq<Block>, n: int) {
    exists i :: 0 <= i < |bs| && bs[i].size >= n
  }

  /** malloc's search, which started after block s and is now at block i, passed only blocks
      smaller than n. */
  predicate PassedOver(bs: seq<Block>, s: nat, i: nat, n: nat) {
    forall k :: 0 <= k < |bs| && Distance(After(s, |bs|), k, |bs|) < Distance(After(s, |bs|), i, |bs|) ==>
      bs[k].size < n
  }

  /** Block i has room for n units, and those that the list at start leads to before it do not. */
  predicate FirstFit(bs: seq<Block>, start: int, i: nat, n: nat) {
    i < |bs| && bs[i].size >= n &&
    exists s :: 0 <= s < |bs| && bs[s].addr == start && PassedOver(bs, s, i, n)
  }

  /** The first block with room gave up its last n units, at x, and the next search starts there. */
  predicate TookFirst(bs: seq<Block>, start: int, bs': seq<Block>, start': int, n: nat, x: int) {
    exists j :: 0 <= j < |bs| && TookAfter(bs, start, bs', start', n, x, j)
  }

  predicate TookAfter(bs: seq<Block>, start: int, bs': seq<Block>, start': int, n: nat, x: int, j: nat)
    requires j < |bs|
  {
    var i := After(j, |bs|);
    && FirstFit(bs, start, i, n) && start' == bs[j].addr && x == bs[i].addr + bs[i].size - n
    && bs' == if bs[i].size == n then Drop(bs, i) else Cut(bs, i, n)
  }

  lemma Took(bs: seq<Block>, start: int, bs': seq<Block>, start': int, n: nat, x: int, j: nat)
    requires j < |bs| && TookAfter(bs, start, bs', start', n, x, j)
    ensures TookFirst(bs, start, bs', start', n, x)
  {}

  lemma FitsFirst(bs: seq<Block>, s: nat, i: nat, n: nat)
    requires s < |bs| && i < |bs| && bs[i].size >= n && PassedOver(bs, s, i, n)
    ensures FirstFit(bs, bs[s].addr, i, n)
  {}

  lemma NoRoomYet(n: nat)
    requires n >= 1
    ensures !HasRoom([Block(BASE, 0)], n)
  {}

  /** Back at block s with that one too small as well: no block is large enough. */
  lemma Exhausted(bs: seq<Block>, s: nat, i: nat, n: nat)
    requires s < |bs| && i < |bs| && bs[i].addr == bs[s].addr && bs[i].size < n && PassedOver(bs, s, i, n)
    requires Ordered(bs)
    ensures i == s && !HasRoom(bs, n)
  {}

  lemma RoomAt(bs: seq<Block>, i: nat, n: int)
    requires i < |bs| && bs[i].size >= n
    ensures HasRoom(bs, n)
  {}

  lemma PassNone(bs: seq<Block>, s: nat, n: nat)
    requires s < |bs|
    ensures PassedOver(bs, s, After(s, |bs|), n)
  {}

  lemma PassStep(bs: seq<Block>, s: nat, i: nat, n: nat)
    requires s < |bs| && i < |bs| && i != s && bs[i].size < n && PassedOver(bs, s, i, n)
    ensures PassedOver(bs, s, After(i, |bs|), n)
    ensures 0 <= Distance(After(i, |bs|), s, |bs|) < Distance(i, s, |bs|)
  {}

  lemma SoundOrdered(mem: Memory, bs: seq<Block>, live: map<int, int>, owned: set<int>)
    requires Sound(mem, bs, live, owned)
    ensures Ordered(bs)
  {}

  lemma AtBlock(mem: Memory, bs: seq<Block>, live: map<int, int>, owned: set<int>, i: nat)
    requires Sound(mem, bs, live, owned) && i < |bs|
    ensures LinkedAt(mem, bs, i) && bs[0] == Block(BASE, 0) && bs[i].addr >= BASE
  {}

  lemma FirstSound(mem: Memory)
    requires BASE in mem && mem[BASE] == Header(BASE, 0)
    ensures Sound(mem, [Block(BASE, 0)], map[], {})
  {
    assert forall a :: !InBlocks([Block(BASE, 0)], a);
    assert forall a :: !InLive(map[], a);
  }

  lemma PutRoom(bs: seq<Block>, t: nat, b: Block)
    requires t < |bs| && Ordered(bs)
    ensures HasRoom(Put(bs, t, b), b.size)
  {
    PutAt(bs, t, b, 0);
    assert Put(bs, t, b)[Place(bs, t, b)].size >= b.size;
  }

  lemma BaseFirst(bs: seq<Block>)
    requires Ordered(bs)
    ensures |bs| >= 1 && bs[0] == Block(BASE, 0)
  {}

  lemma SearchReady(mem: Memory, bs: seq<Block>, live: map<int, int>, owned: set<int>, l: int)
    requires Sound(mem, bs, live, owned) && l in live
    ensures Ordered(bs) && Linked(mem, bs) && BASE < l && l in mem && mem[l].size == live[l]
  {
    assert Holds(Block(l, live[l]), l);
    assert InLive(live, l);
  }

  /** Block t keeps its address. */
  lemma PutKeeps(bs: seq<Block>, t: nat, b: Block)
    requires t < |bs|
    ensures t < |Put(bs, t, b)| && Put(bs, t, b)[t].addr == bs[t].addr
  {
    PutAt(bs, t, b, t);
  }
}
