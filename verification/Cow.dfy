/** Copy-on-write fork (vm.c cowuvm, handle_cow_pagefault and the release of frames in
    deallocuvm and freevm) over the reference counts of kalloc.c. Page tables are one map from
    (process, virtual page) to a present entry; swapping is not part of this machine. */
module Cow {
  import opened Common
  import opened Kalloc
  import opened PageData
  import opened Sets

  const USERPAGES := KERNBASE / PGSIZE

  datatype Key = Key(pid: nat, vpn: nat)
  datatype Pte = Pte(frame: int, writable: bool, user: bool, cow: bool)

  type Tables = map<Key, Pte>
  type Frames = map<int, Page>

  /** The entries that map frame f. */
  function Mappers(ptes: Tables, f: int): set<Key> {
    set k | k in ptes && ptes[k].frame == f
  }

  /** Every frame's count is the number of entries mapping it; a frame mapped writable is
      mapped once; an entry that is not writable is marked copy-on-write. */
  ghost predicate Counted(ptes: Tables, refs: map<int, nat>, data: Frames) {
    && (forall k :: k in ptes ==> ptes[k].frame in refs && ptes[k].frame in data && k.vpn < USERPAGES)
    && (forall f :: f in refs ==> refs[f] == |Mappers(ptes, f)|)
    && (forall k :: k in ptes && ptes[k].writable ==> refs[ptes[k].frame] == 1)
    && (forall k :: k in ptes && !ptes[k].writable ==> ptes[k].cow)
    && (forall k :: k in ptes ==> ptes[k].user)
  }

  /** The contents of every address space. */
  function View(ptes: Tables, data: Frames): map<Key, Page> {
    map k | k in ptes :: if ptes[k].frame in data then data[ptes[k].frame] else ZeroPage()
  }

  // ----- counting entries

  lemma MappersUpdate(ptes: Tables, k: Key, pte: Pte, f: int)
    ensures |Mappers(ptes[k := pte], f)| ==
      |Mappers(ptes, f)| - (if k in ptes && ptes[k].frame == f then 1 else 0) + if pte.frame == f then 1 else 0
  {
    var s, t := Mappers(ptes, f), Mappers(ptes[k := pte], f);
    assert s - {k} == t - {k};
    assert k in s ==> s == s - {k} + {k};
    assert k in t ==> t == t - {k} + {k};
  }

  lemma MappersRemove(ptes: Tables, k: Key, f: int)
    requires k in ptes
    ensures |Mappers(ptes - {k}, f)| == |Mappers(ptes, f)| - if ptes[k].frame == f then 1 else 0
  {
    var s, t := Mappers(ptes, f), Mappers(ptes - {k}, f);
    assert t == s - {k};
  }

  lemma MapperSet(ptes: Tables, k: Key, k': Key)
    requires k in ptes && k' in ptes && ptes[k].frame == ptes[k'].frame && k != k'
    ensures |Mappers(ptes, ptes[k].frame)| >= 2
  {
    assert {k, k'} <= Mappers(ptes, ptes[k].frame);
    SubsetSize({k, k'}, Mappers(ptes, ptes[k].frame));
  }

  lemma MapperExists(ptes: Tables, k: Key)
    requires k in ptes
    ensures |Mappers(ptes, ptes[k].frame)| >= 1
  {
    SubsetSize({k}, Mappers(ptes, ptes[k].frame));
  }

  /** A frame mapped once is mapped by no other entry. */
  lemma SoleMapper(ptes: Tables, refs: map<int, nat>, data: Frames, k: Key, k': Key)
    requires Counted(ptes, refs, data) && k in ptes && k' in ptes && refs[ptes[k].frame] == 1
    requires ptes[k].frame == ptes[k'].frame
    ensures k == k'
  {
    if k != k' {
      MapperSet(ptes, k, k');
    }
  }

  /** The counts are a function of which entry maps which frame. */
  lemma CountsDetermined(ptes: Tables, refs: map<int, nat>, data: Frames, ptes': Tables, refs': map<int, nat>,
                         data': Frames)
    requires Counted(ptes, refs, data) && Counted(ptes', refs', data')
    requires ptes.Keys == ptes'.Keys && refs.Keys == refs'.Keys
    requires forall k :: k in ptes ==> ptes[k].frame == ptes'[k].frame
    ensures refs == refs'
  {
    forall f | f in refs
      ensures refs[f] == refs'[f]
    {
      assert Mappers(ptes, f) == Mappers(ptes', f);
    }
  }

  // ----- the elementary changes

  /** A fresh frame f for a new page k. */
  lemma MapFresh(ptes: Tables, refs: map<int, nat>, data: Frames, k: Key, f: int)
    requires Counted(ptes, refs, data) && k !in ptes && f in refs && refs[f] == 0 && k.vpn < USERPAGES
    ensures Counted(ptes[k := Pte(f, true, true, false)], refs[f := 1], data[f := ZeroPage()])
    ensures View(ptes[k := Pte(f, true, true, false)], data[f := ZeroPage()]) == View(ptes, data)[k := ZeroPage()]
  {
    var pte := Pte(f, true, true, false);
    forall g
      ensures |Mappers(ptes[k := pte], g)| == |Mappers(ptes, g)| + if f == g then 1 else 0
    {
      MappersUpdate(ptes, k, pte, g);
    }
    forall j | j in ptes
      ensures ptes[j].frame != f
    {
      MapperExists(ptes, j);
    }
  }

  /** Page k gives up its frame. */
  lemma Unmap(ptes: Tables, refs: map<int, nat>, data: Frames, k: Key)
    requires Counted(ptes, refs, data) && k in ptes
    ensures ptes[k].frame in refs && refs[ptes[k].frame] > 0
    ensures Counted(ptes - {k}, refs[ptes[k].frame := refs[ptes[k].frame] - 1], data)
    ensures View(ptes - {k}, data) == View(ptes, data) - {k}
  {
    MapperExists(ptes, k);
    forall g
      ensures |Mappers(ptes - {k}, g)| == |Mappers(ptes, g)| - if ptes[k].frame == g then 1 else 0
    {
      MappersRemove(ptes, k, g);
    }
    forall j | j in ptes && j != k && ptes[j].writable
      ensures ptes[j].frame != ptes[k].frame
    {
      if ptes[j].frame == ptes[k].frame {
        SoleMapper(ptes, refs, data, j, k);
      }
    }
  }

  /** New flags on an entry that keeps its frame. */
  lemma Reflag(ptes: Tables, data: Frames, k: Key, pte: Pte)
    requires k in ptes && pte.frame == ptes[k].frame
    ensures forall f :: Mappers(ptes[k := pte], f) == Mappers(ptes, f)
    ensures View(ptes[k := pte], data) == View(ptes, data)
  {}

  function Protected(pte: Pte): Pte {
    pte.(cow := true, writable := false)
  }

  /** Marking an entry copy-on-write changes no count and no contents. */
  lemma Protect(ptes: Tables, refs: map<int, nat>, data: Frames, k: Key)
    requires Counted(ptes, refs, data) && k in ptes
    ensures Counted(ptes[k := Protected(ptes[k])], refs, data)
    ensures View(ptes[k := Protected(ptes[k])], data) == View(ptes, data)
  {
    Reflag(ptes, data, k, Protected(ptes[k]));
  }

  /** A protected entry k is copied to a new page j: one more reference, same contents. */
  lemma Share(ptes: Tables, refs: map<int, nat>, data: Frames, k: Key, j: Key)
    requires Counted(ptes, refs, data) && k in ptes && j !in ptes && !ptes[k].writable && j.vpn < USERPAGES
    ensures ptes[k].frame in refs && refs[ptes[k].frame] > 0
    ensures Counted(ptes[j := ptes[k]], refs[ptes[k].frame := refs[ptes[k].frame] + 1], data)
    ensures View(ptes[j := ptes[k]], data) == View(ptes, data)[j := View(ptes, data)[k]]
  {
    MapperExists(ptes, k);
    forall g
      ensures |Mappers(ptes[j := ptes[k]], g)| == |Mappers(ptes, g)| + if ptes[k].frame == g then 1 else 0
    {
      MappersUpdate(ptes, j, ptes[k], g);
    }
    forall i | i in ptes && ptes[i].writable
      ensures ptes[i].frame != ptes[k].frame
    {
      if ptes[i].frame == ptes[k].frame {
        SoleMapper(ptes, refs, data, i, k);
      }
    }
  }

  /** The write fault on a shared frame: a private copy, writable; the entry keeps PTE_COW. */
  lemma Copy(ptes: Tables, refs: map<int, nat>, data: Frames, k: Key, f: int)
    requires Counted(ptes, refs, data) && k in ptes && refs[ptes[k].frame] > 1 && f in refs && refs[f] == 0
    ensures
      var g := ptes[k].frame;
      var ptes' := ptes[k := ptes[k].(frame := f, writable := true)];
      var refs', data' := refs[f := 1][g := refs[g] - 1], data[f := data[g]];
      Counted(ptes', refs', data') && View(ptes', data') == View(ptes, data)
  {
    var g := ptes[k].frame;
    var pte := ptes[k].(frame := f, writable := true);
    forall h
      ensures |Mappers(ptes[k := pte], h)| == |Mappers(ptes, h)| - (if g == h then 1 else 0) + if f == h then 1 else 0
    {
      MappersUpdate(ptes, k, pte, h);
    }
    forall j | j in ptes
      ensures ptes[j].frame != f
    {
      MapperExists(ptes, j);
    }
  }

  /** The write fault on a frame held once: it becomes writable in place. */
  lemma Unshare(ptes: Tables, refs: map<int, nat>, data: Frames, k: Key)
    requires Counted(ptes, refs, data) && k in ptes && refs[ptes[k].frame] == 1
    ensures
      var ptes' := ptes[k := ptes[k].(writable := true, cow := false)];
      Counted(ptes', refs, data) && View(ptes', data) == View(ptes, data)
  {
    Reflag(ptes, data, k, ptes[k].(writable := true, cow := false));
  }

  /** Isolation: a store through a writable entry is seen at that page of that process only. */
  lemma StoreIsolated(ptes: Tables, refs: map<int, nat>, data: Frames, k: Key, page: Page)
    requires Counted(ptes, refs, data) && k in ptes && ptes[k].writable
    ensures Counted(ptes, refs, data[ptes[k].frame := page])
    ensures View(ptes, data[ptes[k].frame := page]) == View(ptes, data)[k := page]
  {
    forall j | j in ptes && j != k
      ensures ptes[j].frame != ptes[k].frame
    {
      if ptes[j].frame == ptes[k].frame {
        SoleMapper(ptes, refs, data, k, j);
      }
    }
  }

  // ----- address spaces as independent copies

  /** Space q receives the first n pages of space p. */
  function Forked(mem: map<Key, Page>, p: nat, q: nat, n: nat): map<Key, Page> {
    if n == 0 || Key(p, n - 1) !in mem then mem
    else Forked(mem, p, q, n - 1)[Key(q, n - 1) := mem[Key(p, n - 1)]]
  }

  /** Space p without its first n pages. */
  function Without<V>(mem: map<Key, V>, p: nat, n: nat): map<Key, V> {
    if n == 0 then mem else Without(mem, p, n - 1) - {Key(p, n - 1)}
  }

  lemma {:induction false} ForkedAt(mem: map<Key, Page>, p: nat, q: nat, n: nat, k: Key)
    requires p != q && forall v :: 0 <= v < n ==> Key(p, v) in mem
    ensures k in Forked(mem, p, q, n) <==> k in mem || (k.pid == q && k.vpn < n)
    ensures k in Forked(mem, p, q, n) ==>
      Forked(mem, p, q, n)[k] == if k.pid == q && k.vpn < n then mem[Key(p, k.vpn)] else mem[k]
  {
    if n > 0 {
      ForkedAt(mem, p, q, n - 1, k);
    }
  }

  lemma {:induction false} WithoutAt<V>(mem: map<Key, V>, p: nat, n: nat, k: Key)
    ensures k in Without(mem, p, n) <==> k in mem && !(k.pid == p && k.vpn < n)
    ensures k in Without(mem, p, n) ==> Without(mem, p, n)[k] == mem[k]
  {
    if n > 0 {
      WithoutAt(mem, p, n - 1, k);
    }
  }

  /** A fork taken back leaves what was there. */
  lemma ForkUndone(mem: map<Key, Page>, p: nat, q: nat, n: nat)
    requires p != q && n <= USERPAGES
    requires forall v :: 0 <= v < n ==> Key(p, v) in mem
    requires forall k :: k in mem ==> k.pid != q
    ensures Without(Forked(mem, p, q, n), q, USERPAGES) == mem
  {
    var w := Without(Forked(mem, p, q, n), q, USERPAGES);
    forall k
      ensures k in w <==> k in mem
      ensures k in mem ==> w[k] == mem[k]
    {
      ForkedAt(mem, p, q, n, k);
      WithoutAt(Forked(mem, p, q, n), q, USERPAGES, k);
    }
  }

  datatype Op =
    | NewPage(k: Key)                          // allocuvm of one page
    | Fork(p: nat, q: nat, n: nat, fail: int)  // cowuvm; mappages fails at page `fail` if that is below n
    | Load(k: Key, offset: nat)
    | Store(k: Key, offset: nat, value: Byte)
    | Exit(p: nat)                             // freevm

  datatype Obs = Done | Value(b: Byte) | Refused

  /** What the kernel demands of the caller of each operation. */
  predicate Legal(mem: map<Key, Page>, op: Op) {
    match op
    case NewPage(k) => k !in mem && k.vpn < USERPAGES
    case Fork(p, q, n, _) =>
      && p != q && n <= USERPAGES
      && (forall v :: 0 <= v < n ==> Key(p, v) in mem)
      && (forall k :: k in mem ==> k.pid != q)
    case Load(_, _) => true
    case Store(_, _, _) => true
    case Exit(_) => true
  }

  /** The same operations on address spaces that share nothing. */
  function FlatStep(mem: map<Key, Page>, op: Op): (map<Key, Page>, Obs) {
    match op
    case NewPage(k) => (mem[k := ZeroPage()], Done)
    case Fork(p, q, n, fail) => if 0 <= fail < n then (mem, Refused) else (Forked(mem, p, q, n), Done)
    case Load(k, i) => if k in mem then (mem, Value(ByteAt(mem[k], i))) else (mem, Refused)
    case Store(k, i, b) => if k in mem then (mem[k := WithByte(mem[k], i, b)], Done) else (mem, Refused)
    case Exit(p) => (Without(mem, p, USERPAGES), Done)
  }

  function FlatRun(mem: map<Key, Page>, ops: seq<Op>): (map<Key, Page>, seq<Obs>)
    decreases |ops|
  {
    if ops == [] then (mem, [])
    else
      var (m1, obs) := FlatRun(mem, ops[..|ops|-1]);
      var (m2, o) := FlatStep(m1, ops[|ops|-1]);
      (m2, obs + [o])
  }

  predicate LegalRun(mem: map<Key, Page>, ops: seq<Op>)
    decreases |ops|
  {
    ops != [] ==>
      LegalRun(mem, ops[..|ops|-1]) && Legal(FlatRun(mem, ops[..|ops|-1]).0, ops[|ops|-1])
  }

  // ----- what a run shows, from its operations alone

  predicate AllWhole(mem: map<Key, Page>) {
    forall k :: k in mem ==> |mem[k].bytes| == PGSIZE
  }

  /** What page k holds at offset i after ops, if there is such a page: the last byte stored there.
      A new page is zero, and a forked one starts as the parent's was at the fork. */
  function Latest(mem: map<Key, Page>, ops: seq<Op>, k: Key, i: nat): Option<Byte>
    decreases |ops|
  {
    if ops == [] then if k in mem then Some(ByteAt(mem[k], i)) else None
    else
      var before := ops[..|ops|-1];
      var now := Latest(mem, before, k, i);
      match ops[|ops|-1]
      case NewPage(k') => if k' == k then Some(0) else now
      case Fork(p, q, n, fail) =>
        if !(0 <= fail < n) && k.pid == q && k.vpn < n then Latest(mem, before, Key(p, k.vpn), i) else now
      case Load(_, _) => now
      case Store(k', i', b) => if k' == k && i' == i && now.Some? then Some(b) else now
      case Exit(p) => if k.pid == p && k.vpn < USERPAGES then None else now
  }

  /** What an operation shows after others. */
  function Shown(mem: map<Key, Page>, before: seq<Op>, op: Op): Obs {
    match op
    case NewPage(_) => Done
    case Fork(_, _, n, fail) => if 0 <= fail < n then Refused else Done
    case Load(k, i) =>
      var byte := Latest(mem, before, k, i);
      if byte.Some? then Value(byte.value) else Refused
    case Store(k, i, _) => if Latest(mem, before, k, i).Some? then Done else Refused
    case Exit(_) => Done
  }

  function At(mem: map<Key, Page>, k: Key, i: nat): Option<Byte> {
    if k in mem then Some(ByteAt(mem[k], i)) else None
  }

  lemma StepWhole(mem: map<Key, Page>, op: Op)
    requires AllWhole(mem) && Legal(mem, op)
    ensures AllWhole(FlatStep(mem, op).0)
  {
    var mem' := FlatStep(mem, op).0;
    forall k | k in mem'
      ensures |mem'[k].bytes| == PGSIZE
    {
      if op.Fork? && !(0 <= op.fail < op.n) {
        ForkedAt(mem, op.p, op.q, op.n, k);
      } else if op.Exit? {
        WithoutAt(mem, op.p, USERPAGES, k);
      }
    }
  }

  lemma {:induction false} FlatMeaning(mem: map<Key, Page>, ops: seq<Op>, k: Key, i: nat)
    requires AllWhole(mem) && LegalRun(mem, ops) && i < PGSIZE
    ensures AllWhole(FlatRun(mem, ops).0) && At(FlatRun(mem, ops).0, k, i) == Latest(mem, ops, k, i)
    decreases |ops|
  {
    if ops != [] {
      var before, op := ops[..|ops|-1], ops[|ops|-1];
      var m := FlatRun(mem, before).0;
      FlatMeaning(mem, before, k, i);
      StepWhole(m, op);
      if op.Fork? && !(0 <= op.fail < op.n) {
        FlatMeaning(mem, before, Key(op.p, k.vpn), i);
        ForkedAt(m, op.p, op.q, op.n, k);
      } else if op.Exit? {
        WithoutAt(m, op.p, USERPAGES, k);
      }
    }
  }

  /** An access is to a place within its page. */
  predicate InPage(op: Op) {
    op.Load? || op.Store? ==> op.offset < PGSIZE
  }

  lemma ShownMeaning(mem: map<Key, Page>, ops: seq<Op>, op: Op)
    requires AllWhole(mem) && LegalRun(mem, ops) && InPage(op)
    ensures FlatStep(FlatRun(mem, ops).0, op).1 == Shown(mem, ops, op)
  {
    if op.Load? || op.Store? {
      FlatMeaning(mem, ops, op.k, op.offset);
    }
  }

  datatype FaultResult = Resolved | Killed | NoMemory

  // ----- the machine

  class Machine {
    const kmem: Kmem
    var ptes: Tables
    var data: Frames
    ghost var mem: map<Key, Page>

    ghost predicate Valid()
      reads this, kmem, kmem.runs
    {
      && kmem.Valid()
      && Counted(ptes, kmem.Refs(), data)
      && View(ptes, data) == mem
    }

    constructor (kmem: Kmem)
      requires kmem.Valid() && forall f :: f in kmem.managed ==> f in kmem.free
      ensures Valid() && this.kmem == kmem && mem == map[]
    {
      this.kmem := kmem;
      ptes, data, mem := map[], map[], map[];
      new;
      forall f | f in kmem.Refs()
        ensures kmem.Refs()[f] == |Mappers(ptes, f)|
      {
        RefsAt(kmem.runs[..], kmem.freelist, kmem.managed, kmem.free, f);
        assert Mappers(ptes, f) == {};
      }
    }

    /** kalloc, as a frame number with its count known to have been 0. */
    method Kalloc() returns (f: int)
      requires Valid()
      modifies kmem, kmem.runs
      ensures kmem.Valid() && kmem.managed == old(kmem.managed)
      ensures f == NULL <==> old(kmem.free) == []
      ensures f == NULL ==> kmem.free == [] && kmem.Refs() == old(kmem.Refs())
      ensures f != NULL ==>
        f in old(kmem.Refs()) && old(kmem.Refs())[f] == 0 && kmem.Refs() == old(kmem.Refs())[f := 1]
    {
      if kmem.free != [] {
        FreeHead(kmem.runs[..], kmem.freelist, kmem.managed, kmem.free);
      }
      hide Sound, RefsOf;
      var v := kmem.KallocPage();
      f := if v == NULL then NULL else RunIndex(v);
    }

    method AllocPage(k: Key) returns (ok: bool)
      requires Valid() && k !in ptes && k.vpn < USERPAGES
      modifies this, kmem, kmem.runs
      ensures if ok then Valid() && mem == old(mem)[k := ZeroPage()] else kmem.free == []
    {
      hide Sound, RefsOf, Counted, View;
      ghost var refs := kmem.Refs();
      var f := Kalloc();
      if f == NULL {
        return false;
      }
      MapFresh(ptes, refs, data, k, f);
      data := data[f := ZeroPage()];
      ptes := ptes[k := Pte(f, true, true, false)];
      mem := mem[k := ZeroPage()];
      return true;
    }

    /** deallocuvm over all user pages of space p: every frame mapped loses one reference. */
    method Freevm(p: nat)
      requires Valid()
      modifies this, kmem, kmem.runs
      ensures Valid() && mem == Without(old(mem), p, USERPAGES) && data == old(data)
      ensures ptes == Without(old(ptes), p, USERPAGES) && kmem.Refs().Keys == old(kmem.Refs()).Keys
    {
      hide Sound, RefsOf, Counted, View;
      var a := 0;
      while a < USERPAGES
        invariant 0 <= a <= USERPAGES && Valid()
        invariant mem == Without(old(mem), p, a) && data == old(data)
        invariant ptes == Without(old(ptes), p, a) && kmem.Refs().Keys == old(kmem.Refs()).Keys
      {
        FreePage(Key(p, a));
        a := a + 1;
      }
    }

    /** One page of deallocuvm. */
    method FreePage(k: Key)
      requires Valid()
      modifies this, kmem, kmem.runs
      ensures Valid() && mem == old(mem) - {k} && data == old(data)
      ensures ptes == old(ptes) - {k} && kmem.Refs().Keys == old(kmem.Refs()).Keys
    {
      hide Sound, RefsOf, Counted, View;
      ViewKeys(ptes, data);
      if k in ptes {
        Unmap(ptes, kmem.Refs(), data, k);
        var f := ptes[k].frame;
        ManagedRefs(kmem.runs[..], kmem.freelist, kmem.managed, kmem.free, f);
        AddressIndexInverse(f, 0);
        kmem.Release(PageAddress(f));
        ptes := ptes - {k};
        mem := mem - {k};
      } else {
        assert ptes - {k} == ptes && mem - {k} == mem;
      }
    }

    /** cowuvm: share the first n pages of space p with the new space q. When mappages fails at
        page `fail` everything done for q is taken back. */
    method Cowuvm(p: nat, q: nat, n: nat, fail: int) returns (ok: bool)
      requires Valid() && Legal(mem, Fork(p, q, n, fail))
      modifies this, kmem, kmem.runs
      ensures Valid() && ok == !(0 <= fail < n)
      ensures mem == if ok then Forked(old(mem), p, q, n) else old(mem)
      ensures !ok ==> kmem.Refs() == old(kmem.Refs())
    {
      hide Sound, RefsOf, Counted, View, SharedUpTo, Without;
      ghost var ptes0, data0, refs0 := ptes, data, kmem.Refs();
      ViewKeys(ptes, data);
      SharedNone(ptes, p, q);
      var i := 0;
      while i < n
        invariant 0 <= i <= n && !(0 <= fail < i) && Valid()
        invariant mem == Forked(old(mem), p, q, i) && data == data0
        invariant kmem.Refs().Keys == refs0.Keys
        invariant SharedUpTo(ptes0, ptes, p, q, i)
      {
        SharedKeys(ptes0, ptes, p, q, i);
        ghost var before := ptes;
        ForkedAt(old(mem), p, q, i, Key(p, i));
        SharePage(Key(p, i), Key(q, i), i == fail);
        SharedStep(ptes0, before, ptes, p, q, i, i == fail);
        if i == fail {
          UndoFork(ptes0, ptes, p, q, i);
          ForkUndone(old(mem), p, q, i);
          Freevm(q);
          CountsDetermined(ptes0, refs0, data0, ptes, kmem.Refs(), data);
          return false;
        }
        i := i + 1;
      }
      return true;
    }

    /** One page of cowuvm: protect k and, unless mappages fails, map it as j too. */
    method SharePage(k: Key, j: Key, fails: bool)
      requires Valid() && k in ptes && j !in ptes && j.vpn < USERPAGES && k != j
      modifies this, kmem.runs
      ensures Valid() && kmem.Refs().Keys == old(kmem.Refs()).Keys && data == old(data)
      ensures fails ==> mem == old(mem) && ptes == old(ptes)[k := Protected(old(ptes)[k])]
      ensures !fails ==>
        && k in old(mem) && mem == old(mem)[j := old(mem)[k]]
        && ptes == old(ptes)[k := Protected(old(ptes)[k])][j := Protected(old(ptes)[k])]
    {
      hide Sound, RefsOf, Counted, View;
      ViewKeys(ptes, data);
      Protect(ptes, kmem.Refs(), data, k);
      ptes := ptes[k := Protected(ptes[k])];
      if !fails {
        Share(ptes, kmem.Refs(), data, k, j);
        var f := ptes[k].frame;
        ManagedRefs(kmem.runs[..], kmem.freelist, kmem.managed, kmem.free, f);
        AddressIndexInverse(f, 0);
        ptes := ptes[j := ptes[k]];
        kmem.RefInc(PageAddress(f));
        mem := mem[j := mem[k]];
      }
    }

    /** The page-fault handler on a page that is mapped. A write to a copy-on-write page gets a
        private writable frame and changes no contents anywhere; anything else kills the process. */
    method HandleCowPagefault(k: Key, write: bool) returns (r: FaultResult)
      requires Valid() && k in ptes
      modifies this, kmem, kmem.runs
      ensures r.Killed? <==> !write || !old(ptes)[k].cow
      ensures r.NoMemory? ==> kmem.free == []
      ensures !r.NoMemory? ==> Valid() && mem == old(mem)
      ensures r.Resolved? ==> k in ptes && ptes[k].writable
    {
      hide Sound, RefsOf, Counted, View;
      if !write || !ptes[k].cow {
        return Killed;
      }
      var f := ptes[k].frame;
      ghost var refs := kmem.Refs();
      Mapped(ptes, refs, data, k);
      ManagedRefs(kmem.runs[..], kmem.freelist, kmem.managed, kmem.free, f);
      AddressIndexInverse(f, 0);
      var count := kmem.GetRefs(PageAddress(f));
      if count > 1 {
        var g := Kalloc();
        if g == NULL {
          return NoMemory; // the code goes on with a null page
        }
        Copy(ptes, refs, data, k, g);
        data := data[g := data[f]];
        ptes := ptes[k := ptes[k].(frame := g, writable := true)];
        kmem.RefDec(PageAddress(f));
      } else {
        Unshare(ptes, refs, data, k);
        ptes := ptes[k := ptes[k].(writable := true, cow := false)];
      }
      return Resolved;
    }

    method LoadByte(k: Key, i: nat) returns (o: Obs)
      requires Valid()
      ensures (mem, o) == FlatStep(mem, Load(k, i))
    {
      if k !in ptes {
        return Refused;
      }
      o := Value(ByteAt(data[ptes[k].frame], i));
    }

    /** A user store: the write fault first, if the entry is not writable. */
    method StoreByte(k: Key, i: nat, b: Byte) returns (ok: bool, o: Obs)
      requires Valid()
      modifies this, kmem, kmem.runs
      ensures !ok ==> kmem.free == []
      ensures ok ==> Valid() && (mem, o) == FlatStep(old(mem), Store(k, i, b))
      ensures ok && k in old(mem) && i < |old(mem)[k].bytes| ==> mem == old(mem)[k := Page(old(mem)[k].bytes[i := b])]
    {
      hide Sound, RefsOf, Counted, View;
      ViewKeys(ptes, data);
      if k !in ptes {
        return true, Refused;
      }
      if !ptes[k].writable {
        Mapped(ptes, kmem.Refs(), data, k);
        var r := HandleCowPagefault(k, true);
        if r == NoMemory {
          return false, Refused;
        }
      }
      Mapped(ptes, kmem.Refs(), data, k);
      var page := WithByte(data[ptes[k].frame], i, b);
      StoreIsolated(ptes, kmem.Refs(), data, k, page);
      data := data[ptes[k].frame := page];
      mem := mem[k := page];
      return true, Done;
    }

    method Step(op: Op) returns (ok: bool, o: Obs)
      requires Valid() && Legal(mem, op)
      modifies this, kmem, kmem.runs
      ensures ok ==> Valid() && (mem, o) == FlatStep(old(mem), op)
      ensures !ok ==> kmem.free == []
    {
      hide Sound, RefsOf, Counted, View;
      ViewKeys(ptes, data);
      ok, o := true, Done;
      match op {
        case NewPage(k) =>
          ok := AllocPage(k);
        case Fork(p, q, n, fail) =>
          var forked := Cowuvm(p, q, n, fail);
          o := if forked then Done else Refused;
        case Load(k, i) =>
          o := LoadByte(k, i);
        case Store(k, i, b) =>
          ok, o := StoreByte(k, i, b);
        case Exit(p) =>
          Freevm(p);
      }
    }

    /** Copy-on-write isolation: over any forks, exits and interleaved loads and stores, every
        process observes address spaces that share nothing: every load shows the last byte stored
        at that place of its own space, or what the place held at the fork. A run ends early only
        when physical memory is used up. */
    method Run(ops: seq<Op>) returns (done: nat, obs: seq<Obs>)
      requires Valid() && LegalRun(mem, ops)
      modifies this, kmem, kmem.runs
      ensures done <= |ops| && obs == FlatRun(old(mem), ops[..done]).1
      ensures done == |ops| ==> Valid() && mem == FlatRun(old(mem), ops).0
      ensures done < |ops| ==> kmem.free == []
      ensures |obs| == done
      ensures AllWhole(old(mem)) ==>
        forall i :: 0 <= i < done && InPage(ops[i]) ==> obs[i] == Shown(old(mem), ops[..i], ops[i])
    {
      hide Sound, RefsOf, Counted, View, Shown, FlatStep, Legal, AllWhole;
      done, obs := 0, [];
      while done < |ops|
        invariant done <= |ops| && Valid() && |obs| == done
        invariant (mem, obs) == FlatRun(old(mem), ops[..done])
        invariant old(AllWhole(mem)) ==>
          forall i :: 0 <= i < done && InPage(ops[i]) ==> obs[i] == Shown(old(mem), ops[..i], ops[i])
      {
        LegalPrefix(old(mem), ops, done);
        if AllWhole(old(mem)) && InPage(ops[done]) {
          ShownMeaning(old(mem), ops[..done], ops[done]);
        }
        assert ops[..done+1][..done] == ops[..done];
        var ok, o := Step(ops[done]);
        if !ok {
          return;
        }
        done, obs := done + 1, obs + [o];
      }
      assert ops[..done] == ops;
    }
  }

  lemma {:induction false} LegalPrefix(mem: map<Key, Page>, ops: seq<Op>, i: nat)
    requires LegalRun(mem, ops) && i < |ops|
    ensures LegalRun(mem, ops[..i]) && Legal(FlatRun(mem, ops[..i]).0, ops[i])
    decreases |ops|
  {
    var n := |ops| - 1;
    if i < n {
      LegalPrefix(mem, ops[..n], i);
      assert ops[..n][..i] == ops[..i];
    }
  }

  lemma Mapped(ptes: Tables, refs: map<int, nat>, data: Frames, k: Key)
    requires Counted(ptes, refs, data) && k in ptes
    ensures ptes[k].frame in refs && ptes[k].frame in data && refs[ptes[k].frame] >= 1
    ensures View(ptes, data)[k] == data[ptes[k].frame]
    ensures !ptes[k].writable ==> ptes[k].cow
  {
    MapperExists(ptes, k);
  }

  /** The entries after i rounds of cowuvm: frames as before, plus the pages of q so far. */
  predicate SharedUpTo(ptes0: Tables, ptes: Tables, p: nat, q: nat, i: nat) {
    && ptes.Keys >= ptes0.Keys
    && (forall k :: k in ptes0 ==> ptes[k].frame == ptes0[k].frame)
    && (forall k :: k in ptes && k !in ptes0 ==> k.pid == q && k.vpn < i)
  }

  lemma SharedNone(ptes: Tables, p: nat, q: nat)
    ensures SharedUpTo(ptes, ptes, p, q, 0)
  {}

  lemma SharedKeys(ptes0: Tables, ptes: Tables, p: nat, q: nat, i: nat)
    requires SharedUpTo(ptes0, ptes, p, q, i) && Key(p, i) in ptes0
    requires forall k :: k in ptes0 ==> k.pid != q
    ensures Key(p, i) in ptes && Key(q, i) !in ptes
  {}

  lemma SharedStep(ptes0: Tables, before: Tables, ptes: Tables, p: nat, q: nat, i: nat, fails: bool)
    requires SharedUpTo(ptes0, before, p, q, i) && Key(p, i) in ptes0
    requires forall k :: k in ptes0 ==> k.pid != q
    requires
      var protected := before[Key(p, i) := Protected(before[Key(p, i)])];
      ptes == if fails then protected else protected[Key(q, i) := Protected(before[Key(p, i)])]
    ensures SharedUpTo(ptes0, ptes, p, q, if fails then i else i + 1)
  {}

  lemma UndoFork(ptes0: Tables, ptes: Tables, p: nat, q: nat, i: nat)
    requires SharedUpTo(ptes0, ptes, p, q, i) && i <= USERPAGES
    requires forall k :: k in ptes0 ==> k.pid != q
    ensures Without(ptes, q, USERPAGES).Keys == ptes0.Keys
    ensures forall k :: k in ptes0 ==>
      k in Without(ptes, q, USERPAGES) && Without(ptes, q, USERPAGES)[k].frame == ptes0[k].frame
  {
    var w := Without(ptes, q, USERPAGES);
    forall k
      ensures k in w <==> k in ptes0
      ensures k in ptes0 ==> k in w && w[k] == ptes[k]
    {
      WithoutAt(ptes, q, USERPAGES, k);
    }
  }

  lemma ViewKeys(ptes: Tables, data: Frames)
    ensures View(ptes, data).Keys == ptes.Keys
  {}

  lemma FreeHead(runs: seq<Run>, head: int, managed: set<int>, free: seq<int>)
    requires Sound(runs, head, managed, free) && free != []
    ensures free[0] in RefsOf(runs, managed) && RefsOf(runs, managed)[free[0]] == 0 && free[0] != NULL
  {
    RefsAt(runs, head, managed, free, free[0]);
  }

  lemma ManagedRefs(runs: seq<Run>, head: int, managed: set<int>, free: seq<int>, f: int)
    requires Sound(runs, head, managed, free) && f in RefsOf(runs, managed)
    ensures f in managed && 0 <= f
  {}
}
