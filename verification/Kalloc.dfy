/** The physical page allocator with reference counts (kalloc.c). `runs` is the array kmem.runs,
    indexed by physical page number; a null `next` or `freelist` is NULL. */
module Kalloc {
  import opened Common

  const PHYSTOP := 0xE000000
  const MAXPAGES := PHYSTOP / PGSIZE
  const NULL := -1

  datatype Run = Run(next: int, refcount: nat)

  /** &kmem.runs[V2P(v) / PGSIZE]. */
  function RunIndex(v: nat): (i: int)
    requires KERNBASE <= v
  {
    (v - KERNBASE) / PGSIZE
  }

  /** P2V((r - kmem.runs) * PGSIZE). */
  function PageAddress(i: nat): (v: nat) {
    i * PGSIZE + KERNBASE
  }

  /** Page addresses and run indices are in one-to-one correspondence. */
  lemma AddressIndexInverse(i: nat, v: nat)
    ensures RunIndex(PageAddress(i)) == i
    ensures KERNBASE <= v && v % PGSIZE == 0 ==> PageAddress(RunIndex(v)) == v
  {}

  predicate Freeable(end: nat, v: nat) {
    v % PGSIZE == 0 && end <= v && KERNBASE <= v && v - KERNBASE < PHYSTOP
  }

  function After(s: seq<int>, i: nat): int {
    if i + 1 < |s| then s[i+1] else NULL
  }

  /** The chain that starts at head and follows next is exactly `free`. */
  predicate Chain(runs: seq<Run>, head: int, free: seq<int>) {
    && (forall i :: 0 <= i < |free| ==> 0 <= free[i] < |runs|)
    && head == (if free == [] then NULL else free[0])
    && (forall i :: 0 <= i < |free| ==> runs[free[i]].next == After(free, i))
    && NoDuplicates(free)
  }

  /** The free list holds exactly the managed frames with reference count 0. */
  predicate Accounted(runs: seq<Run>, managed: set<int>, free: seq<int>) {
    && (forall f :: f in managed ==> 0 <= f < |runs|)
    && (forall f :: f in managed ==> (runs[f].refcount == 0 <==> f in free))
    && (forall i :: 0 <= i < |free| ==> free[i] in managed)
  }

  lemma {:induction false} ListSize(free: seq<int>)
    requires NoDuplicates(free)
    ensures |set f | f in free| == |free|
  {
    if free != [] {
      var n := |free| - 1;
      ListSize(free[..n]);
      assert (set f | f in free) == (set f | f in free[..n]) + {free[n]};
    }
  }

  lemma ChainSize(runs: seq<Run>, head: int, free: seq<int>)
    requires Chain(runs, head, free)
    ensures |set f | f in free| == |free|
  {
    ListSize(free);
  }

  /** One chain from one head: the free list is a function of the memory. */
  lemma {:induction false} ChainUnique(runs: seq<Run>, head: int, s: seq<int>, t: seq<int>)
    requires Chain(runs, head, s) && Chain(runs, head, t)
    ensures s == t
    decreases |s|
  {
    if s != [] && t != [] {
      ChainTail(runs, head, s);
      ChainTail(runs, head, t);
      ChainUnique(runs, runs[head].next, s[1..], t[1..]);
      assert s == [s[0]] + s[1..] && t == [t[0]] + t[1..];
    }
  }

  lemma ChainTail(runs: seq<Run>, head: int, s: seq<int>)
    requires Chain(runs, head, s) && s != []
    ensures Chain(runs, runs[head].next, s[1..])
  {
    var t := s[1..];
    forall i | 0 <= i < |t|
      ensures 0 <= t[i] < |runs| && runs[t[i]].next == After(t, i)
    {
      assert t[i] == s[i+1] && After(t, i) == After(s, i + 1);
    }
    assert runs[s[0]].next == After(s, 0);
  }

  /** Pushing frame f, which is not on the list. */
  lemma ChainPush(runs: seq<Run>, head: int, s: seq<int>, f: int)
    requires Chain(runs, head, s) && 0 <= f < |runs| && f !in s
    ensures Chain(runs[f := Run(head, 0)], f, [f] + s)
  {
    var runs', s' := runs[f := Run(head, 0)], [f] + s;
    assert forall i :: 0 < i < |s'| ==> s'[i] == s[i-1];
    forall i | 0 <= i < |s'|
      ensures runs'[s'[i]].next == After(s', i)
    {
      if i == 0 {
        assert s'[1..] == s;
      } else {
        assert s[i-1] != f;
      }
    }
  }

  /** Changing reference counts does not touch the list. */
  lemma ChainCounts(runs: seq<Run>, runs': seq<Run>, head: int, s: seq<int>)
    requires Chain(runs, head, s) && |runs'| == |runs|
    requires forall i :: 0 <= i < |runs| ==> runs'[i].next == runs[i].next
    ensures Chain(runs', head, s)
  {}

  // ----- the allocator state as values

  predicate Sound(runs: seq<Run>, head: int, managed: set<int>, free: seq<int>) {
    |runs| == MAXPAGES && Chain(runs, head, free) && Accounted(runs, managed, free)
  }

  function RefsOf(runs: seq<Run>, managed: set<int>): map<int, nat> {
    map f | f in managed && 0 <= f < |runs| :: runs[f].refcount
  }

  /** f joins the list with count 0: a frame given back, or one handed over for the first time. */
  lemma PushSound(runs: seq<Run>, head: int, managed: set<int>, free: seq<int>, f: int)
    requires Sound(runs, head, managed, free) && 0 <= f < MAXPAGES && f !in free
    ensures Sound(runs[f := Run(head, 0)], f, managed + {f}, [f] + free)
    ensures RefsOf(runs[f := Run(head, 0)], managed + {f}) == RefsOf(runs, managed)[f := 0]
  {
    hide Chain;
    ChainPush(runs, head, free, f);
    assert forall g :: g in [f] + free <==> g == f || g in free;
  }

  lemma PopSound(runs: seq<Run>, head: int, managed: set<int>, free: seq<int>)
    requires Sound(runs, head, managed, free) && free != []
    ensures 0 <= head < MAXPAGES && head == free[0] && head in managed
    ensures
      var runs' := runs[head := runs[head].(refcount := 1)];
      && Sound(runs', runs[head].next, managed, free[1..])
      && RefsOf(runs', managed) == RefsOf(runs, managed)[head := 1]
  {
    ChainHead(runs, head, free);
    hide Chain;
    var runs' := runs[head := runs[head].(refcount := 1)];
    ChainTail(runs, head, free);
    ChainCounts(runs, runs', runs[head].next, free[1..]);
    assert forall g :: g in free <==> g == head || g in free[1..];
  }

  lemma ChainHead(runs: seq<Run>, head: int, free: seq<int>)
    requires Chain(runs, head, free) && free != []
    ensures head == free[0] && 0 <= head < |runs| && head !in free[1..]
  {}

  /** A frame's count changes: the accounting holds exactly when it stays on its side of 0. */
  lemma CountSound(runs: seq<Run>, head: int, managed: set<int>, free: seq<int>, f: int, n: nat)
    requires Sound(runs, head, managed, free) && f in managed
    ensures 0 <= f < MAXPAGES
    ensures
      var runs' := runs[f := runs[f].(refcount := n)];
      && (Sound(runs', head, managed, free) <==> (n == 0 <==> runs[f].refcount == 0))
      && RefsOf(runs', managed) == RefsOf(runs, managed)[f := n]
  {
    ChainCounts(runs, runs[f := runs[f].(refcount := n)], head, free);
  }

  /** Pushing a frame that is on the list already closes a cycle. */
  lemma ChainCycle(runs: seq<Run>, head: int, s: seq<int>, f: int)
    requires Chain(runs, head, s) && f in s && 0 <= f < |runs|
    ensures
      var runs' := runs[f := Run(head, 0)];
      forall t :: !Chain(runs', f, t)
  {
    var k :| 0 <= k < |s| && s[k] == f;
    assert forall j :: 0 <= j < k ==> s[j] != f;
    hide Chain;
    var runs', n: nat := runs[f := Run(head, 0)], k + 1;
    forall t
      ensures !Chain(runs', f, t)
    {
      if Chain(runs', f, t) {
        ChainFollows(runs, head, s, f, t, k);
        ChainDistinct(runs', f, t, n);
      }
    }
  }

  lemma ChainDistinct(runs: seq<Run>, head: int, t: seq<int>, k: nat)
    requires Chain(runs, head, t) && 0 < k < |t|
    ensures t[k] != head
  {}

  /** Up to f, a chain from the pushed frame goes through the old list. */
  lemma {:induction false} ChainFollows(runs: seq<Run>, head: int, s: seq<int>, f: int, t: seq<int>, k: nat)
    requires Chain(runs, head, s) && 0 <= f < |runs| && Chain(runs[f := Run(head, 0)], f, t)
    requires k < |s| && forall j :: 0 <= j < k ==> s[j] != f
    ensures k + 1 < |t| && t[k+1] == s[k]
  {
    if k == 0 {
      assert runs[f := Run(head, 0)][t[0]].next == After(t, 0);
    } else {
      ChainFollows(runs, head, s, f, t, k - 1);
      assert s[k-1] != f;
      assert runs[f := Run(head, 0)][t[k]].next == After(t, k);
      assert runs[s[k-1]].next == After(s, k - 1);
    }
  }

  lemma RefsPush(runs: seq<Run>, head: int, managed: set<int>, free: seq<int>, f: int)
    requires Sound(runs, head, managed, free) && 0 <= f < |runs|
    ensures RefsOf(runs[f := Run(head, 0)], managed + {f}) == RefsOf(runs, managed)[f := 0]
  {}

  lemma RefsAt(runs: seq<Run>, head: int, managed: set<int>, free: seq<int>, f: int)
    requires Sound(runs, head, managed, free) && f in managed
    ensures 0 <= f < MAXPAGES && f in RefsOf(runs, managed) && RefsOf(runs, managed)[f] == runs[f].refcount
    ensures f in free <==> runs[f].refcount == 0
  {}

  /** Frames are conserved: free ones and live ones add up to the managed ones. */
  lemma FramesConserved(runs: seq<Run>, head: int, managed: set<int>, free: seq<int>)
    requires Sound(runs, head, managed, free)
    ensures |free| + |set f | f in managed && f in RefsOf(runs, managed) && RefsOf(runs, managed)[f] > 0| == |managed|
  {
    hide Chain;
    ChainSize(runs, head, free);
    var s := set f | f in free;
    var live := set f | f in managed && f in RefsOf(runs, managed) && RefsOf(runs, managed)[f] > 0;
    assert managed == s + live;
    assert s !! live;
  }

  /** Every managed frame has an address that kfree accepts. */
  predicate AllFreeable(end: nat, managed: set<int>) {
    forall f :: f in managed ==> 0 <= f && Freeable(end, PageAddress(f))
  }

  datatype FreeResult = Freed | BadAddress | Shared

  class Kmem {
    const end: nat
    const runs: array<Run>
    var freelist: int
    ghost var free: seq<int>      // the free list, head first
    ghost var managed: set<int>   // the frames handed over by freerange

    ghost predicate Valid()
      reads this, runs
    {
      Sound(runs[..], freelist, managed, free) && AllFreeable(end, managed)
    }

    ghost function Refs(): map<int, nat>
      reads this, runs
    {
      RefsOf(runs[..], managed)
    }

    constructor (end: nat)
      ensures Valid() && this.end == end && fresh(runs)
      ensures free == [] && managed == {}
    {
      this.end := end;
      runs := new Run[MAXPAGES](_ => Run(NULL, 0));
      freelist := NULL;
      free, managed := [], {};
    }

    /** Put v on the free list whatever its count. A frame that is on the list already makes the
        list a cycle: no sequence of frames is its chain. */
    method KfreeNocheck(v: nat) returns (r: FreeResult)
      requires Valid()
      modifies this, runs
      ensures r == if Freeable(end, v) then Freed else BadAddress
      ensures !r.Freed? ==> Valid() && free == old(free) && managed == old(managed) && Refs() == old(Refs())
      ensures r.Freed? ==>
        && free == [RunIndex(v)] + old(free) && managed == old(managed) + {RunIndex(v)}
        && Refs() == old(Refs())[RunIndex(v) := 0]
        && (Valid() <==> RunIndex(v) !in old(free))
        && (RunIndex(v) in old(free) ==> forall t :: !Chain(runs[..], freelist, t))
    {
      hide Chain, Accounted, RefsOf;
      if v % PGSIZE != 0 || v < end || v < KERNBASE || v - KERNBASE >= PHYSTOP {
        return BadAddress;
      }
      var i := RunIndex(v);
      ghost var was := runs[..];
      RefsPush(was, freelist, managed, free, i);
      if i in free {
        ChainCycle(was, freelist, free, i);
      } else {
        PushSound(was, freelist, managed, free, i);
      }
      runs[i] := Run(freelist, 0);
      assert runs[..] == was[i := Run(freelist, 0)];
      freelist := i;
      free, managed := [i] + free, managed + {i};
      AddressIndexInverse(i, v);
      return Freed;
    }

    /** Hand the whole pages of [vstart, vend) to the allocator. */
    method Freerange(vstart: nat, vend: nat)
      requires Valid() && KERNBASE <= end <= vstart && vend <= KERNBASE + PHYSTOP
      requires forall f :: f in managed ==> !Within(f, vstart, vend)
      modifies this, runs
      ensures Valid()
      ensures forall f :: f in managed <==> f in old(managed) || (0 <= f < MAXPAGES && Within(f, vstart, vend))
      ensures forall f :: f in managed ==> f in Refs() && Refs()[f] == if f in old(managed) then old(Refs())[f] else 0
    {
      hide Sound;
      var p := (vstart + PGSIZE - 1) / PGSIZE * PGSIZE;
      ghost var p0 := p;
      RefsDomain(runs[..], freelist, managed, free);
      while p + PGSIZE <= vend
        invariant p % PGSIZE == 0 && vstart <= p0 <= p && p0 < vstart + PGSIZE && Valid()
        invariant p == p0 || p <= vend
        invariant forall f :: f in managed <==> f in old(managed) || (0 <= f < MAXPAGES && Within(f, p0, p))
        invariant forall f :: f in managed ==>
          f in Refs() && Refs()[f] == if f in old(managed) then old(Refs())[f] else 0
      {
        AddressIndexInverse(0, p);
        assert !Within(RunIndex(p), p0, p) && Within(RunIndex(p), vstart, vend);
        WithinStep(p0, p);
        NotFree(runs[..], freelist, managed, free, RunIndex(p));
        var r := KfreeNocheck(p);
        p := p + PGSIZE;
      }
      WithinAligned(vstart, vend, p0, p);
    }

    /** A frame with reference count 1, or NULL when none is free. */
    method KallocPage() returns (v: int)
      requires Valid()
      modifies this, runs
      ensures Valid() && managed == old(managed)
      ensures v == NULL <==> old(free) == []
      ensures v == NULL ==> free == [] && Refs() == old(Refs())
      ensures v != NULL ==>
        && KERNBASE <= v && v == PageAddress(old(free)[0]) && RunIndex(v) == old(free)[0]
        && old(free)[0] in managed && free == old(free)[1..]
        && Refs() == old(Refs())[old(free)[0] := 1]
    {
      hide Accounted, RefsOf;
      var r := freelist;
      if r == NULL {
        return NULL;
      }
      ghost var was := runs[..];
      PopSound(was, freelist, managed, free);
      freelist := runs[r].next;
      runs[r] := runs[r].(refcount := 1);
      assert runs[..] == was[r := was[r].(refcount := 1)];
      free := free[1..];
      v := PageAddress(r);
    }

    method Kfree(v: nat) returns (r: FreeResult)
      requires Valid() && (Freeable(end, v) ==> RunIndex(v) in managed)
      modifies this, runs
      ensures Valid() && managed == old(managed)
      ensures Freeable(end, v) ==> RunIndex(v) in old(Refs())
      ensures r == if !Freeable(end, v) then BadAddress
                   else if old(Refs())[RunIndex(v)] != 1 then Shared else Freed
      ensures !r.Freed? ==> free == old(free) && Refs() == old(Refs())
      ensures r.Freed? ==> free == [RunIndex(v)] + old(free) && Refs() == old(Refs())[RunIndex(v) := 0]
    {
      hide Chain, Accounted, RefsOf;
      if v % PGSIZE != 0 || v < end || v < KERNBASE || v - KERNBASE >= PHYSTOP {
        return BadAddress;
      }
      var i := RunIndex(v);
      ghost var was := runs[..];
      RefsAt(was, freelist, managed, free, i);
      if runs[i].refcount != 1 {
        return Shared;
      }
      PushSound(was, freelist, managed, free, i);
      assert managed + {i} == managed;
      runs[i] := Run(freelist, 0);
      assert runs[..] == was[i := Run(freelist, 0)];
      freelist := i;
      free := [i] + free;
      return Freed;
    }

    /** Adding a reference to a live frame is sound; to a free one it is not. */
    method RefInc(v: nat)
      requires Valid() && KERNBASE <= v && RunIndex(v) in managed
      modifies runs
      ensures RunIndex(v) in old(Refs()) && Refs() == old(Refs())[RunIndex(v) := old(Refs())[RunIndex(v)] + 1]
      ensures Valid() <==> old(Refs())[RunIndex(v)] > 0
    {
      hide Chain, Accounted, RefsOf;
      var i := RunIndex(v);
      ghost var was := runs[..];
      RefsAt(was, freelist, managed, free, i);
      CountSound(was, freelist, managed, free, i, was[i].refcount + 1);
      runs[i] := runs[i].(refcount := runs[i].refcount + 1);
      assert runs[..] == was[i := was[i].(refcount := was[i].refcount + 1)];
    }

    /** Dropping a reference to a frame is sound exactly when another one is left: else the frame
        has count 0 and is on no list, or the count of a free frame wraps around. */
    method RefDec(v: nat)
      requires Valid() && KERNBASE <= v && RunIndex(v) in managed
      modifies runs
      ensures RunIndex(v) in old(Refs()) && Refs() == old(Refs())[RunIndex(v) := Decrement(old(Refs())[RunIndex(v)])]
      ensures Valid() <==> old(Refs())[RunIndex(v)] > 1
    {
      hide Chain, Accounted, RefsOf;
      var i := RunIndex(v);
      ghost var was := runs[..];
      RefsAt(was, freelist, managed, free, i);
      CountSound(was, freelist, managed, free, i, Decrement(was[i].refcount));
      runs[i] := runs[i].(refcount := Decrement(runs[i].refcount));
      assert runs[..] == was[i := was[i].(refcount := Decrement(was[i].refcount))];
    }

    method GetRefs(v: nat) returns (n: nat)
      requires Valid() && KERNBASE <= v && RunIndex(v) in managed
      ensures RunIndex(v) in Refs() && n == Refs()[RunIndex(v)]
    {
      RefsAt(runs[..], freelist, managed, free, RunIndex(v));
      n := runs[RunIndex(v)].refcount;
    }

    /** The pattern of deallocuvm, freevm and eviction: free a frame held once, else drop a
        reference. Either way exactly one reference goes. */
    method Release(v: nat)
      requires Valid() && Freeable(end, v) && RunIndex(v) in managed
      requires RunIndex(v) in Refs() && Refs()[RunIndex(v)] > 0
      modifies this, runs
      ensures Valid() && managed == old(managed)
      ensures Refs() == old(Refs())[RunIndex(v) := old(Refs())[RunIndex(v)] - 1]
      ensures free == if old(Refs())[RunIndex(v)] == 1 then [RunIndex(v)] + old(free) else old(free)
    {
      hide Sound, RefsOf;
      var n := GetRefs(v);
      if n == 1 {
        var r := Kfree(v);
      } else {
        RefDec(v);
      }
    }

    method GetNumOfFreePages() returns (c: nat)
      requires Valid()
      ensures c == |free|
    {
      c := 0;
      var r := freelist;
      while r != NULL
        invariant c <= |free| && r == if c < |free| then free[c] else NULL
        decreases |free| - c
      {
        assert runs[free[c]].next == After(free, c);
        c := c + 1;
        r := runs[r].next;
      }
    }
  }

  /** Frame f lies in the address range [lo, hi). */
  predicate Within(f: int, lo: nat, hi: nat) {
    lo <= f * PGSIZE + KERNBASE && f * PGSIZE + KERNBASE + PGSIZE <= hi
  }

  lemma WithinStep(lo: nat, p: nat)
    requires p % PGSIZE == 0 && lo <= p && KERNBASE <= p
    ensures forall f :: Within(f, lo, p + PGSIZE) <==> Within(f, lo, p) || f == RunIndex(p)
  {
    var q := RunIndex(p);
    assert p == q * PGSIZE + KERNBASE;
  }

  /** The aligned part of a range holds the same whole pages. */
  lemma WithinAligned(vstart: nat, vend: nat, p0: nat, p: nat)
    requires p0 % PGSIZE == 0 && p % PGSIZE == 0 && KERNBASE <= vstart <= p0 < vstart + PGSIZE
    requires p0 <= p && p + PGSIZE > vend && (p == p0 || p <= vend)
    ensures forall f :: Within(f, p0, p) <==> Within(f, vstart, vend)
  {
    var q0, q := RunIndex(p0), RunIndex(p);
    assert p0 == q0 * PGSIZE + KERNBASE && p == q * PGSIZE + KERNBASE;
  }

  lemma NotFree(runs: seq<Run>, head: int, managed: set<int>, free: seq<int>, f: int)
    requires Sound(runs, head, managed, free) && f !in managed
    ensures f !in free
  {}

  lemma RefsDomain(runs: seq<Run>, head: int, managed: set<int>, free: seq<int>)
    requires Sound(runs, head, managed, free)
    ensures forall f :: f in managed ==> f in RefsOf(runs, managed)
  {}
}
