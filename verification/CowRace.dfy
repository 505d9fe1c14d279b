/** Copy-on-write (vm.c) on several processors: a write fault, the release of a page and the
    sharing of a page by fork are not one step but several, and those of different processes
    interleave. getRefs reads a count without the lock, and refDec, refInc, kalloc and kfree each
    take it on their own. A process does one thing at a time; a step that is not enabled changes
    nothing. */
module CowRace {
  import opened Common
  import opened PageData
  import opened Sets

  datatype Key = Key(pid: nat, vpn: nat)

  /** An entry that is not writable is marked copy-on-write. */
  datatype Pte = Pte(frame: nat, writable: bool)

  /** What a process is in the middle of. */
  datatype Act =
    | Idle
    | Faulting(k: Key, f: nat, c: nat)   // write fault on k: getRefs(f) returned c
    | Copied(k: Key, f: nat, g: nat)     // the new frame g holds a copy of f
    | Remapped(f: nat)                   // the entry maps the copy; refDec(f) comes next
    | Releasing(k: Key, f: nat, c: nat)  // deallocuvm on k: getRefs(f) returned c
    | Sharing(j: Key, f: nat)            // cowuvm: the child's entry j maps f; refInc(f) comes next

  /** unborn: children being made, with their parents. uncounted: their entries for which refInc
      has not been called yet. */
  datatype State = State(
    ptes: map<Key, Pte>,
    data: map<nat, Page>,
    refs: map<nat, nat>,
    free: set<nat>,
    acts: seq<Act>,
    unborn: map<nat, nat>,
    uncounted: set<Key>,
    panic: bool)

  datatype Event =
    | Store(k: Key, i: nat, b: Byte)
    | Alloc(k: Key, f: nat)
    | Fault(k: Key)            // getRefs
    | Own(p: nat)              // count 1: make the entry writable
    | Copy(p: nat, g: nat)     // count above 1: kalloc and memmove
    | Remap(p: nat)
    | Drop(p: nat)             // refDec
    | Release(k: Key)          // getRefs
    | ReleaseFrame(p: nat)     // kfree or refDec, and clear the entry
    | BeginFork(p: nat, q: nat)
    | Share(p: nat, q: nat, v: nat)  // protect the parent's entry and map it in the child
    | ShareCount(p: nat)             // refInc
    | EndFork(p: nat, q: nat)

  predicate Free(s: State, p: nat) {
    p < |s.acts| && s.acts[p].Idle?
  }

  /** p runs user code or a system call of its own. */
  predicate Runs(s: State, p: nat) {
    Free(s, p) && p !in s.unborn
  }

  /** p's address space may be torn down: by itself, or by the parent that failed to make it. */
  predicate MayRelease(s: State, p: nat) {
    Free(s, p) && (p in s.unborn ==> Free(s, s.unborn[p]))
  }

  predicate Enabled(s: State, e: Event) {
    !s.panic &&
    match e
    case Store(k, i, b) => Runs(s, k.pid) && k in s.ptes && s.ptes[k].writable && s.ptes[k].frame in s.data
    case Alloc(k, f) => Runs(s, k.pid) && k !in s.ptes && f in s.free && f in s.refs
    case Fault(k) => Runs(s, k.pid) && k in s.ptes && !s.ptes[k].writable && s.ptes[k].frame in s.refs
    case Own(p) => p < |s.acts| && s.acts[p].Faulting? && s.acts[p].c <= 1 && s.acts[p].k in s.ptes
    case Copy(p, g) =>
      p < |s.acts| && s.acts[p].Faulting? && s.acts[p].c > 1 && g in s.free && g in s.refs && s.acts[p].f in s.data
    case Remap(p) => p < |s.acts| && s.acts[p].Copied?
    case Drop(p) => p < |s.acts| && s.acts[p].Remapped? && s.acts[p].f in s.refs
    case Release(k) => MayRelease(s, k.pid) && k in s.ptes && s.ptes[k].frame in s.refs
    case ReleaseFrame(p) => p < |s.acts| && s.acts[p].Releasing? && s.acts[p].f in s.refs
    case BeginFork(p, q) =>
      Runs(s, p) && Runs(s, q) && p != q && (forall k :: k in s.ptes ==> k.pid != q) && q !in s.unborn.Values
    case Share(p, q, v) =>
      Runs(s, p) && q in s.unborn && s.unborn[q] == p && Free(s, q) && Key(p, v) in s.ptes && Key(q, v) !in s.ptes
    case ShareCount(p) => p < |s.acts| && s.acts[p].Sharing? && s.acts[p].f in s.refs
    case EndFork(p, q) => Runs(s, p) && Free(s, q) && q in s.unborn && s.unborn[q] == p
  }

  function Step(s: State, e: Event): State {
    if !Enabled(s, e) then s
    else match e
      case Store(k, i, b) =>
        var f := s.ptes[k].frame;
        s.(data := s.data[f := WithByte(s.data[f], i, b)])
      case Alloc(k, f) =>
        s.(ptes := s.ptes[k := Pte(f, true)], data := s.data[f := ZeroPage()], refs := s.refs[f := 1],
           free := s.free - {f})
      case Fault(k) =>
        var f := s.ptes[k].frame;
        s.(acts := s.acts[k.pid := Faulting(k, f, s.refs[f])])
      case Own(p) =>
        var k := s.acts[p].k;
        s.(ptes := s.ptes[k := s.ptes[k].(writable := true)], acts := s.acts[p := Idle])
      case Copy(p, g) =>
        var a := s.acts[p];
        s.(data := s.data[g := s.data[a.f]], refs := s.refs[g := 1], free := s.free - {g},
           acts := s.acts[p := Copied(a.k, a.f, g)])
      case Remap(p) =>
        var a := s.acts[p];
        s.(ptes := s.ptes[a.k := Pte(a.g, true)], acts := s.acts[p := Remapped(a.f)])
      case Drop(p) =>
        var f := s.acts[p].f;
        s.(refs := s.refs[f := Decrement(s.refs[f])], acts := s.acts[p := Idle])
      case Release(k) =>
        var f := s.ptes[k].frame;
        s.(acts := s.acts[k.pid := Releasing(k, f, s.refs[f])])
      case ReleaseFrame(p) =>
        var a := s.acts[p];
        if a.c == 1 && s.refs[a.f] != 1 then s.(panic := true) // kfree: freeing a shared page
        else
          s.(refs := s.refs[a.f := if a.c == 1 then 0 else Decrement(s.refs[a.f])],
             free := if a.c == 1 then s.free + {a.f} else s.free, ptes := s.ptes - {a.k}, acts := s.acts[p := Idle])
      case BeginFork(p, q) => s.(unborn := s.unborn[q := p])
      case Share(p, q, v) =>
        var f := s.ptes[Key(p, v)].frame;
        s.(ptes := s.ptes[Key(p, v) := Pte(f, false)][Key(q, v) := Pte(f, false)],
           uncounted := s.uncounted + {Key(q, v)}, acts := s.acts[p := Sharing(Key(q, v), f)])
      case ShareCount(p) =>
        var a := s.acts[p];
        s.(refs := s.refs[a.f := s.refs[a.f] + 1], uncounted := s.uncounted - {a.j}, acts := s.acts[p := Idle])
      case EndFork(p, q) => s.(unborn := s.unborn - {q})
  }

  function Run(s: State, es: seq<Event>): State
    decreases |es|
  {
    if es == [] then s else Step(Run(s, es[..|es|-1]), es[|es|-1])
  }

  /** n processes without pages, and the given frames all free. */
  function Init(n: nat, frames: set<nat>): State {
    State(map[], map[], map f | f in frames :: 0, frames, seq(n, _ => Idle), map[], {}, false)
  }

  // ----- who holds a frame

  /** The counted entries that map f. */
  function Entries(s: State, f: nat): set<Key> {
    set k | k in s.ptes && s.ptes[k].frame == f && k !in s.uncounted
  }

  /** The processes that hold a reference to f which no entry shows: a copy not mapped yet, or an
      entry already remapped and not given up yet. */
  function Pending(s: State, f: nat): set<nat> {
    set p | 0 <= p < |s.acts| && Owed(s.acts[p], f)
  }

  predicate Owed(a: Act, f: nat) {
    a == Remapped(f) || (a.Copied? && a.g == f)
  }

  /** The count of a frame is the number of its holders. */
  predicate CountOk(s: State, f: nat)
    requires f in s.refs
  {
    s.refs[f] == |Entries(s, f)| + |Pending(s, f)|
  }

  predicate PteOk(s: State, k: Key)
    requires k in s.ptes
  {
    var f := s.ptes[k].frame;
    && f in s.refs && f in s.data && k.pid < |s.acts|
    && (s.ptes[k].writable ==> s.refs[f] == 1 && k !in s.uncounted)
  }

  /** Entry k of process p maps f, read-only, and is counted. */
  predicate Maps(s: State, p: nat, k: Key, f: nat) {
    k.pid == p && k in s.ptes && s.ptes[k].frame == f && k !in s.uncounted
  }

  predicate ActOk(s: State, p: nat)
    requires p < |s.acts|
  {
    match s.acts[p]
    case Idle => true
    case Faulting(k, f, c) =>
      Maps(s, p, k, f) && !s.ptes[k].writable && f in s.refs && c >= 1 && (c == 1 ==> s.refs[f] == 1) && p !in s.unborn
    case Copied(k, f, g) =>
      && Maps(s, p, k, f) && !s.ptes[k].writable && p !in s.unborn
      && f != g && f in s.refs && f in s.data && g in s.data && g in s.refs && s.refs[g] == 1 && s.data[g] == s.data[f]
    case Remapped(f) => f in s.refs && p !in s.unborn
    case Releasing(k, f, c) => Maps(s, p, k, f) && f in s.refs && c >= 1 && (c == 1 ==> s.refs[f] == 1)
    case Sharing(j, f) =>
      && j in s.ptes && s.ptes[j] == Pte(f, false) && j in s.uncounted && f in s.refs
      && j.pid in s.unborn && s.unborn[j.pid] == p && j.pid < |s.acts| && s.acts[j.pid].Idle?
      && Maps(s, p, Key(p, j.vpn), f) && !s.ptes[Key(p, j.vpn)].writable && p !in s.unborn
  }

  /** An uncounted entry is one that its parent is sharing right now. */
  predicate UncountedOk(s: State, j: Key) {
    && j in s.ptes && !s.ptes[j].writable && j.pid in s.unborn && s.unborn[j.pid] < |s.acts|
    && s.acts[s.unborn[j.pid]] == Sharing(j, s.ptes[j].frame)
  }

  predicate UnbornOk(s: State, q: nat)
    requires q in s.unborn
  {
    q < |s.acts| && s.unborn[q] < |s.acts| && s.unborn[q] !in s.unborn && (s.acts[q].Idle? || s.acts[q].Releasing?)
  }

  ghost predicate Inv(s: State) {
    && !s.panic
    && (forall k :: k in s.ptes ==> PteOk(s, k))
    && (forall f :: f in s.refs ==> CountOk(s, f))
    && (forall f :: f in s.free ==> f in s.refs && s.refs[f] == 0)
    && (forall p :: 0 <= p < |s.acts| ==> ActOk(s, p))
    && (forall j :: j in s.uncounted ==> UncountedOk(s, j))
    && (forall q :: q in s.unborn ==> UnbornOk(s, q))
  }

  // ----- counting holders

  lemma PteAt(s: State, k: Key)
    requires Inv(s) && k in s.ptes
    ensures PteOk(s, k)
  {}

  lemma CountAt(s: State, f: nat)
    requires Inv(s) && f in s.refs
    ensures CountOk(s, f)
  {}

  lemma FreeAt(s: State, f: nat)
    requires Inv(s) && f in s.free
    ensures f in s.refs && s.refs[f] == 0
  {}

  lemma ActAt(s: State, p: nat)
    requires Inv(s) && p < |s.acts|
    ensures ActOk(s, p)
  {}

  lemma UncountedAt(s: State, j: Key)
    requires Inv(s)
    ensures j in s.uncounted ==> UncountedOk(s, j)
  {}

  lemma UnbornAt(s: State, q: nat)
    requires Inv(s) && q in s.unborn
    ensures UnbornOk(s, q)
  {}

  lemma EntriesChange(s: State, t: State, f: nat, k: Key)
    requires forall x :: x != k ==> (x in Entries(s, f) <==> x in Entries(t, f))
    ensures |Entries(t, f)|
         == |Entries(s, f)| - (if k in Entries(s, f) then 1 else 0) + if k in Entries(t, f) then 1 else 0
  {
    assert Entries(s, f) - {k} == Entries(t, f) - {k};
    assert k in Entries(s, f) ==> Entries(s, f) == Entries(s, f) - {k} + {k};
    assert k in Entries(t, f) ==> Entries(t, f) == Entries(t, f) - {k} + {k};
  }

  lemma PendingChange(s: State, t: State, f: nat, p: nat)
    requires forall x :: x != p ==> (x in Pending(s, f) <==> x in Pending(t, f))
    ensures |Pending(t, f)|
         == |Pending(s, f)| - (if p in Pending(s, f) then 1 else 0) + if p in Pending(t, f) then 1 else 0
  {
    assert Pending(s, f) - {p} == Pending(t, f) - {p};
    assert p in Pending(s, f) ==> Pending(s, f) == Pending(s, f) - {p} + {p};
    assert p in Pending(t, f) ==> Pending(t, f) == Pending(t, f) - {p} + {p};
  }

  /** A step that changes at most entry k and process p. */
  lemma CountChange(s: State, t: State, f: nat, k: Key, p: nat)
    requires f in s.refs && CountOk(s, f)
    requires forall x :: x != k ==> (x in Entries(s, f) <==> x in Entries(t, f))
    requires forall x :: x != p ==> (x in Pending(s, f) <==> x in Pending(t, f))
    ensures |Entries(t, f)| + |Pending(t, f)| ==
            s.refs[f] - (if k in Entries(s, f) then 1 else 0) + (if k in Entries(t, f) then 1 else 0)
            - (if p in Pending(s, f) then 1 else 0) + if p in Pending(t, f) then 1 else 0
  {
    EntriesChange(s, t, f, k);
    PendingChange(s, t, f, p);
  }

  lemma OneHolder(s: State, f: nat)
    requires f in s.refs && CountOk(s, f)
    ensures Entries(s, f) != {} || Pending(s, f) != {} ==> s.refs[f] >= 1
    ensures s.refs[f] == 0 ==> Entries(s, f) == {} && Pending(s, f) == {}
  {}

  /** A frame with count 1 that entry k maps is held by nothing else. */
  lemma Sole(s: State, f: nat, k: Key)
    requires f in s.refs && CountOk(s, f) && s.refs[f] == 1 && k in Entries(s, f)
    ensures Entries(s, f) == {k} && Pending(s, f) == {}
  {
    SubsetSize({k}, Entries(s, f));
    assert |Pending(s, f)| == 0 && |Entries(s, f) - {k}| == 0;
  }

  /** A counted entry for the frame that x maps: x itself, or the parent's. */
  lemma CountedFor(s: State, x: Key) returns (h: Key)
    requires Inv(s) && x in s.ptes
    ensures h in Entries(s, s.ptes[x].frame) && (if x in s.uncounted then !s.ptes[h].writable else h == x)
  {
    h := x;
    if x in s.uncounted {
      assert UncountedOk(s, x);
      var p := s.unborn[x.pid];
      assert ActOk(s, p);
      h := Key(p, x.vpn);
    }
  }

  /** A writable entry's frame is mapped by no other entry, counted or not. */
  lemma WritableAlone(s: State, k: Key, x: Key)
    requires Inv(s) && k in s.ptes && s.ptes[k].writable && x in s.ptes
    ensures s.ptes[x].frame == s.ptes[k].frame ==> x == k
  {
    var f := s.ptes[k].frame;
    assert PteOk(s, k) && CountOk(s, f);
    assert k in Entries(s, f);
    Sole(s, f, k);
    var h := CountedFor(s, x);
  }

  /** A free frame is mapped by nobody. */
  lemma FreeUnmapped(s: State, f: nat)
    requires Inv(s) && f in s.free
    ensures Entries(s, f) == {} && Pending(s, f) == {} && forall x :: x in s.ptes ==> s.ptes[x].frame != f
  {
    assert f in s.refs && CountOk(s, f);
    OneHolder(s, f);
    forall x | x in s.ptes
      ensures s.ptes[x].frame != f
    {
      var h := CountedFor(s, x);
    }
  }

  lemma SolePending(s: State, f: nat, p: nat)
    requires f in s.refs && CountOk(s, f) && s.refs[f] == 1 && p in Pending(s, f)
    ensures Pending(s, f) == {p} && Entries(s, f) == {}
  {
    SubsetSize({p}, Pending(s, f));
    assert |Entries(s, f)| == 0 && |Pending(s, f) - {p}| == 0;
  }

  /** An entry of a process that is not being made is counted, so its frame has a count. */
  lemma Counted(s: State, k: Key)
    requires Inv(s) && k in s.ptes && MayRelease(s, k.pid)
    ensures k !in s.uncounted && s.ptes[k].frame in s.refs && s.refs[s.ptes[k].frame] >= 1
  {
    assert k in s.uncounted ==> UncountedOk(s, k);
    var f := s.ptes[k].frame;
    assert PteOk(s, k) && CountOk(s, f) && k in Entries(s, f);
    OneHolder(s, f);
  }

  /** While p still owes a refDec of f, no entry for f is writable. */
  lemma NotAlone(s: State, f: nat, x: Key, p: nat)
    requires Inv(s) && f in s.refs && p in Pending(s, f) && x in s.ptes
    ensures s.ptes[x].writable ==> s.ptes[x].frame != f
  {
    assert PteOk(s, x) && CountOk(s, f);
    if s.refs[f] == 1 {
      SolePending(s, f, p);
      assert x in Entries(s, f) <==> s.ptes[x].frame == f && x !in s.uncounted;
    }
  }

  /** The frame whose count process q relies on being 1. */
  predicate ReliesOn(a: Act, f: nat) {
    match a
    case Faulting(_, x, c) => x == f && c == 1
    case Copied(_, _, g) => g == f
    case Releasing(_, x, c) => x == f && c == 1
    case _ => false
  }

  lemma NotOnly(s: State, f: nat, q: nat, p: nat)
    requires Inv(s) && f in s.refs && p in Pending(s, f) && q < |s.acts| && s.acts[p].Remapped?
    ensures !ReliesOn(s.acts[q], f)
  {
    assert ActOk(s, q) && CountOk(s, f);
    if s.refs[f] == 1 {
      SolePending(s, f, p);
      assert q in Pending(s, f) <==> Owed(s.acts[q], f);
      match s.acts[q]
      case Faulting(k, _, _) => assert k in Entries(s, f) <==> s.ptes[k].frame == f;
      case Releasing(k, _, _) => assert k in Entries(s, f) <==> s.ptes[k].frame == f;
      case _ =>
    }
  }

  /** Entry k is counted for f, so a writable entry for f is k itself. */
  lemma WritableHolds(s: State, f: nat, x: Key, k: Key)
    requires Inv(s) && f in s.refs && k in Entries(s, f) && x in s.ptes
    ensures s.ptes[x].writable && s.ptes[x].frame == f ==> x == k
  {
    if s.ptes[x].writable {
      WritableAlone(s, x, k);
    }
  }

  /** Entry k is counted for f, so only the process of k can rely on f's count being 1. */
  lemma HeldBy(s: State, f: nat, q: nat, k: Key)
    requires Inv(s) && f in s.refs && k in Entries(s, f) && q < |s.acts|
    ensures ReliesOn(s.acts[q], f) ==> s.acts[q].k == k && !s.acts[q].Copied?
  {
    assert ActOk(s, q) && CountOk(s, f);
    if s.refs[f] == 1 {
      Sole(s, f, k);
      assert q in Pending(s, f) <==> Owed(s.acts[q], f);
      match s.acts[q]
      case Faulting(x, _, _) => assert x in Entries(s, f) <==> s.ptes[x].frame == f;
      case Releasing(x, _, _) => assert x in Entries(s, f) <==> s.ptes[x].frame == f;
      case _ =>
    }
  }

  /** A process that is to call refDec still holds the frame. */
  lemma PendingOwed(s: State, p: nat)
    requires Inv(s) && p < |s.acts| && s.acts[p].Remapped?
    ensures s.acts[p].f in s.refs && p in Pending(s, s.acts[p].f) && s.refs[s.acts[p].f] >= 1
    ensures s.acts[p].f !in s.free
  {
    assert ActOk(s, p);
    OneHolder(s, s.acts[p].f);
  }

  lemma EntryHeld(s: State, p: nat, k: Key)
    requires Inv(s) && p < |s.acts| && s.acts[p].Releasing? && k == s.acts[p].k
    ensures s.acts[p].f in s.refs && k in Entries(s, s.acts[p].f) && s.refs[s.acts[p].f] >= 1
    ensures s.acts[p].f !in s.free
  {
    assert ActOk(s, p);
    OneHolder(s, s.acts[p].f);
  }

  lemma ShareHeld(s: State, p: nat)
    requires Inv(s) && p < |s.acts| && s.acts[p].Sharing?
    ensures s.acts[p].f in s.refs && Key(p, s.acts[p].j.vpn) in Entries(s, s.acts[p].f) && s.refs[s.acts[p].f] >= 1
    ensures s.acts[p].f !in s.free
  {
    assert ActOk(s, p);
    OneHolder(s, s.acts[p].f);
  }

  // ----- every step keeps the invariant

  /** Neither a copy nor its original is written while the copy is not mapped yet. */
  lemma CopyStays(s: State, k: Key, p: nat)
    requires Inv(s) && k in s.ptes && s.ptes[k].writable && p < |s.acts| && s.acts[p].Copied?
    ensures s.ptes[k].frame != s.acts[p].f && s.ptes[k].frame != s.acts[p].g
  {
    var a, f := s.acts[p], s.ptes[k].frame;
    assert ActOk(s, p) && PteOk(s, k) && CountOk(s, f);
    assert k in Entries(s, f);
    Sole(s, f, k);
    WritableAlone(s, k, a.k);
    assert p in Pending(s, a.g);
  }

  lemma AllocPte(s: State, k: Key, f: nat, x: Key)
    requires Inv(s) && Enabled(s, Alloc(k, f)) && x in Step(s, Alloc(k, f)).ptes && (x in s.ptes ==> PteOk(s, x))
    ensures PteOk(Step(s, Alloc(k, f)), x)
  {
    hide Inv, Entries, Pending, CountOk;
    FreeUnmapped(s, f);
    UncountedAt(s, k);
  }

  lemma OwnPte(s: State, p: nat, x: Key)
    requires Inv(s) && Enabled(s, Own(p)) && x in Step(s, Own(p)).ptes && (x in s.ptes ==> PteOk(s, x))
    ensures PteOk(Step(s, Own(p)), x)
  {
    hide Inv, Entries, Pending, CountOk;
    ActAt(s, p);
  }

  lemma CopyPte(s: State, p: nat, g: nat, x: Key)
    requires Inv(s) && Enabled(s, Copy(p, g)) && x in Step(s, Copy(p, g)).ptes && (x in s.ptes ==> PteOk(s, x))
    ensures PteOk(Step(s, Copy(p, g)), x)
  {
    hide Inv, Entries, Pending, CountOk;
    FreeUnmapped(s, g);
  }

  lemma RemapPte(s: State, p: nat, x: Key)
    requires Inv(s) && Enabled(s, Remap(p)) && x in Step(s, Remap(p)).ptes && (x in s.ptes ==> PteOk(s, x))
    ensures PteOk(Step(s, Remap(p)), x)
  {
    hide Inv, Entries, Pending, CountOk;
    ActAt(s, p);
  }

  lemma DropPte(s: State, p: nat, x: Key)
    requires Inv(s) && Enabled(s, Drop(p)) && x in Step(s, Drop(p)).ptes && (x in s.ptes ==> PteOk(s, x))
    ensures PteOk(Step(s, Drop(p)), x)
  {
    hide Inv, Entries, Pending, CountOk;
    PendingOwed(s, p);
    NotAlone(s, s.acts[p].f, x, p);
  }

  lemma ReleaseFramePte(s: State, p: nat, x: Key)
    requires Inv(s) && Enabled(s, ReleaseFrame(p)) && x in Step(s, ReleaseFrame(p)).ptes
    requires x in s.ptes ==> PteOk(s, x)
    ensures PteOk(Step(s, ReleaseFrame(p)), x)
  {
    hide Inv, Entries, Pending, CountOk;
    EntryHeld(s, p, s.acts[p].k);
    WritableHolds(s, s.acts[p].f, x, s.acts[p].k);
  }

  lemma SharePte(s: State, p: nat, q: nat, v: nat, x: Key)
    requires Inv(s) && Enabled(s, Share(p, q, v)) && x in Step(s, Share(p, q, v)).ptes && (x in s.ptes ==> PteOk(s, x))
    ensures PteOk(Step(s, Share(p, q, v)), x)
  {
    hide Inv, Entries, Pending, CountOk;
    UnbornAt(s, q);
    PteAt(s, Key(p, v));
  }

  lemma ShareCountPte(s: State, p: nat, x: Key)
    requires Inv(s) && Enabled(s, ShareCount(p)) && x in Step(s, ShareCount(p)).ptes && (x in s.ptes ==> PteOk(s, x))
    ensures PteOk(Step(s, ShareCount(p)), x)
  {
    hide Inv, Entries, Pending, CountOk;
    ActAt(s, p);
    ShareHeld(s, p);
    WritableHolds(s, s.acts[p].f, x, Key(p, s.acts[p].j.vpn));
  }

  lemma StepPte(s: State, e: Event, x: Key)
    requires Inv(s) && Enabled(s, e) && x in Step(s, e).ptes
    ensures PteOk(Step(s, e), x)
  {
    hide Inv, Entries, Pending, CountOk, ActOk;
    if x in s.ptes {
      PteAt(s, x);
    }
    match e
    case Alloc(k, f) => AllocPte(s, k, f, x);
    case Own(p) => OwnPte(s, p, x);
    case Copy(p, g) => CopyPte(s, p, g, x);
    case Remap(p) => RemapPte(s, p, x);
    case Drop(p) => DropPte(s, p, x);
    case ReleaseFrame(p) => ReleaseFramePte(s, p, x);
    case Share(p, q, v) => SharePte(s, p, q, v, x);
    case ShareCount(p) => ShareCountPte(s, p, x);
    case _ =>
  }

  lemma StepFree(s: State, e: Event, x: nat)
    requires Inv(s) && Enabled(s, e) && x in Step(s, e).free
    ensures x in Step(s, e).refs && Step(s, e).refs[x] == 0
  {
    hide Inv, Entries, Pending, CountOk;
    if x in s.free {
      FreeAt(s, x);
    }
    match e
    case Store(k, i, b) =>
    case Alloc(k, f) =>
    case Fault(k) =>
    case Own(p) =>
    case Copy(p, g) =>
    case Remap(p) =>
    case Drop(p) => PendingOwed(s, p);
    case Release(k) =>
    case ReleaseFrame(p) => EntryHeld(s, p, s.acts[p].k);
    case BeginFork(p, q) =>
    case Share(p, q, v) =>
    case ShareCount(p) => ShareHeld(s, p);
    case EndFork(p, q) =>
  }

  lemma StepUncounted(s: State, e: Event, j: Key)
    requires Inv(s) && Enabled(s, e) && j in Step(s, e).uncounted
    ensures UncountedOk(Step(s, e), j)
  {
    hide Inv, Entries, Pending, CountOk;
    UncountedAt(s, j);
    match e
    case Store(k, i, b) =>
    case Alloc(k, f) =>
    case Fault(k) =>
    case Own(p) => ActAt(s, p);
    case Copy(p, g) =>
    case Remap(p) => ActAt(s, p);
    case Drop(p) =>
    case Release(k) =>
    case ReleaseFrame(p) => ActAt(s, p);
    case BeginFork(p, q) =>
    case Share(p, q, v) => UnbornAt(s, q);
    case ShareCount(p) => ActAt(s, p);
    case EndFork(p, q) =>
  }

  lemma StepUnborn(s: State, e: Event, x: nat)
    requires Inv(s) && Enabled(s, e) && x in Step(s, e).unborn
    ensures UnbornOk(Step(s, e), x)
  {
    hide Inv, Entries, Pending, CountOk;
    if x in s.unborn {
      UnbornAt(s, x);
      assert s.unborn[x] in s.unborn.Values;
    }
    match e
    case Store(k, i, b) =>
    case Alloc(k, f) =>
    case Fault(k) =>
    case Own(p) => ActAt(s, p);
    case Copy(p, g) => ActAt(s, p);
    case Remap(p) => ActAt(s, p);
    case Drop(p) => ActAt(s, p);
    case Release(k) =>
    case ReleaseFrame(p) => ActAt(s, p);
    case BeginFork(p, q) =>
    case Share(p, q, v) =>
    case ShareCount(p) => ActAt(s, p);
    case EndFork(p, q) =>
  }

  lemma StepCount(s: State, e: Event, x: nat)
    requires Inv(s) && Enabled(s, e) && x in Step(s, e).refs
    ensures CountOk(Step(s, e), x)
  {
    hide Inv, ActOk, PteOk;
    var t := Step(s, e);
    CountAt(s, x);
    match e
    case Store(k, i, b) => SameCount(s, t, x);
    case Alloc(k, f) => AllocCount(s, k, f, x);
    case Fault(k) => SameCount(s, t, x);
    case Own(p) => OwnCount(s, p, x);
    case Copy(p, g) => CopyCount(s, p, g, x);
    case Remap(p) => RemapCount(s, p, x);
    case Drop(p) => DropCount(s, p, x);
    case Release(k) => SameCount(s, t, x);
    case ReleaseFrame(p) => ReleaseCount(s, p, x);
    case BeginFork(p, q) => SameCount(s, t, x);
    case Share(p, q, v) => ShareCounts(s, p, q, v, x);
    case ShareCount(p) => ShareCountCount(s, p, x);
    case EndFork(p, q) => SameCount(s, t, x);
  }

  lemma SameCount(s: State, t: State, x: nat)
    requires x in s.refs && x in t.refs && CountOk(s, x) && t.refs[x] == s.refs[x]
    requires Entries(t, x) == Entries(s, x) && Pending(t, x) == Pending(s, x)
    ensures CountOk(t, x)
  {}

  lemma AllocCount(s: State, k: Key, f: nat, x: nat)
    requires Inv(s) && Enabled(s, Alloc(k, f)) && x in s.refs && CountOk(s, x)
    ensures CountOk(Step(s, Alloc(k, f)), x)
  {
    hide Inv, PteOk;
    FreeUnmapped(s, f);
    UncountedAt(s, k);
    CountChange(s, Step(s, Alloc(k, f)), x, k, k.pid);
  }

  lemma OwnCount(s: State, p: nat, x: nat)
    requires Inv(s) && Enabled(s, Own(p)) && x in s.refs && CountOk(s, x)
    ensures CountOk(Step(s, Own(p)), x)
  {
    hide Inv, PteOk;
    ActAt(s, p);
    CountChange(s, Step(s, Own(p)), x, s.acts[p].k, p);
  }

  lemma CopyCount(s: State, p: nat, g: nat, x: nat)
    requires Inv(s) && Enabled(s, Copy(p, g)) && x in s.refs && CountOk(s, x)
    ensures CountOk(Step(s, Copy(p, g)), x)
  {
    hide Inv, PteOk;
    ActAt(s, p);
    FreeUnmapped(s, g);
    CountChange(s, Step(s, Copy(p, g)), x, s.acts[p].k, p);
  }

  lemma RemapCount(s: State, p: nat, x: nat)
    requires Inv(s) && Enabled(s, Remap(p)) && x in s.refs && CountOk(s, x)
    ensures CountOk(Step(s, Remap(p)), x)
  {
    hide Inv, PteOk;
    ActAt(s, p);
    CountChange(s, Step(s, Remap(p)), x, s.acts[p].k, p);
  }

  lemma DropCount(s: State, p: nat, x: nat)
    requires Inv(s) && Enabled(s, Drop(p)) && x in s.refs && CountOk(s, x)
    ensures CountOk(Step(s, Drop(p)), x)
  {
    hide Inv, PteOk;
    PendingOwed(s, p);
    CountChange(s, Step(s, Drop(p)), x, Key(p, 0), p);
  }

  lemma ReleaseCount(s: State, p: nat, x: nat)
    requires Inv(s) && Enabled(s, ReleaseFrame(p)) && x in s.refs && CountOk(s, x)
    ensures CountOk(Step(s, ReleaseFrame(p)), x)
  {
    hide Inv, PteOk;
    EntryHeld(s, p, s.acts[p].k);
    CountChange(s, Step(s, ReleaseFrame(p)), x, s.acts[p].k, p);
  }

  lemma ShareCounts(s: State, p: nat, q: nat, v: nat, x: nat)
    requires Inv(s) && Enabled(s, Share(p, q, v)) && x in s.refs && CountOk(s, x)
    ensures CountOk(Step(s, Share(p, q, v)), x)
  {
    hide Inv, PteOk;
    Counted(s, Key(p, v));
    UncountedAt(s, Key(q, v));
    CountChange(s, Step(s, Share(p, q, v)), x, Key(q, v), p);
  }

  lemma ShareCountCount(s: State, p: nat, x: nat)
    requires Inv(s) && Enabled(s, ShareCount(p)) && x in s.refs && CountOk(s, x)
    ensures CountOk(Step(s, ShareCount(p)), x)
  {
    hide Inv, PteOk;
    ActAt(s, p);
    CountChange(s, Step(s, ShareCount(p)), x, s.acts[p].j, p);
  }

  lemma StoreAct(s: State, k: Key, i: nat, b: Byte, x: nat)
    requires Inv(s) && Enabled(s, Store(k, i, b)) && x < |s.acts| == |Step(s, Store(k, i, b)).acts|
    ensures ActOk(Step(s, Store(k, i, b)), x)
  {
    hide Inv, Entries, Pending, CountOk, PteOk;
    ActAt(s, x);
    if s.acts[x].Copied? {
      CopyStays(s, k, x);
    }
  }

  lemma AllocAct(s: State, k: Key, f: nat, x: nat)
    requires Inv(s) && Enabled(s, Alloc(k, f)) && x < |s.acts| == |Step(s, Alloc(k, f)).acts|
    ensures ActOk(Step(s, Alloc(k, f)), x)
  {
    hide Inv, Entries, Pending, CountOk, PteOk;
    ActAt(s, x);
    FreeUnmapped(s, f);
    FreeAt(s, f);
  }

  lemma FaultAct(s: State, k: Key, x: nat)
    requires Inv(s) && Enabled(s, Fault(k)) && x < |s.acts| == |Step(s, Fault(k)).acts|
    ensures ActOk(Step(s, Fault(k)), x)
  {
    hide Inv, Entries, Pending, CountOk, PteOk;
    ActAt(s, x);
    Counted(s, k);
  }

  lemma OwnAct(s: State, p: nat, x: nat)
    requires Inv(s) && Enabled(s, Own(p)) && x < |s.acts| == |Step(s, Own(p)).acts|
    ensures ActOk(Step(s, Own(p)), x)
  {
    hide Inv, Entries, Pending, CountOk, PteOk;
    ActAt(s, x);
    ActAt(s, p);
  }

  lemma CopyAct(s: State, p: nat, g: nat, x: nat)
    requires Inv(s) && Enabled(s, Copy(p, g)) && x < |s.acts| == |Step(s, Copy(p, g)).acts|
    ensures ActOk(Step(s, Copy(p, g)), x)
  {
    hide Inv, Entries, Pending, CountOk, PteOk;
    ActAt(s, x);
    ActAt(s, p);
    FreeUnmapped(s, g);
    FreeAt(s, g);
    assert s.ptes[s.acts[p].k].frame != g;
  }

  lemma RemapAct(s: State, p: nat, x: nat)
    requires Inv(s) && Enabled(s, Remap(p)) && x < |s.acts| == |Step(s, Remap(p)).acts|
    ensures ActOk(Step(s, Remap(p)), x)
  {
    hide Inv, Entries, Pending, CountOk, PteOk;
    ActAt(s, x);
    ActAt(s, p);
  }

  lemma DropAct(s: State, p: nat, x: nat)
    requires Inv(s) && Enabled(s, Drop(p)) && x < |s.acts| == |Step(s, Drop(p)).acts|
    ensures ActOk(Step(s, Drop(p)), x)
  {
    hide Inv, Entries, Pending, CountOk, PteOk;
    ActAt(s, x);
    PendingOwed(s, p);
    NotOnly(s, s.acts[p].f, x, p);
  }

  lemma ReleaseAct(s: State, k: Key, x: nat)
    requires Inv(s) && Enabled(s, Release(k)) && x < |s.acts| == |Step(s, Release(k)).acts|
    ensures ActOk(Step(s, Release(k)), x)
  {
    hide Inv, Entries, Pending, CountOk, PteOk;
    ActAt(s, x);
    Counted(s, k);
  }

  lemma ReleaseFrameAct(s: State, p: nat, x: nat)
    requires Inv(s) && Enabled(s, ReleaseFrame(p)) && x < |s.acts| == |Step(s, ReleaseFrame(p)).acts|
    ensures ActOk(Step(s, ReleaseFrame(p)), x)
  {
    hide Inv, Entries, Pending, CountOk, PteOk;
    ActAt(s, x);
    ActAt(s, p);
    EntryHeld(s, p, s.acts[p].k);
    HeldBy(s, s.acts[p].f, x, s.acts[p].k);
  }

  lemma BeginForkAct(s: State, p: nat, q: nat, x: nat)
    requires Inv(s) && Enabled(s, BeginFork(p, q)) && x < |s.acts| == |Step(s, BeginFork(p, q)).acts|
    ensures ActOk(Step(s, BeginFork(p, q)), x)
  {
    hide Inv, Entries, Pending, CountOk, PteOk;
    ActAt(s, x);
  }

  lemma ShareAct(s: State, p: nat, q: nat, v: nat, x: nat)
    requires Inv(s) && Enabled(s, Share(p, q, v)) && x < |s.acts| == |Step(s, Share(p, q, v)).acts|
    ensures ActOk(Step(s, Share(p, q, v)), x)
  {
    hide Inv, Entries, Pending, CountOk, PteOk;
    ActAt(s, x);
    UnbornAt(s, q);
    Counted(s, Key(p, v));
  }

  lemma ShareCountAct(s: State, p: nat, x: nat)
    requires Inv(s) && Enabled(s, ShareCount(p)) && x < |s.acts| == |Step(s, ShareCount(p)).acts|
    ensures ActOk(Step(s, ShareCount(p)), x)
  {
    hide Inv, Entries, Pending, CountOk, PteOk;
    ActAt(s, x);
    ActAt(s, p);
    ShareHeld(s, p);
    HeldBy(s, s.acts[p].f, x, Key(p, s.acts[p].j.vpn));
  }

  lemma EndForkAct(s: State, p: nat, q: nat, x: nat)
    requires Inv(s) && Enabled(s, EndFork(p, q)) && x < |s.acts| == |Step(s, EndFork(p, q)).acts|
    ensures ActOk(Step(s, EndFork(p, q)), x)
  {
    hide Inv, Entries, Pending, CountOk, PteOk;
    ActAt(s, x);
  }

  lemma StepAct(s: State, e: Event, x: nat)
    requires Inv(s) && Enabled(s, e) && x < |s.acts| == |Step(s, e).acts|
    ensures ActOk(Step(s, e), x)
  {
    hide Inv, ActOk, Step, Enabled;
    match e
    case Store(k, i, b) => StoreAct(s, k, i, b, x);
    case Alloc(k, f) => AllocAct(s, k, f, x);
    case Fault(k) => FaultAct(s, k, x);
    case Own(p) => OwnAct(s, p, x);
    case Copy(p, g) => CopyAct(s, p, g, x);
    case Remap(p) => RemapAct(s, p, x);
    case Drop(p) => DropAct(s, p, x);
    case Release(k) => ReleaseAct(s, k, x);
    case ReleaseFrame(p) => ReleaseFrameAct(s, p, x);
    case BeginFork(p, q) => BeginForkAct(s, p, q, x);
    case Share(p, q, v) => ShareAct(s, p, q, v, x);
    case ShareCount(p) => ShareCountAct(s, p, x);
    case EndFork(p, q) => EndForkAct(s, p, q, x);
  }

  /** Every step keeps the invariant; in particular kfree never finds a shared page. */
  lemma StepInv(s: State, e: Event)
    requires Inv(s)
    ensures Inv(Step(s, e))
  {
    if Enabled(s, e) {
      var t := Step(s, e);
      StepBasics(s, e);
      forall x | x in t.ptes ensures PteOk(t, x) { StepPte(s, e, x); }
      forall x | x in t.refs ensures CountOk(t, x) { StepCount(s, e, x); }
      forall x | x in t.free ensures x in t.refs && t.refs[x] == 0 { StepFree(s, e, x); }
      forall x | 0 <= x < |t.acts| ensures ActOk(t, x) { StepAct(s, e, x); }
      forall j | j in t.uncounted ensures UncountedOk(t, j) { StepUncounted(s, e, j); }
      forall x | x in t.unborn ensures UnbornOk(t, x) { StepUnborn(s, e, x); }
    }
  }

  lemma Disabled(s: State, e: Event)
    requires !Enabled(s, e)
    ensures Step(s, e) == s
  {}

  lemma StepBasics(s: State, e: Event)
    requires Inv(s)
    ensures |Step(s, e).acts| == |s.acts| && Step(s, e).refs.Keys == s.refs.Keys && !Step(s, e).panic
  {
    hide Inv, Entries, Pending, CountOk;
    if e.ReleaseFrame? && e.p < |s.acts| {
      ActAt(s, e.p);
    }
    NoPanic(s);
  }

  lemma NoPanic(s: State)
    requires Inv(s)
    ensures !s.panic
  {}

  lemma {:induction false} RunInv(n: nat, frames: set<nat>, es: seq<Event>)
    ensures Inv(Run(Init(n, frames), es))
    decreases |es|
  {
    if es == [] {
      InitInv(n, frames);
    } else {
      hide Inv, Step;
      RunInv(n, frames, es[..|es|-1]);
      StepInv(Run(Init(n, frames), es[..|es|-1]), es[|es|-1]);
    }
  }

  lemma InitInv(n: nat, frames: set<nat>)
    ensures Inv(Init(n, frames))
  {
    var s := Init(n, frames);
    forall f | f in s.refs
      ensures CountOk(s, f)
    {
      assert Entries(s, f) == {} && Pending(s, f) == {};
    }
  }

  // ----- isolation

  /** What every process sees. */
  function View(s: State): map<Key, Page> {
    map k | k in s.ptes :: Shown(s, k)
  }

  function Shown(s: State, k: Key): Page
    requires k in s.ptes
  {
    if s.ptes[k].frame in s.data then s.data[s.ptes[k].frame] else ZeroPage()
  }

  /** What a step does to address spaces that share nothing. */
  datatype Op = Put(k: Key, i: nat, b: Byte) | New(k: Key) | Gone(k: Key) | Child(k: Key, j: Key) | Nothing

  function OpOf(s: State, e: Event): Op {
    if !Enabled(s, e) then Nothing
    else match e
      case Store(k, i, b) => Put(k, i, b)
      case Alloc(k, _) => New(k)
      case ReleaseFrame(p) => Gone(s.acts[p].k)
      case Share(p, q, v) => Child(Key(p, v), Key(q, v))
      case _ => Nothing
  }

  function Apply(mem: map<Key, Page>, op: Op): map<Key, Page> {
    match op
    case Put(k, i, b) => if k in mem then mem[k := WithByte(mem[k], i, b)] else mem
    case New(k) => mem[k := ZeroPage()]
    case Gone(k) => mem - {k}
    case Child(k, j) => if k in mem then mem[j := mem[k]] else mem
    case Nothing => mem
  }

  /** The operations that a run performs, in order. */
  function Ops(s: State, es: seq<Event>): seq<Op>
    decreases |es|
  {
    if es == [] then [] else Ops(s, es[..|es|-1]) + [OpOf(Run(s, es[..|es|-1]), es[|es|-1])]
  }

  function ApplyAll(mem: map<Key, Page>, ops: seq<Op>): map<Key, Page>
    decreases |ops|
  {
    if ops == [] then mem else Apply(ApplyAll(mem, ops[..|ops|-1]), ops[|ops|-1])
  }

  lemma SameView(s: State, t: State)
    requires t.ptes.Keys == s.ptes.Keys && forall x :: x in s.ptes ==> Shown(t, x) == Shown(s, x)
    ensures View(t) == View(s)
  {}

  lemma QuietView(s: State, e: Event)
    requires e.Fault? || e.Drop? || e.Release? || e.BeginFork? || e.ShareCount? || e.EndFork?
    ensures View(Step(s, e)) == View(s)
  {
    assert Step(s, e).ptes == s.ptes && Step(s, e).data == s.data;
    SameView(s, Step(s, e));
  }

  /** Every step is seen by the process it belongs to only, and most by nobody. */
  lemma StepView(s: State, e: Event)
    requires Inv(s)
    ensures View(Step(s, e)) == Apply(View(s), OpOf(s, e))
  {
    hide Inv, Step, Enabled, View;
    if Enabled(s, e) {
      match e
      case Store(k, i, b) => StoreView(s, k, i, b);
      case Alloc(k, f) => AllocView(s, k, f);
      case Own(p) => OwnView(s, p);
      case Copy(p, g) => CopyView(s, p, g);
      case Remap(p) => RemapView(s, p);
      case ReleaseFrame(p) => ReleaseView(s, p);
      case Share(p, q, v) => ShareView(s, p, q, v);
      case _ => QuietView(s, e);
    } else {
      Disabled(s, e);
    }
  }

  lemma AllocView(s: State, k: Key, f: nat)
    requires Inv(s) && Enabled(s, Alloc(k, f))
    ensures View(Step(s, Alloc(k, f))) == Apply(View(s), New(k))
  {
    hide Inv, Entries, Pending, CountOk;
    FreeUnmapped(s, f);
  }

  lemma OwnView(s: State, p: nat)
    requires Inv(s) && Enabled(s, Own(p))
    ensures View(Step(s, Own(p))) == View(s)
  {
    SameView(s, Step(s, Own(p)));
  }

  lemma CopyView(s: State, p: nat, g: nat)
    requires Inv(s) && Enabled(s, Copy(p, g))
    ensures View(Step(s, Copy(p, g))) == View(s)
  {
    hide Inv, Entries, Pending, CountOk;
    FreeUnmapped(s, g);
    SameView(s, Step(s, Copy(p, g)));
  }

  lemma ReleaseView(s: State, p: nat)
    requires Inv(s) && Enabled(s, ReleaseFrame(p))
    ensures View(Step(s, ReleaseFrame(p))) == Apply(View(s), Gone(s.acts[p].k))
  {
    hide Inv, Entries, Pending, CountOk;
    ActAt(s, p);
  }

  lemma ShareView(s: State, p: nat, q: nat, v: nat)
    requires Inv(s) && Enabled(s, Share(p, q, v))
    ensures View(Step(s, Share(p, q, v))) == Apply(View(s), Child(Key(p, v), Key(q, v)))
  {
    hide Inv, Entries, Pending, CountOk;
  }

  lemma StoreView(s: State, k: Key, i: nat, b: Byte)
    requires Inv(s) && Enabled(s, Store(k, i, b))
    ensures View(Step(s, Store(k, i, b))) == Apply(View(s), Put(k, i, b))
  {
    hide Inv, Entries, Pending, CountOk;
    var t := Step(s, Store(k, i, b));
    forall x | x in s.ptes
      ensures Shown(t, x) == if x == k then WithByte(Shown(s, k), i, b) else Shown(s, x)
    {
      WritableAlone(s, k, x);
    }
  }

  lemma RemapView(s: State, p: nat)
    requires Inv(s) && Enabled(s, Remap(p))
    ensures View(Step(s, Remap(p))) == View(s)
  {
    hide Inv, Entries, Pending, CountOk;
    ActAt(s, p);
    SameView(s, Step(s, Remap(p)));
  }

  /** Isolation: over every interleaving of the steps of faults, releases and forks, every address
      space is what its own operations made of it. */
  lemma {:induction false} Isolated(n: nat, frames: set<nat>, es: seq<Event>)
    ensures View(Run(Init(n, frames), es)) == ApplyAll(map[], Ops(Init(n, frames), es))
    decreases |es|
  {
    var s0 := Init(n, frames);
    if es != [] {
      hide Inv, Step, OpOf, Apply, View;
      var before, e := es[..|es|-1], es[|es|-1];
      Isolated(n, frames, before);
      RunInv(n, frames, before);
      StepView(Run(s0, before), e);
      assert Ops(s0, es)[..|Ops(s0, es)|-1] == Ops(s0, before);
    }
  }

  // ----- what a place in memory holds

  /** What page k holds at offset i after a run, if there is such a page, from the steps that were
      taken: the last byte stored there. A new page is zero, and a shared one starts as the
      parent's was when it was shared. */
  function Latest(s: State, es: seq<Event>, k: Key, i: nat): Option<Byte>
    decreases |es|
  {
    if es == [] then None
    else
      var before, e := es[..|es|-1], es[|es|-1];
      var now := Latest(s, before, k, i);
      if !Enabled(Run(s, before), e) then now
      else match e
        case Store(k', i', b) => if k' == k && i' == i then Some(b) else now
        case Alloc(k', _) => if k' == k then Some(0) else now
        case ReleaseFrame(p) => if Run(s, before).acts[p].k == k then None else now
        case Share(p, q, v) => if Key(q, v) == k then Latest(s, before, Key(p, v), i) else now
        case _ => now
  }

  function At(mem: map<Key, Page>, k: Key, i: nat): Option<Byte> {
    if k in mem then Some(ByteAt(mem[k], i)) else None
  }

  predicate AllWhole(mem: map<Key, Page>) {
    forall k :: k in mem ==> |mem[k].bytes| == PGSIZE
  }

  lemma ApplyWhole(mem: map<Key, Page>, op: Op)
    requires AllWhole(mem)
    ensures AllWhole(Apply(mem, op))
  {}

  /** Every place holds the last byte stored there, whatever steps of other processes come in
      between. */
  lemma {:induction false} LastStored(n: nat, frames: set<nat>, es: seq<Event>, k: Key, i: nat)
    requires i < PGSIZE
    ensures AllWhole(View(Run(Init(n, frames), es)))
    ensures At(View(Run(Init(n, frames), es)), k, i) == Latest(Init(n, frames), es, k, i)
    decreases |es|
  {
    var s0 := Init(n, frames);
    if es != [] {
      hide Inv, Step, View, AllWhole;
      var before, e := es[..|es|-1], es[|es|-1];
      var s := Run(s0, before);
      LastStored(n, frames, before, k, i);
      RunInv(n, frames, before);
      StepView(s, e);
      ApplyWhole(View(s), OpOf(s, e));
      if e.Share? {
        LastStored(n, frames, before, Key(e.p, e.v), i);
      }
      AppliedAt(s, e, View(s), k, i);
    }
  }

  /** A step that is taken, on one place. */
  lemma AppliedAt(s: State, e: Event, mem: map<Key, Page>, k: Key, i: nat)
    requires AllWhole(mem) && i < PGSIZE && (Enabled(s, e) ==> mem.Keys == s.ptes.Keys)
    ensures At(Apply(mem, OpOf(s, e)), k, i) ==
      if !Enabled(s, e) then At(mem, k, i)
      else match e
        case Store(k', i', b) => if k' == k && i' == i then Some(b) else At(mem, k, i)
        case Alloc(k', _) => if k' == k then Some(0) else At(mem, k, i)
        case ReleaseFrame(p) => if s.acts[p].k == k then None else At(mem, k, i)
        case Share(p, q, v) => if Key(q, v) == k then At(mem, Key(p, v), i) else At(mem, k, i)
        case _ => At(mem, k, i)
  {
    assert ByteAt(ZeroPage(), i) == 0;
  }

  /** A fault of the only holder makes its entry writable in place. */
  lemma SoleFault(s: State, k: Key)
    requires Inv(s) && Enabled(s, Fault(k)) && s.refs[s.ptes[k].frame] == 1
    ensures
      var t := Step(Step(s, Fault(k)), Own(k.pid));
      t == s.(ptes := s.ptes[k := s.ptes[k].(writable := true)]) && View(t) == View(s)
  {
    hide Inv;
    var s1 := Step(s, Fault(k));
    assert s1.acts[k.pid] == Faulting(k, s.ptes[k].frame, 1);
    StepView(s, Fault(k));
    StepInv(s, Fault(k));
    StepView(s1, Own(k.pid));
  }

  /** Any other fault ends, when a frame is free, with the entry on a copy of its own. */
  lemma SharedFault(s: State, k: Key, g: nat)
    requires Inv(s) && Enabled(s, Fault(k)) && s.refs[s.ptes[k].frame] != 1 && g in s.free
    ensures
      var f, p := s.ptes[k].frame, k.pid;
      var t := Step(Step(Step(Step(s, Fault(k)), Copy(p, g)), Remap(p)), Drop(p));
      && f in s.data && g in s.refs
      && t.ptes == s.ptes[k := Pte(g, true)] && t.data == s.data[g := s.data[f]] && t.acts == s.acts
      && t.refs == s.refs[g := 1][f := Decrement(s.refs[f])] && t.free == s.free - {g} && View(t) == View(s)
  {
    var f, p := s.ptes[k].frame, k.pid;
    PteAt(s, k);
    FreeAt(s, g);
    assert s.refs[f] > 0 by {
      var h := CountedFor(s, k);
      CountAt(s, f);
    }
    hide Inv, Step, View, CountOk, Entries, Pending;
    FaultCopy(s, k, g);
    var s2 := Step(Step(s, Fault(k)), Copy(p, g));
    RemapDrop(s2, p, k, f, g);
    FourQuiet(s, Fault(k), Copy(p, g), Remap(p), Drop(p));
    assert s.acts[p := Copied(k, f, g)][p := Idle] == s.acts;
  }

  lemma FaultCopy(s: State, k: Key, g: nat)
    requires Enabled(s, Fault(k)) && s.refs[s.ptes[k].frame] > 1 && s.ptes[k].frame in s.data
    requires g in s.free && g in s.refs
    ensures
      var f := s.ptes[k].frame;
      Step(Step(s, Fault(k)), Copy(k.pid, g)) ==
        s.(data := s.data[g := s.data[f]], refs := s.refs[g := 1], free := s.free - {g},
           acts := s.acts[k.pid := Copied(k, f, g)])
  {
    var f := s.ptes[k].frame;
    assert Step(s, Fault(k)) == s.(acts := s.acts[k.pid := Faulting(k, f, s.refs[f])]);
  }

  lemma RemapDrop(s: State, p: nat, k: Key, f: nat, g: nat)
    requires !s.panic && p < |s.acts| && s.acts[p] == Copied(k, f, g) && f in s.refs
    ensures Step(Step(s, Remap(p)), Drop(p)) ==
      s.(ptes := s.ptes[k := Pte(g, true)], refs := s.refs[f := Decrement(s.refs[f])], acts := s.acts[p := Idle])
  {
    assert Step(s, Remap(p)) == s.(ptes := s.ptes[k := Pte(g, true)], acts := s.acts[p := Remapped(f)]);
  }

  /** A release that is not disturbed takes the page away, and its frame is freed if nobody else holds
      it, or has one holder less. */
  lemma ReleaseRuns(s: State, k: Key)
    requires Inv(s) && Enabled(s, Release(k))
    ensures
      var f := s.ptes[k].frame;
      var t := Step(Step(s, Release(k)), ReleaseFrame(k.pid));
      && t.ptes == s.ptes - {k} && t.acts == s.acts && t.data == s.data && s.refs[f] >= 1
      && t.refs == s.refs[f := s.refs[f] - 1] && t.free == if s.refs[f] == 1 then s.free + {f} else s.free
  {
    var f, p := s.ptes[k].frame, k.pid;
    assert s.refs[f] > 0 by {
      var h := CountedFor(s, k);
      CountAt(s, f);
    }
    hide Inv, CountOk, Entries, Pending, Step;
    ReleaseTwo(s, k);
    assert s.acts[p := Releasing(k, f, s.refs[f])][p := Idle] == s.acts;
  }

  lemma ReleaseTwo(s: State, k: Key)
    requires Enabled(s, Release(k)) && s.refs[s.ptes[k].frame] > 0
    ensures
      var f, p := s.ptes[k].frame, k.pid;
      Step(Step(s, Release(k)), ReleaseFrame(p)) ==
        s.(refs := s.refs[f := s.refs[f] - 1], free := if s.refs[f] == 1 then s.free + {f} else s.free,
           ptes := s.ptes - {k}, acts := s.acts[p := Releasing(k, f, s.refs[f])][p := Idle])
  {
    var f, p := s.ptes[k].frame, k.pid;
    assert Step(s, Release(k)) == s.(acts := s.acts[p := Releasing(k, f, s.refs[f])]);
  }

  lemma FourQuiet(s: State, e1: Event, e2: Event, e3: Event, e4: Event)
    requires Inv(s) && e1.Fault? && e2.Copy? && e3.Remap? && e4.Drop?
    ensures View(Step(Step(Step(Step(s, e1), e2), e3), e4)) == View(s)
  {
    hide Inv, Step, View;
    StepView(s, e1);
    StepInv(s, e1);
    var s1 := Step(s, e1);
    StepView(s1, e2);
    StepInv(s1, e2);
    var s2 := Step(s1, e2);
    StepView(s2, e3);
    StepInv(s2, e3);
    StepView(Step(s2, e3), e4);
  }

  // ----- frames

  /** Frames that nobody holds and that are not free either. */
  function Lost(s: State): set<nat> {
    set f | f in s.refs && s.refs[f] == 0 && f !in s.free
  }

  function Live(s: State): set<nat> {
    set f | f in s.refs && s.refs[f] > 0
  }

  /** A refDec that finds count 1. */
  predicate Loses(s: State, e: Event) {
    Enabled(s, e) &&
    match e
    case Drop(p) => s.refs[s.acts[p].f] == 1
    case ReleaseFrame(p) => s.acts[p].c != 1 && s.refs[s.acts[p].f] == 1
    case _ => false
  }

  /** Every frame is free, live or lost. */
  lemma FramesAccounted(s: State)
    requires Inv(s)
    ensures |s.free| + |Live(s)| + |Lost(s)| == |s.refs|
  {
    assert s.refs.Keys == s.free + Live(s) + Lost(s);
    assert |s.refs| == |s.refs.Keys|;
  }

  /** A step loses a frame exactly when it is a refDec that finds count 1; none comes back. */
  lemma StepLost(s: State, e: Event)
    requires Inv(s)
    ensures Lost(s) <= Lost(Step(s, e)) && (Lost(Step(s, e)) != Lost(s) <==> Loses(s, e))
  {
    hide Inv, Lost, Step;
    if Enabled(s, e) {
      match e
      case Alloc(k, f) => TakenNotLost(s, e, f);
      case Copy(p, g) => TakenNotLost(s, e, g);
      case Drop(p) => DropLost(s, p);
      case ReleaseFrame(p) => ReleaseLost(s, p);
      case ShareCount(p) => ShareNotLost(s, p);
      case _ => QuietNotLost(s, e);
    } else {
      Disabled(s, e);
    }
  }

  lemma TakenNotLost(s: State, e: Event, f: nat)
    requires Inv(s) && Enabled(s, e) && ((e.Alloc? && e.f == f) || (e.Copy? && e.g == f))
    ensures Lost(Step(s, e)) == Lost(s)
  {
    hide Inv, Entries, Pending, CountOk;
    FreeAt(s, f);
  }

  lemma QuietNotLost(s: State, e: Event)
    requires !e.Alloc? && !e.Copy? && !e.Drop? && !e.ReleaseFrame? && !e.ShareCount?
    ensures Lost(Step(s, e)) == Lost(s)
  {
    assert Step(s, e).refs == s.refs && Step(s, e).free == s.free;
  }

  lemma DropLost(s: State, p: nat)
    requires Inv(s) && Enabled(s, Drop(p))
    ensures Lost(Step(s, Drop(p))) == Lost(s) + (if Loses(s, Drop(p)) then {s.acts[p].f} else {})
    ensures s.acts[p].f !in Lost(s)
  {
    hide Inv, Entries, Pending, CountOk;
    PendingOwed(s, p);
    CountLost(s, Step(s, Drop(p)), s.acts[p].f);
  }

  lemma ReleaseLost(s: State, p: nat)
    requires Inv(s) && Enabled(s, ReleaseFrame(p))
    ensures
      var e := ReleaseFrame(p);
      Lost(Step(s, e)) == Lost(s) + (if Loses(s, e) then {s.acts[p].f} else {}) && s.acts[p].f !in Lost(s)
  {
    hide Inv, Entries, Pending, CountOk;
    ActAt(s, p);
    EntryHeld(s, p, s.acts[p].k);
    CountLost(s, Step(s, ReleaseFrame(p)), s.acts[p].f);
  }

  lemma ShareNotLost(s: State, p: nat)
    requires Inv(s) && Enabled(s, ShareCount(p))
    ensures Lost(Step(s, ShareCount(p))) == Lost(s)
  {
    hide Inv, Entries, Pending, CountOk;
    ShareHeld(s, p);
    CountLost(s, Step(s, ShareCount(p)), s.acts[p].f);
  }

  lemma CountLost(s: State, t: State, f: nat)
    requires f in s.refs && t.refs.Keys == s.refs.Keys && s.refs[f] >= 1
    requires forall x :: x in s.refs && x != f ==> t.refs[x] == s.refs[x] && (x in t.free <==> x in s.free)
    ensures Lost(t) == Lost(s) + if t.refs[f] == 0 && f !in t.free then {f} else {}
    ensures f !in Lost(s)
  {}

  predicate NeverLoses(s: State, es: seq<Event>)
    decreases |es|
  {
    es != [] ==> NeverLoses(s, es[..|es|-1]) && !Loses(Run(s, es[..|es|-1]), es[|es|-1])
  }

  /** Frames are conserved in a run exactly when every refDec of it finds a count above 1. */
  lemma {:induction false} ConservedExactly(n: nat, frames: set<nat>, es: seq<Event>)
    ensures Lost(Run(Init(n, frames), es)) == {} <==> NeverLoses(Init(n, frames), es)
    decreases |es|
  {
    var s0 := Init(n, frames);
    if es == [] {
      assert Lost(s0) == {};
    } else {
      hide Inv, Step, Loses, Lost;
      ConservedExactly(n, frames, es[..|es|-1]);
      RunInv(n, frames, es[..|es|-1]);
      StepLost(Run(s0, es[..|es|-1]), es[|es|-1]);
    }
  }

  // ----- releases that do not overlap

  /** p is between reading the count of f and giving f up. */
  predicate GivesUp(a: Act, f: nat) {
    match a
    case Faulting(_, x, c) => x == f && c > 1
    case Copied(_, x, _) => x == f
    case Remapped(x) => x == f
    case Releasing(_, x, _) => x == f
    case _ => false
  }

  predicate Overlap(s: State, p: nat, q: nat, f: nat) {
    p < |s.acts| && q < |s.acts| && p != q && GivesUp(s.acts[p], f) && GivesUp(s.acts[q], f)
  }

  ghost predicate NoOverlap(s: State) {
    forall p, q, f :: !Overlap(s, p, q, f)
  }

  ghost predicate NeverOverlaps(s: State, es: seq<Event>)
    decreases |es|
  {
    NoOverlap(Run(s, es)) && (es != [] ==> NeverOverlaps(s, es[..|es|-1]))
  }

  /** A process that read a count above 1 will still find it above 1. */
  predicate StillShared(s: State, p: nat)
    requires p < |s.acts|
  {
    match s.acts[p]
    case Faulting(_, f, c) => c > 1 ==> f in s.refs && s.refs[f] > 1
    case Copied(_, f, _) => f in s.refs && s.refs[f] > 1
    case Remapped(f) => f in s.refs && s.refs[f] > 1
    case Releasing(_, f, c) => c > 1 ==> f in s.refs && s.refs[f] > 1
    case _ => true
  }

  ghost predicate AllShared(s: State) {
    forall p :: 0 <= p < |s.acts| ==> StillShared(s, p)
  }

  /** A count above 1 falls only by a process that gives the frame up. */
  lemma CountFalls(s: State, e: Event, f: nat)
    requires Inv(s) && f in s.refs && s.refs[f] > 1 && Enabled(s, e)
    ensures f in Step(s, e).refs
    ensures
      || Step(s, e).refs[f] > 1
      || exists p :: 0 <= p < |s.acts| && GivesUp(s.acts[p], f) && Step(s, e).acts == s.acts[p := Idle]
  {
    hide Inv, Entries, Pending, CountOk, ActOk;
    match e
    case Alloc(k, g) => FreeAt(s, g);
    case Copy(p, g) => FreeAt(s, g);
    case Drop(p) => assert s.acts[p].f == f ==> GivesUp(s.acts[p], f);
    case ReleaseFrame(p) => assert s.acts[p].f == f ==> GivesUp(s.acts[p], f);
    case _ =>
  }

  /** The process that acts starts to give a frame up, goes on with it, or is done. */
  lemma ActChanges(s: State, e: Event, x: nat)
    requires Enabled(s, e) && x < |s.acts| == |Step(s, e).acts| && StillShared(s, x)
    ensures Step(s, e).acts[x] == s.acts[x] || StillShared(s.(acts := Step(s, e).acts), x)
  {}

  lemma StepShared(s: State, e: Event, x: nat)
    requires Inv(s) && NoOverlap(s) && x < |s.acts| == |Step(s, e).acts| && StillShared(s, x) && Enabled(s, e)
    ensures StillShared(Step(s, e), x)
  {
    hide Inv, Step, Enabled, ActOk;
    ActChanges(s, e, x);
    var t := Step(s, e);
    var a := t.acts[x];
    if !a.Idle? && !a.Sharing? && a.f in s.refs && s.refs[a.f] > 1 {
      CountFalls(s, e, a.f);
      if t.refs[a.f] <= 1 {
        var p :| 0 <= p < |s.acts| && GivesUp(s.acts[p], a.f) && t.acts == s.acts[p := Idle];
        assert !Overlap(s, p, x, a.f);
      }
    }
  }

  lemma SharedNotLost(s: State, e: Event)
    requires Inv(s) && AllShared(s)
    ensures !Loses(s, e)
  {
    hide Inv, Entries, Pending, CountOk;
    match e
    case Drop(p) => if p < |s.acts| { assert StillShared(s, p); }
    case ReleaseFrame(p) => if p < |s.acts| { ActAt(s, p); assert StillShared(s, p); }
    case _ =>
  }

  /** If no two processes give up the same frame at the same time, no frame is lost. */
  lemma {:induction false} NoOverlapNoLoss(n: nat, frames: set<nat>, es: seq<Event>)
    requires NeverOverlaps(Init(n, frames), es)
    ensures AllShared(Run(Init(n, frames), es)) && Lost(Run(Init(n, frames), es)) == {}
    decreases |es|
  {
    var s0 := Init(n, frames);
    if es == [] {
      assert Lost(s0) == {};
    } else {
      hide Inv, Step, Loses, Lost, StillShared;
      var before, e := es[..|es|-1], es[|es|-1];
      var s := Run(s0, before);
      NoOverlapNoLoss(n, frames, before);
      RunInv(n, frames, before);
      StepBasics(s, e);
      forall x | 0 <= x < |Step(s, e).acts|
        ensures StillShared(Step(s, e), x)
      {
        if Enabled(s, e) {
          StepShared(s, e, x);
        } else {
          Disabled(s, e);
        }
      }
      SharedNotLost(s, e);
      StepLost(s, e);
    }
  }

  // ----- a frame is lost when two write faults overlap

  lemma Then(s: State, es: seq<Event>, e: Event)
    ensures Run(s, es + [e]) == Step(Run(s, es), e)
  {
    hide Step;
    assert (es + [e])[..|es|] == es;
  }

  const PARENT := Key(0, 0)
  const CHILD := Key(1, 0)

  function Start(): State {
    Init(2, {0, 1, 2})
  }

  function OnePage(): State {
    State(map[PARENT := Pte(0, true)], map[0 := ZeroPage()], map[0 := 1, 1 := 0, 2 := 0], {1, 2}, [Idle, Idle], map[],
          {}, false)
  }

  function SharedPage(): State {
    State(map[PARENT := Pte(0, false), CHILD := Pte(0, false)], map[0 := ZeroPage()], map[0 := 1, 1 := 0, 2 := 0],
          {1, 2}, [Sharing(CHILD, 0), Idle], map[1 := 0], {CHILD}, false)
  }

  /** Parent and child share frame 0. */
  function Forked(acts: seq<Act>): State {
    State(map[PARENT := Pte(0, false), CHILD := Pte(0, false)], map[0 := ZeroPage()], map[0 := 2, 1 := 0, 2 := 0],
          {1, 2}, acts, map[], {}, false)
  }

  /** Both found count 2 and made their copy. */
  function BothCopied(ptes: map<Key, Pte>, count: nat, acts: seq<Act>): State {
    State(ptes, map[0 := ZeroPage(), 1 := ZeroPage(), 2 := ZeroPage()], map[0 := count, 1 := 1, 2 := 1], {}, acts,
          map[], {}, false)
  }

  const APART := map[PARENT := Pte(1, true), CHILD := Pte(2, true)]

  lemma AllocStep()
    ensures Step(Start(), Alloc(PARENT, 0)) == OnePage()
  {
  }

  lemma ShareSteps()
    ensures Step(Step(OnePage(), BeginFork(0, 1)), Share(0, 1, 0)) == SharedPage()
  {
    assert Step(OnePage(), BeginFork(0, 1)) == OnePage().(unborn := map[1 := 0]);
  }

  lemma ForkSteps()
    ensures Step(Step(SharedPage(), ShareCount(0)), EndFork(0, 1)) == Forked([Idle, Idle])
  {
    assert Step(SharedPage(), ShareCount(0)) == Forked([Idle, Idle]).(unborn := map[1 := 0]);
  }

  lemma FaultSteps()
    ensures Step(Step(Forked([Idle, Idle]), Fault(PARENT)), Fault(CHILD))
         == Forked([Faulting(PARENT, 0, 2), Faulting(CHILD, 0, 2)])
  {
    assert Step(Forked([Idle, Idle]), Fault(PARENT)) == Forked([Faulting(PARENT, 0, 2), Idle]);
  }

  lemma CopySteps()
    ensures Step(Step(Forked([Faulting(PARENT, 0, 2), Faulting(CHILD, 0, 2)]), Copy(0, 1)), Copy(1, 2))
         == BothCopied(Forked([]).ptes, 2, [Copied(PARENT, 0, 1), Copied(CHILD, 0, 2)])
  {
    assert Step(Forked([Faulting(PARENT, 0, 2), Faulting(CHILD, 0, 2)]), Copy(0, 1))
        == Forked([Copied(PARENT, 0, 1), Faulting(CHILD, 0, 2)]).(
             data := map[0 := ZeroPage(), 1 := ZeroPage()], refs := map[0 := 2, 1 := 1, 2 := 0], free := {2});
  }

  lemma RemapSteps()
    ensures Step(Step(BothCopied(Forked([]).ptes, 2, [Copied(PARENT, 0, 1), Copied(CHILD, 0, 2)]), Remap(0)), Remap(1))
         == BothCopied(APART, 2, [Remapped(0), Remapped(0)])
  {
    assert Step(BothCopied(Forked([]).ptes, 2, [Copied(PARENT, 0, 1), Copied(CHILD, 0, 2)]), Remap(0))
        == BothCopied(map[PARENT := Pte(1, true), CHILD := Pte(0, false)], 2, [Remapped(0), Copied(CHILD, 0, 2)]);
  }

  lemma DropSteps()
    ensures Step(Step(BothCopied(APART, 2, [Remapped(0), Remapped(0)]), Drop(0)), Drop(1))
         == BothCopied(APART, 0, [Idle, Idle])
  {
    assert Step(BothCopied(APART, 2, [Remapped(0), Remapped(0)]), Drop(0)) == BothCopied(APART, 1, [Idle, Remapped(0)]);
  }

  lemma ThenTwo(s: State, es: seq<Event>, e1: Event, e2: Event)
    ensures Run(s, es + [e1, e2]) == Step(Step(Run(s, es), e1), e2)
  {
    hide Run, Step;
    Then(s, es, e1);
    Then(s, es + [e1], e2);
    assert es + [e1] + [e2] == es + [e1, e2];
  }

  /** Two write faults on a frame with count 2 each take it for shared and each drop it: when both
      are over its count is 0, nobody maps it and it is not free. */
  lemma OverlapLoses() returns (es: seq<Event>)
    ensures Run(Start(), es) == BothCopied(APART, 0, [Idle, Idle]) && Lost(Run(Start(), es)) == {0}
  {
    hide Step;
    var s := Start();
    Then(s, [], Alloc(PARENT, 0));
    es := [Alloc(PARENT, 0)];
    assert [] + es == es;
    AllocStep();
    ThenTwo(s, es, BeginFork(0, 1), Share(0, 1, 0));
    es := es + [BeginFork(0, 1), Share(0, 1, 0)];
    ShareSteps();
    ThenTwo(s, es, ShareCount(0), EndFork(0, 1));
    es := es + [ShareCount(0), EndFork(0, 1)];
    ForkSteps();
    ThenTwo(s, es, Fault(PARENT), Fault(CHILD));
    es := es + [Fault(PARENT), Fault(CHILD)];
    FaultSteps();
    ThenTwo(s, es, Copy(0, 1), Copy(1, 2));
    es := es + [Copy(0, 1), Copy(1, 2)];
    CopySteps();
    ThenTwo(s, es, Remap(0), Remap(1));
    es := es + [Remap(0), Remap(1)];
    RemapSteps();
    ThenTwo(s, es, Drop(0), Drop(1));
    es := es + [Drop(0), Drop(1)];
    DropSteps();
  }
}
