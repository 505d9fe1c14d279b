/** Runs of the buffer cache (bio.c): processes ask for blocks, get them locked, change them, log
    or write them and release them, in any interleaving. To the processes the cache is a plain
    array of blocks in which each block has an owner and a draft while it is locked. */
module BufferClients {
  import opened Bio
  import opened Common

  /** Process pid has asked for block b and not yet released it. */
  datatype Key = Key(pid: nat, b: nat)

  datatype Event =
    | Ask(pid: nat, b: nat)                   // bread, up to waiting for the buffer's lock
    | Finish(pid: nat, b: nat)                // bread returns
    | Edit(pid: nat, b: nat, data: Block)
    | LogWrite(pid: nat, b: nat)
    | Write(pid: nat, b: nat)                 // bwrite, as commit does
    | Unlock(pid: nat, b: nat)                // brelse, up to releasesleep
    | Drop(pid: nat, b: nat)                  // the rest of brelse, under bcache.lock

  // ----- the specification

  /** leaving: the requests whose process is halfway through brelse. */
  datatype Flat = Flat(
    mem: seq<Block>,
    asked: set<Key>,
    leaving: set<Key>,
    owner: map<nat, nat>,
    draft: map<nat, Block>,
    edited: set<nat>)

  predicate Owns(f: Flat, pid: nat, b: nat) {
    b < |f.mem| && b in f.owner && f.owner[b] == pid && b in f.draft
  }

  /** bread shows the contents last logged or written. An edited block is logged or written
      before it is released. */
  function FlatStep(f: Flat, e: Event): (Flat, Option<Block>) {
    match e
    case Ask(pid, b) =>
      if pid > 0 && b < |f.mem| && Key(pid, b) !in f.asked
      then (f.(asked := f.asked + {Key(pid, b)}), None) else (f, None)
    case Finish(pid, b) =>
      if Key(pid, b) in f.asked && Key(pid, b) !in f.leaving && b < |f.mem| && b !in f.owner
      then (f.(owner := f.owner[b := pid], draft := f.draft[b := f.mem[b]]), Some(f.mem[b])) else (f, None)
    case Edit(pid, b, data) =>
      if Owns(f, pid, b) then (f.(draft := f.draft[b := data], edited := f.edited + {b}), None) else (f, None)
    case LogWrite(pid, b) =>
      if Owns(f, pid, b) then (f.(mem := f.mem[b := f.draft[b]], edited := f.edited - {b}), None) else (f, None)
    case Write(pid, b) =>
      if Owns(f, pid, b) then (f.(mem := f.mem[b := f.draft[b]], edited := f.edited - {b}), None) else (f, None)
    case Unlock(pid, b) =>
      if Owns(f, pid, b) && b !in f.edited
      then (f.(leaving := f.leaving + {Key(pid, b)}, owner := f.owner - {b}), None) else (f, None)
    case Drop(pid, b) =>
      if Key(pid, b) in f.leaving
      then (f.(asked := f.asked - {Key(pid, b)}, leaving := f.leaving - {Key(pid, b)}), None) else (f, None)
  }

  /** Owners have asked, and a process that is leaving a block no longer owns it. */
  ghost predicate Leaving(f: Flat) {
    && (forall k :: k in f.leaving ==> k in f.asked && (k.b in f.owner ==> f.owner[k.b] != k.pid))
    && (forall b :: b in f.owner ==> Key(f.owner[b], b) in f.asked)
  }

  lemma LeavingStep(f: Flat, e: Event)
    requires Leaving(f)
    ensures Leaving(FlatStep(f, e).0)
  {}

  function FlatRun(f: Flat, es: seq<Event>): (Flat, seq<Option<Block>>)
    decreases |es|
  {
    if es == [] then (f, [])
    else
      var (g, outs) := FlatRun(f, es[..|es|-1]);
      var (h, out) := FlatStep(g, es[|es|-1]);
      (h, outs + [out])
  }

  lemma RunSnoc(f: Flat, es: seq<Event>, k: nat)
    requires k < |es|
    ensures
      var (g, outs) := FlatRun(f, es[..k]);
      var (h, out) := FlatStep(g, es[k]);
      FlatRun(f, es[..k + 1]) == (h, outs + [out])
  {
    assert es[..k + 1][..k] == es[..k];
  }

  // ----- what a run shows, from its events alone

  /** A new cache over a disk. */
  function Start(disk: seq<Block>): Flat {
    Flat(disk, {}, {}, map[], map[], {})
  }

  /** The process that has block b locked. */
  function Owner(disk: seq<Block>, es: seq<Event>, b: nat): Option<nat>
    decreases |es|, 1
  {
    if es == [] then None
    else
      var before, e := es[..|es|-1], es[|es|-1];
      var owner := Owner(disk, before, b);
      if e.b != b then owner
      else if e.Finish? && owner == None && Waits(disk, before, e.pid, b) then Some(e.pid)
      else if Unlocks(disk, before, e) then None
      else owner
  }

  /** e is brelse of a locked block, by its owner and with nothing left to log or write. */
  predicate Unlocks(disk: seq<Block>, before: seq<Event>, e: Event)
    decreases |before|, 2
  {
    e.Unlock? && Owner(disk, before, e.b) == Some(e.pid) && !Unsaved(disk, before, e.b)
  }

  /** pid is in bread for block b. */
  predicate Waits(disk: seq<Block>, es: seq<Event>, pid: nat, b: nat)
    decreases |es|, 1
  {
    es != [] &&
    var before, e := es[..|es|-1], es[|es|-1];
    if e.pid != pid || e.b != b then Waits(disk, before, pid, b)
    else if e.Ask? && 0 < pid && b < |disk| && !Leaves(disk, before, pid, b) then true
    else if Unlocks(disk, before, e) then false
    else Waits(disk, before, pid, b)
  }

  /** pid is halfway through brelse of block b. */
  predicate Leaves(disk: seq<Block>, es: seq<Event>, pid: nat, b: nat)
    decreases |es|, 1
  {
    es != [] &&
    var before, e := es[..|es|-1], es[|es|-1];
    if e.pid != pid || e.b != b then Leaves(disk, before, pid, b)
    else if Unlocks(disk, before, e) then true
    else !e.Drop? && Leaves(disk, before, pid, b)
  }

  /** e is done by the process that has its block locked. */
  predicate ByOwner(disk: seq<Block>, before: seq<Event>, e: Event)
    decreases |before|, 2
  {
    Owner(disk, before, e.b) == Some(e.pid)
  }

  /** The last edit of b by its owner has not been logged or written. */
  predicate Unsaved(disk: seq<Block>, es: seq<Event>, b: nat)
    decreases |es|, 1
  {
    es != [] &&
    var before, e := es[..|es|-1], es[|es|-1];
    if e.b == b && (e.Edit? || e.LogWrite? || e.Write?) && ByOwner(disk, before, e) then e.Edit?
    else Unsaved(disk, before, b)
  }

  /** The data of the last edit of b by its owner, or what the disk held. */
  function LastEdit(disk: seq<Block>, es: seq<Event>, b: nat): Block
    requires b < |disk|
    decreases |es|
  {
    if es == [] then disk[b]
    else
      var before, e := es[..|es|-1], es[|es|-1];
      if e.Edit? && e.b == b && ByOwner(disk, before, e) then e.data else LastEdit(disk, before, b)
  }

  /** The data of the last edit of b before the last log_write or bwrite of b. */
  function Saved(disk: seq<Block>, es: seq<Event>, b: nat): Block
    requires b < |disk|
    decreases |es|
  {
    if es == [] then disk[b]
    else
      var before, e := es[..|es|-1], es[|es|-1];
      if (e.LogWrite? || e.Write?) && e.b == b && ByOwner(disk, before, e) then LastEdit(disk, before, b)
      else Saved(disk, before, b)
  }

  /** bread returns exactly to a process that waits for a block nobody has locked, with the data
      last saved. */
  function Answer(disk: seq<Block>, before: seq<Event>, e: Event): Option<Block> {
    if e.Finish? && Waits(disk, before, e.pid, e.b) && Owner(disk, before, e.b) == None && e.b < |disk|
    then Some(Saved(disk, before, e.b)) else None
  }

  /** f is what the events say about pid's use of block b. */
  predicate KeyMeans(disk: seq<Block>, es: seq<Event>, f: Flat, pid: nat, b: nat) {
    && (Key(pid, b) in f.leaving <==> Leaves(disk, es, pid, b))
    && (Key(pid, b) in f.asked <==> Waits(disk, es, pid, b) || Leaves(disk, es, pid, b))
    && !(Leaves(disk, es, pid, b) && Waits(disk, es, pid, b))
    && (Key(pid, b) in f.asked ==> b < |disk|)
    && (Owner(disk, es, b) == Some(pid) ==> Waits(disk, es, pid, b))
  }

  /** And about the block itself. */
  predicate BlockMeans(disk: seq<Block>, es: seq<Event>, f: Flat, b: nat) {
    && |f.mem| == |disk|
    && (if b in f.owner then Owner(disk, es, b) == Some(f.owner[b]) && b < |disk| && b in f.draft
        else Owner(disk, es, b) == None)
    && (b in f.edited <==> Unsaved(disk, es, b)) && (b in f.edited ==> b in f.owner)
    && (b < |disk| ==>
          && f.mem[b] == Saved(disk, es, b)
          && (b in f.owner ==> f.draft[b] == LastEdit(disk, es, b))
          && (b !in f.edited ==> f.mem[b] == LastEdit(disk, es, b)))
  }

  ghost predicate Means(disk: seq<Block>, es: seq<Event>, f: Flat, b: nat) {
    BlockMeans(disk, es, f, b) && forall pid: nat :: KeyMeans(disk, es, f, pid, b)
  }

  lemma KeyStep(disk: seq<Block>, es: seq<Event>, f: Flat, pid: nat, b: nat)
    requires es != [] && BlockMeans(disk, es[..|es|-1], f, b) && KeyMeans(disk, es[..|es|-1], f, pid, b)
    ensures KeyMeans(disk, es, FlatStep(f, es[|es|-1]).0, pid, b)
  {}

  lemma BlockStep(disk: seq<Block>, es: seq<Event>, f: Flat, b: nat)
    requires es != [] && BlockMeans(disk, es[..|es|-1], f, b) && KeyMeans(disk, es[..|es|-1], f, es[|es|-1].pid, b)
    ensures BlockMeans(disk, es, FlatStep(f, es[|es|-1]).0, b)
    ensures es[|es|-1].b == b ==> FlatStep(f, es[|es|-1]).1 == Answer(disk, es[..|es|-1], es[|es|-1])
  {
    var before, e := es[..|es|-1], es[|es|-1];
    if b < |disk| {
      assert Saved(disk, es, b) ==
        if (e.LogWrite? || e.Write?) && e.b == b && ByOwner(disk, before, e) then LastEdit(disk, before, b)
        else Saved(disk, before, b);
      assert LastEdit(disk, es, b) ==
        if e.Edit? && e.b == b && ByOwner(disk, before, e) then e.data else LastEdit(disk, before, b);
    }
  }

  lemma MeansStep(disk: seq<Block>, es: seq<Event>, f: Flat, b: nat)
    requires es != [] && Means(disk, es[..|es|-1], f, b)
    ensures Means(disk, es, FlatStep(f, es[|es|-1]).0, b)
    ensures es[|es|-1].b == b ==> FlatStep(f, es[|es|-1]).1 == Answer(disk, es[..|es|-1], es[|es|-1])
  {
    hide BlockMeans, KeyMeans, FlatStep, Answer;
    var before, e := es[..|es|-1], es[|es|-1];
    assert KeyMeans(disk, before, f, e.pid, b);
    BlockStep(disk, es, f, b);
    forall pid: nat
      ensures KeyMeans(disk, es, FlatStep(f, e).0, pid, b)
    {
      assert KeyMeans(disk, before, f, pid, b);
      KeyStep(disk, es, f, pid, b);
    }
  }

  lemma {:induction false} FlatMeaning(disk: seq<Block>, es: seq<Event>, b: nat)
    ensures Means(disk, es, FlatRun(Start(disk), es).0, b)
    decreases |es|
  {
    if es != [] {
      FlatMeaning(disk, es[..|es|-1], b);
      MeansStep(disk, es, FlatRun(Start(disk), es[..|es|-1]).0, b);
    }
  }

  /** Every answer of a run is the one its events call for. */
  lemma {:induction false} FlatAnswers(disk: seq<Block>, es: seq<Event>)
    ensures |FlatRun(Start(disk), es).1| == |es|
    ensures forall i :: 0 <= i < |es| ==> FlatRun(Start(disk), es).1[i] == Answer(disk, es[..i], es[i])
    decreases |es|
  {
    hide Answer, FlatStep, Means;
    if es != [] {
      var before, e := es[..|es|-1], es[|es|-1];
      FlatAnswers(disk, before);
      FlatMeaning(disk, before, e.b);
      MeansStep(disk, es, FlatRun(Start(disk), before).0, e.b);
      forall i | 0 <= i < |before|
        ensures FlatRun(Start(disk), es).1[i] == Answer(disk, es[..i], es[i])
      {
        assert before[..i] == es[..i];
      }
    }
  }

  // ----- what ties the cache to it

  /** A buffer that somebody asked for, holding block b. */
  predicate TiedBuf(buf: Buf, b: nat, f: Flat, touched: bool) {
    && buf.holder == (if b in f.owner then f.owner[b] else 0)
    && (b in f.owner ==> f.owner[b] > 0 && b in f.draft && buf.valid && f.draft[b] == buf.data)
    && (touched <==> b in f.edited)
  }

  predicate SlotOk(bufs: seq<Buf>, claims: map<Claim, nat>, touched: set<int>, slot: map<Key, nat>, f: Flat, k: Key)
    requires k in slot
  {
    && slot[k] < |bufs| && Claim(k.pid, slot[k]) in claims && claims[Claim(k.pid, slot[k])] == k.b
    && Caches(bufs[slot[k]], k.b) && TiedBuf(bufs[slot[k]], k.b, f, slot[k] in touched)
  }

  /** slot remembers the buffer that bget returned. */
  ghost predicate Tied(bufs: seq<Buf>, claims: map<Claim, nat>, touched: set<int>, mem: seq<Block>, slot: map<Key, nat>,
                       f: Flat) {
    && f.mem == mem && slot.Keys == f.asked
    && (forall k :: k in slot ==> SlotOk(bufs, claims, touched, slot, f, k))
    && (forall c :: c in claims ==> Key(c.pid, claims[c]) in slot && slot[Key(c.pid, claims[c])] == c.i)
    && (forall b :: b in f.owner ==> Key(f.owner[b], b) in slot)
    && (forall b :: b in f.edited ==> b in f.owner)
  }

  /** Everything but block b is as before. */
  ghost predicate OnlyBlock(f: Flat, g: Flat, b: nat) {
    && g.asked == f.asked
    && (forall x :: x != b ==>
          && (x in g.owner <==> x in f.owner) && (x in g.draft <==> x in f.draft)
          && (x in g.edited <==> x in f.edited))
    && (forall x :: x != b && x in f.owner ==> g.owner[x] == f.owner[x])
    && (forall x :: x != b && x in f.draft ==> g.draft[x] == f.draft[x])
  }

  lemma SlotsByBlock(bufs: seq<Buf>, claims: map<Claim, nat>, touched: set<int>, slot: map<Key, nat>, f: Flat, k: Key,
                     i: nat, b: nat)
    requires Unique(bufs) && i < |bufs| && Caches(bufs[i], b) && k in slot && SlotOk(bufs, claims, touched, slot, f, k)
    ensures slot[k] == i <==> k.b == b
  {}

  /** A step on the locked buffer of block b. */
  lemma TiedStep(bufs: seq<Buf>, claims: map<Claim, nat>, touched: set<int>, mem: seq<Block>, slot: map<Key, nat>,
                 f: Flat, i: nat, b: nat, buf: Buf, touched': set<int>, g: Flat)
    requires Tied(bufs, claims, touched, mem, slot, f) && Unique(bufs) && i < |bufs| && Caches(bufs[i], b)
    requires Caches(buf, b)
    requires touched' - {i} == touched - {i} && OnlyBlock(f, g, b) && TiedBuf(buf, b, g, i in touched')
    requires b in g.owner ==> Key(g.owner[b], b) in slot
    requires b in g.edited ==> b in g.owner
    ensures Tied(bufs[i := buf], claims, touched', g.mem, slot, g)
  {
    var bufs' := bufs[i := buf];
    forall k | k in slot
      ensures SlotOk(bufs', claims, touched', slot, g, k)
    {
      assert SlotOk(bufs, claims, touched, slot, f, k);
      SlotsByBlock(bufs, claims, touched, slot, f, k, i, b);
      assert k.b != b ==> (slot[k] in touched' - {i} <==> slot[k] in touched - {i});
    }
  }

  /** A new claim on the buffer of block b. */
  lemma TiedAsk(bufs: seq<Buf>, bufs': seq<Buf>, claims: map<Claim, nat>, touched: set<int>, mem: seq<Block>,
                slot: map<Key, nat>, f: Flat, pid: nat, b: nat, i: nat)
    requires Tied(bufs, claims, touched, mem, slot, f) && Key(pid, b) !in slot && i < |bufs| == |bufs'|
    requires bufs' == bufs[i := bufs'[i]] && Caches(bufs'[i], b) && TiedBuf(bufs'[i], b, f, i in touched)
    requires forall k :: k in slot ==>
      slot[k] != i || (Caches(bufs[i], b) && bufs'[i] == bufs[i].(refcnt := bufs'[i].refcnt))
    ensures Tied(bufs', claims[Claim(pid, i) := b], touched, mem, slot[Key(pid, b) := i],
                 f.(asked := f.asked + {Key(pid, b)}))
  {
    var slot', claims', g := slot[Key(pid, b) := i], claims[Claim(pid, i) := b], f.(asked := f.asked + {Key(pid, b)});
    forall k | k in slot'
      ensures SlotOk(bufs', claims', touched, slot', g, k)
    {
      if k != Key(pid, b) {
        assert SlotOk(bufs, claims, touched, slot, f, k);
      }
    }
    forall c | c in claims'
      ensures Key(c.pid, claims'[c]) in slot' && slot'[Key(c.pid, claims'[c])] == c.i
    {
      if c != Claim(pid, i) {
        assert Key(c.pid, claims[c]) in slot;
      }
    }
  }

  /** An asked-for block that nobody holds, or a block nobody asked for, is unlocked. */
  lemma Unheld(bufs: seq<Buf>, disk: seq<Block>, mem: seq<Block>, claims: map<Claim, nat>, touched: set<int>,
               slot: map<Key, nat>, f: Flat, i: nat, b: nat)
    requires Tied(bufs, claims, touched, mem, slot, f) && Counted(bufs, claims) && Unique(bufs)
    requires Coherent(bufs, disk, mem, touched)
    requires i < |bufs| && Caches(bufs[i], b)
    ensures TiedBuf(bufs[i], b, f, i in touched)
  {
    assert Shows(bufs[i], disk, mem, i in touched);
    if bufs[i].holder != 0 {
      var c := Claim(bufs[i].holder, i);
      assert c in claims && claims[c] == b;
      assert SlotOk(bufs, claims, touched, slot, f, Key(c.pid, b));
    } else if b in f.owner {
      var k := Key(f.owner[b], b);
      assert SlotOk(bufs, claims, touched, slot, f, k);
      SlotsByBlock(bufs, claims, touched, slot, f, k, i, b);
    }
  }

  /** The claim and the key go together; the lock is somebody else's or free. */
  lemma TiedDrop(bufs: seq<Buf>, claims: map<Claim, nat>, touched: set<int>, mem: seq<Block>, slot: map<Key, nat>,
                 f: Flat, pid: nat, b: nat, i: nat, n: nat)
    requires Tied(bufs, claims, touched, mem, slot, f) && Unique(bufs)
    requires Key(pid, b) in slot && slot[Key(pid, b)] == i < |bufs| && (b in f.owner ==> f.owner[b] != pid)
    ensures Tied(bufs[i := bufs[i].(refcnt := n)], claims - {Claim(pid, i)}, touched, mem, slot - {Key(pid, b)},
                 f.(asked := f.asked - {Key(pid, b)}, leaving := f.leaving - {Key(pid, b)}))
  {
    var bufs', slot', claims' := bufs[i := bufs[i].(refcnt := n)], slot - {Key(pid, b)}, claims - {Claim(pid, i)};
    var g := f.(asked := f.asked - {Key(pid, b)}, leaving := f.leaving - {Key(pid, b)});
    assert SlotOk(bufs, claims, touched, slot, f, Key(pid, b));
    forall k | k in slot'
      ensures SlotOk(bufs', claims', touched, slot', g, k)
    {
      assert SlotOk(bufs, claims, touched, slot, f, k);
      SlotsByBlock(bufs, claims, touched, slot, f, k, i, b);
    }
    forall c | c in claims'
      ensures Key(c.pid, claims'[c]) in slot' && slot'[Key(c.pid, claims'[c])] == c.i
    {
      assert Key(c.pid, claims[c]) in slot;
    }
    forall x | x in g.owner
      ensures Key(g.owner[x], x) in slot'
    {
      assert Key(f.owner[x], x) in slot;
    }
  }

  /** What the invariants say about the buffer that pid was given for block b. */
  lemma KeyFacts(c: Bcache, slot: map<Key, nat>, f: Flat, pid: nat, b: nat)
    requires c.Valid() && Tied(c.bufs, c.claims, c.touched, c.mem, slot, f)
    ensures c.mem == f.mem && |c.disk| == |f.mem| && |c.bufs| == NBUF
    ensures Key(pid, b) in slot <==> Key(pid, b) in f.asked
    ensures Key(pid, b) in slot ==>
      && slot[Key(pid, b)] < NBUF && pid > 0 && b < |f.mem|
      && Claim(pid, slot[Key(pid, b)]) in c.claims && c.claims[Claim(pid, slot[Key(pid, b)])] == b
      && Caches(c.bufs[slot[Key(pid, b)]], b)
      && TiedBuf(c.bufs[slot[Key(pid, b)]], b, f, slot[Key(pid, b)] in c.touched)
    ensures Owns(f, pid, b) <==> Key(pid, b) in slot && c.bufs[slot[Key(pid, b)]].holder == pid
  {
    hide Ring, Recency, Unique;
    var k := Key(pid, b);
    assert |c.disk| == |c.mem|;
    if k in slot {
      assert SlotOk(c.bufs, c.claims, c.touched, slot, f, k);
      assert Shows(c.bufs[slot[k]], c.disk, c.mem, slot[k] in c.touched);
    }
    if b in f.owner && f.owner[b] == pid {
      assert Key(f.owner[b], b) in slot;
    }
  }

  lemma NoClaim(bufs: seq<Buf>, claims: map<Claim, nat>, touched: set<int>, mem: seq<Block>, slot: map<Key, nat>,
                f: Flat, pid: nat, b: nat)
    requires Tied(bufs, claims, touched, mem, slot, f) && Key(pid, b) !in slot
    ensures forall x :: x in claims && x.pid == pid ==> claims[x] != b
  {}

  lemma LeavingFacts(f: Flat, pid: nat, b: nat)
    requires Leaving(f) && Key(pid, b) in f.leaving
    ensures Key(pid, b) in f.asked && (b in f.owner ==> f.owner[b] != pid)
  {}

  /** The two outcomes of bget that give a buffer. */
  lemma Asked(bufs0: seq<Buf>, claims0: map<Claim, nat>, c: Bcache, slot: map<Key, nat>, f: Flat, pid: nat, b: nat,
              r: GetResult)
    requires !r.NoBuffers? && r.i < NBUF && |bufs0| == NBUF && Counted(bufs0, claims0) && Unique(bufs0)
    requires Coherent(bufs0, c.disk, c.mem, c.touched)
    requires Tied(bufs0, claims0, c.touched, c.mem, slot, f) && Key(pid, b) !in slot
    requires c.Valid()
    requires r.Hit? ==> Caches(bufs0[r.i], b) && c.bufs == bufs0[r.i := bufs0[r.i].(refcnt := bufs0[r.i].refcnt + 1)]
    requires r.Recycled? ==>
      && !Cached(bufs0, b) && !Pinned(bufs0[r.i])
      && c.bufs == bufs0[r.i := Buf(ROOTDEV, b, false, false, 1, 0, bufs0[r.i].data)]
    ensures Tied(c.bufs, claims0[Claim(pid, r.i) := b], c.touched, c.mem, slot[Key(pid, b) := r.i],
                 f.(asked := f.asked + {Key(pid, b)}))
  {
    hide Ring, Recency;
    if r.Hit? {
      Unheld(bufs0, c.disk, c.mem, claims0, c.touched, slot, f, r.i, b);
    } else {
      assert Shows(c.bufs[r.i], c.disk, c.mem, r.i in c.touched);
      forall k | k in slot
        ensures slot[k] != r.i && k.b != b
      {
        assert SlotOk(bufs0, claims0, c.touched, slot, f, k);
        assert Claim(k.pid, slot[k]) in Claimants(claims0, slot[k]);
      }
      assert b !in f.owner;
    }
    hide Counted, Unique, Coherent;
    TiedAsk(bufs0, c.bufs, claims0, c.touched, c.mem, slot, f, pid, b, r.i);
  }

  /** The processes that use the cache, with the buffer pointers they hold. */
  class Clients {
    const c: Bcache
    var slot: map<Key, nat>
    var leaving: set<Key>
    var edited: set<nat>
    ghost var flat: Flat

    ghost predicate Valid()
      reads this, c
    {
      c.Valid() && Tied(c.bufs, c.claims, c.touched, c.mem, slot, flat) && Leaving(flat)
      && leaving == flat.leaving && edited == flat.edited
    }

    constructor (disk: seq<Block>)
      ensures Valid() && fresh(c) && flat == Start(disk)
    {
      c := new Bcache(disk);
      slot, leaving, edited, flat := map[], {}, {}, Start(disk);
    }

    /** False is the panic of bget, with every buffer in use or dirty. */
    method AskFor(pid: nat, b: nat) returns (ok: bool)
      requires Valid()
      modifies this, c
      ensures Valid()
      ensures ok ==> FlatStep(old(flat), Ask(pid, b)) == (flat, None)
      ensures !ok ==> flat == old(flat) && |c.bufs| == NBUF && forall i :: 0 <= i < NBUF ==> Pinned(c.bufs[i])
    {
      hide Ring, Complete, Recency, Counted, Coherent, Unique, Tied, Leaving;
      KeyFacts(c, slot, flat, pid, b);
      ok := true;
      if pid > 0 && b < |c.disk| && Key(pid, b) !in slot {
        NoClaim(c.bufs, c.claims, c.touched, c.mem, slot, flat, pid, b);
        ghost var bufs0, claims0 := c.bufs, c.claims;
        var r := c.Bget(pid, b);
        if r.NoBuffers? {
          return false;
        }
        Asked(bufs0, claims0, c, slot, flat, pid, b, r);
        LeavingStep(flat, Ask(pid, b));
        slot := slot[Key(pid, b) := r.i];
        flat := flat.(asked := flat.asked + {Key(pid, b)});
      }
    }

    method FinishRead(pid: nat, b: nat) returns (out: Option<Block>)
      requires Valid()
      modifies this, c
      ensures Valid() && FlatStep(old(flat), Finish(pid, b)) == (flat, out)
    {
      hide Ring, Complete, Recency, Counted, Coherent, Unique, Tied, Leaving;
      KeyFacts(c, slot, flat, pid, b);
      out := None;
      if Key(pid, b) in slot && Key(pid, b) !in leaving {
        var i := slot[Key(pid, b)];
        if c.bufs[i].holder == 0 {
          LeavingStep(flat, Finish(pid, b));
          ghost var g := FlatStep(flat, Finish(pid, b)).0;
          TiedStep(c.bufs, c.claims, c.touched, c.mem, slot, flat, i, b,
                   c.bufs[i].(holder := pid, valid := true, data := c.mem[b]), c.touched, g);
          c.FinishBread(pid, i);
          flat := g;
          out := Some(c.bufs[i].data);
        }
      }
    }

    method EditBlock(pid: nat, b: nat, data: Block)
      requires Valid()
      modifies this, c
      ensures Valid() && FlatStep(old(flat), Edit(pid, b, data)) == (flat, None)
    {
      hide Ring, Complete, Recency, Counted, Coherent, Unique, Tied, Leaving;
      KeyFacts(c, slot, flat, pid, b);
      if Key(pid, b) in slot {
        var i := slot[Key(pid, b)];
        if c.bufs[i].holder == pid {
          LeavingStep(flat, Edit(pid, b, data));
          ghost var g := FlatStep(flat, Edit(pid, b, data)).0;
          TiedStep(c.bufs, c.claims, c.touched, c.mem, slot, flat, i, b, c.bufs[i].(data := data), c.touched + {i}, g);
          c.Modify(pid, i, data);
          flat, edited := g, edited + {b};
        }
      }
    }

    /** log_write if log, else bwrite. */
    method StoreBlock(pid: nat, b: nat, log: bool)
      requires Valid()
      modifies this, c
      ensures Valid() && FlatStep(old(flat), if log then LogWrite(pid, b) else Write(pid, b)) == (flat, None)
    {
      hide Ring, Complete, Recency, Counted, Coherent, Unique, Tied, Leaving;
      KeyFacts(c, slot, flat, pid, b);
      if Key(pid, b) in slot {
        var i := slot[Key(pid, b)];
        if c.bufs[i].holder == pid {
          LeavingStep(flat, LogWrite(pid, b));
          ghost var g := FlatStep(flat, LogWrite(pid, b)).0;
          TiedStep(c.bufs, c.claims, c.touched, c.mem, slot, flat, i, b, c.bufs[i].(dirty := log), c.touched - {i}, g);
          if log {
            c.LogWrite(pid, i);
          } else {
            var ok := c.Bwrite(pid, i);
          }
          flat, edited := g, edited - {b};
        }
      }
    }

    method UnlockBlock(pid: nat, b: nat)
      requires Valid()
      modifies this, c
      ensures Valid() && FlatStep(old(flat), Unlock(pid, b)) == (flat, None)
    {
      hide Ring, Complete, Recency, Counted, Coherent, Unique, Tied, Leaving;
      KeyFacts(c, slot, flat, pid, b);
      if Key(pid, b) in slot && b !in edited {
        var i := slot[Key(pid, b)];
        if c.bufs[i].holder == pid {
          LeavingStep(flat, Unlock(pid, b));
          ghost var g := FlatStep(flat, Unlock(pid, b)).0;
          TiedStep(c.bufs, c.claims, c.touched, c.mem, slot, flat, i, b, c.bufs[i].(holder := 0), c.touched, g);
          var ok := c.Unlock(pid, i);
          flat, leaving := g, leaving + {Key(pid, b)};
        }
      }
    }

    method DropBlock(pid: nat, b: nat)
      requires Valid()
      modifies this, c
      ensures Valid() && FlatStep(old(flat), Drop(pid, b)) == (flat, None)
    {
      hide Ring, Complete, Recency, Counted, Coherent, Unique, Tied, Leaving;
      KeyFacts(c, slot, flat, pid, b);
      if Key(pid, b) in leaving {
        LeavingFacts(flat, pid, b);
        LeavingStep(flat, Drop(pid, b));
        var i := slot[Key(pid, b)];
        TiedDrop(c.bufs, c.claims, c.touched, c.mem, slot, flat, pid, b, i,
                 if c.bufs[i].refcnt > 0 then c.bufs[i].refcnt - 1 else 0);
        c.Drop(pid, i);
        flat := FlatStep(flat, Drop(pid, b)).0;
        slot, leaving := slot - {Key(pid, b)}, leaving - {Key(pid, b)};
      }
    }

    method Step(e: Event) returns (out: Option<Block>, ok: bool)
      requires Valid()
      modifies this, c
      ensures Valid()
      ensures ok ==> FlatStep(old(flat), e) == (flat, out)
      ensures !ok ==> flat == old(flat) && e.Ask? && |c.bufs| == NBUF && forall i :: 0 <= i < NBUF ==> Pinned(c.bufs[i])
    {
      hide Tied, FlatStep, Leaving;
      out, ok := None, true;
      match e
      case Ask(pid, b) => ok := AskFor(pid, b);
      case Finish(pid, b) => out := FinishRead(pid, b);
      case Edit(pid, b, data) => EditBlock(pid, b, data);
      case LogWrite(pid, b) => StoreBlock(pid, b, true);
      case Write(pid, b) => StoreBlock(pid, b, false);
      case Unlock(pid, b) => UnlockBlock(pid, b);
      case Drop(pid, b) => DropBlock(pid, b);
    }

    /** The cache is invisible: over every run, every bread returns what a plain array of blocks
        would give, until bget finds every buffer in use or dirty. From a new cache on, that is the
        data last logged or written, and bread returns exactly when its block is free. */
    method Run(es: seq<Event>) returns (outs: seq<Option<Block>>, ok: bool)
      requires Valid()
      modifies this, c
      ensures Valid() && |outs| <= |es| && (ok <==> |outs| == |es|)
      ensures FlatRun(old(flat), es[..|outs|]) == (flat, outs)
      ensures !ok ==> es[|outs|].Ask? && |c.bufs| == NBUF && forall i :: 0 <= i < NBUF ==> Pinned(c.bufs[i])
      ensures old(flat) == Start(old(flat).mem) ==>
        forall i :: 0 <= i < |outs| ==> outs[i] == Answer(old(flat).mem, es[..i], es[i])
    {
      hide Tied, FlatStep, Leaving, Answer;
      outs, ok := [], true;
      while |outs| < |es|
        invariant |outs| <= |es| && Valid() && ok && FlatRun(old(flat), es[..|outs|]) == (flat, outs)
        decreases |es| - |outs|
      {
        var k := |outs|;
        var out;
        out, ok := Step(es[k]);
        if !ok {
          Answered(old(flat), es, outs);
          return;
        }
        RunSnoc(old(flat), es, k);
        outs := outs + [out];
      }
      Answered(old(flat), es, outs);
    }
  }

  lemma Answered(f: Flat, es: seq<Event>, outs: seq<Option<Block>>)
    requires |outs| <= |es| && FlatRun(f, es[..|outs|]).1 == outs
    ensures f == Start(f.mem) ==> forall i :: 0 <= i < |outs| ==> outs[i] == Answer(f.mem, es[..i], es[i])
  {
    hide Answer, FlatRun;
    if f == Start(f.mem) {
      var done := es[..|outs|];
      FlatAnswers(f.mem, done);
      forall i | 0 <= i < |outs|
        ensures outs[i] == Answer(f.mem, es[..i], es[i])
      {
        assert done[..i] == es[..i];
      }
    }
  }
}
