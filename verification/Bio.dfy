/** The buffer cache (bio.c) over the in-memory disk of memide.c. Buffers are the indices below
    NBUF of the array bcache.buf, and index HEAD is the list head. The class's methods are the
    atomic steps of bget, bread, bwrite and brelse between lock operations (Unlock and Drop are the
    two of brelse); any number of processes may interleave them. */
module Bio {
  import opened Common

  const NBUF := MAXOPBLOCKS * 3
  const HEAD := NBUF
  const ROOTDEV := 1

  datatype Block = Block(bytes: seq<int>)

  /** struct buf without its links. dev is 0 until the buffer is first assigned; holder is the
      pid in the sleep lock, or 0. */
  datatype Buf = Buf(dev: nat, blockno: nat, valid: bool, dirty: bool, refcnt: nat, holder: nat, data: Block)

  // ----- the list

  /** Element k of the ring: the head at both ends, the buffers in between. */
  function At(order: seq<int>, k: int): int {
    if 0 <= k < |order| then order[k] else HEAD
  }

  predicate Indices(order: seq<int>) {
    && (forall k :: 0 <= k < |order| ==> 0 <= order[k] < NBUF)
    && (forall j, k :: 0 <= j < k < |order| ==> order[j] != order[k])
  }

  /** next and prev form one two-way ring: the head, then order, then the head again. */
  predicate Ring(next: seq<int>, prev: seq<int>, order: seq<int>) {
    && |next| == |prev| == NBUF + 1
    && Indices(order)
    && (forall k :: -1 <= k < |order| ==> Joined(next, prev, order, k))
  }

  predicate Joined(next: seq<int>, prev: seq<int>, order: seq<int>, k: int)
    requires |next| == |prev| == NBUF + 1 && Indices(order) && -1 <= k < |order|
  {
    next[At(order, k)] == At(order, k + 1) && prev[At(order, k + 1)] == At(order, k)
  }

  function Without(order: seq<int>, k: nat): (r: seq<int>)
    requires k < |order|
    ensures |r| == |order| - 1
  {
    seq(|order| - 1, i requires 0 <= i < |order| - 1 => if i < k then order[i] else order[i+1])
  }

  /** b->next->prev = b->prev; b->prev->next = b->next. */
  lemma Unlink(next: seq<int>, prev: seq<int>, order: seq<int>, k: nat)
    requires Ring(next, prev, order) && k < |order|
    ensures 0 <= order[k] < NBUF && 0 <= next[order[k]] <= NBUF && 0 <= prev[order[k]] <= NBUF
    ensures Ring(next[prev[order[k]] := next[order[k]]], prev[next[order[k]] := prev[order[k]]], Without(order, k))
    ensures order[k] !in Without(order, k)
  {
    var b, r := order[k], Without(order, k);
    assert Joined(next, prev, order, k) && Joined(next, prev, order, k - 1);
    var next', prev' := next[prev[b] := next[b]], prev[next[b] := prev[b]];
    forall i | -1 <= i < |r|
      ensures Joined(next', prev', r, i)
    {
      UnlinkAt(next, prev, order, k, i);
    }
  }

  lemma UnlinkAt(next: seq<int>, prev: seq<int>, order: seq<int>, k: nat, i: int)
    requires Ring(next, prev, order) && k < |order| && -1 <= i < |order| - 1
    requires 0 <= next[order[k]] <= NBUF && 0 <= prev[order[k]] <= NBUF
    ensures Indices(Without(order, k))
    ensures Joined(next[prev[order[k]] := next[order[k]]], prev[next[order[k]] := prev[order[k]]], Without(order, k), i)
  {
    assert Joined(next, prev, order, k) && Joined(next, prev, order, k - 1);
    assert Joined(next, prev, order, i) && Joined(next, prev, order, i + 1);
  }

  /** b->next = head.next; b->prev = &head; head.next->prev = b; head.next = b. */
  lemma PushFront(next: seq<int>, prev: seq<int>, order: seq<int>, b: int)
    requires Ring(next, prev, order) && 0 <= b < NBUF && b !in order
    ensures 0 <= next[HEAD] <= NBUF
    ensures Ring(next[b := next[HEAD]][HEAD := b], prev[b := HEAD][next[HEAD] := b], [b] + order)
  {
    assert Joined(next, prev, order, -1);
    var r := [b] + order;
    var next', prev' := next[b := next[HEAD]][HEAD := b], prev[b := HEAD][next[HEAD] := b];
    assert forall i :: 0 < i < |r| ==> r[i] == order[i-1];
    forall i | -1 <= i < |r|
      ensures Joined(next', prev', r, i)
    {
      PushAt(next, prev, order, b, i);
    }
  }

  lemma PushAt(next: seq<int>, prev: seq<int>, order: seq<int>, b: int, i: int)
    requires Ring(next, prev, order) && 0 <= b < NBUF && b !in order && -1 <= i <= |order|
    requires 0 <= next[HEAD] <= NBUF
    ensures Indices([b] + order)
    ensures Joined(next[b := next[HEAD]][HEAD := b], prev[b := HEAD][next[HEAD] := b], [b] + order, i)
  {
    var r := [b] + order;
    assert forall k :: 0 < k < |r| ==> r[k] == order[k-1];
    assert At(r, i) == if i == -1 then HEAD else if i == 0 then b else At(order, i - 1);
    assert At(r, i + 1) == if i == -1 then b else At(order, i);
    assert Joined(next, prev, order, -1);
    if i > 0 {
      assert Joined(next, prev, order, i - 1);
    }
  }

  // ----- references

  /** Process pid has called bget for buffer i and not yet brelse. */
  datatype Claim = Claim(pid: nat, i: nat)

  function Claimants(claims: map<Claim, nat>, i: nat): set<Claim> {
    set c | c in claims && c.i == i
  }

  /** refcnt counts the claims; a claimed buffer stays on the block it was claimed for; the
      holder of a buffer's lock has a claim on it. */
  ghost predicate Counted(bufs: seq<Buf>, claims: map<Claim, nat>) {
    && |bufs| == NBUF
    && (forall c :: c in claims ==>
          c.pid > 0 && c.i < NBUF && bufs[c.i].dev == ROOTDEV && bufs[c.i].blockno == claims[c])
    && (forall i :: 0 <= i < NBUF ==> bufs[i].refcnt == |Claimants(claims, i)|)
    && (forall i :: 0 <= i < NBUF && bufs[i].holder != 0 ==> Claim(bufs[i].holder, i) in claims)
  }

  lemma ClaimAdded(claims: map<Claim, nat>, c: Claim, block: nat)
    requires c !in claims
    ensures forall i: nat :: |Claimants(claims[c := block], i)| == |Claimants(claims, i)| + if i == c.i then 1 else 0
  {
    forall i: nat
      ensures |Claimants(claims[c := block], i)| == |Claimants(claims, i)| + if i == c.i then 1 else 0
    {
      assert Claimants(claims[c := block], i) == Claimants(claims, i) + if i == c.i then {c} else {};
    }
  }

  lemma ClaimRemoved(claims: map<Claim, nat>, c: Claim)
    requires c in claims
    ensures forall i: nat :: |Claimants(claims - {c}, i)| == |Claimants(claims, i)| - if i == c.i then 1 else 0
  {
    forall i: nat
      ensures |Claimants(claims - {c}, i)| == |Claimants(claims, i)| - if i == c.i then 1 else 0
    {
      assert c in Claimants(claims, c.i);
      assert Claimants(claims - {c}, i) == Claimants(claims, i) - {c};
    }
  }

  // ----- contents

  /** Each assigned block has one buffer. */
  predicate Unique(bufs: seq<Buf>) {
    forall i, j :: 0 <= i < j < |bufs| && bufs[i].dev == ROOTDEV && bufs[j].dev == ROOTDEV ==>
      bufs[i].blockno != bufs[j].blockno
  }

  predicate Caches(buf: Buf, b: nat) {
    buf.dev == ROOTDEV && buf.blockno == b
  }

  predicate Cached(bufs: seq<Buf>, b: nat) {
    exists i :: 0 <= i < |bufs| && Caches(bufs[i], b)
  }

  /** mem holds, for every block, the contents last passed to log_write or bwrite. A valid buffer
      shows them unless its holder is changing it (touched); the disk has them unless the block's
      buffer is dirty. */
  predicate Coherent(bufs: seq<Buf>, disk: seq<Block>, mem: seq<Block>, touched: set<int>) {
    && |disk| == |mem|
    && (forall i :: 0 <= i < |bufs| ==> Shows(bufs[i], disk, mem, i in touched))
    && (forall b :: 0 <= b < |disk| && !Cached(bufs, b) ==> disk[b] == mem[b])
    && (forall i :: i in touched ==> 0 <= i < |bufs|)
  }

  predicate Shows(buf: Buf, disk: seq<Block>, mem: seq<Block>, touched: bool)
    requires |disk| == |mem|
  {
    && (buf.dev == ROOTDEV ==>
          && buf.blockno < |disk|
          && (buf.valid && !touched ==> buf.data == mem[buf.blockno])
          && (!buf.dirty ==> disk[buf.blockno] == mem[buf.blockno]))
    && (buf.dirty ==> buf.dev == ROOTDEV && buf.valid)
    && (touched ==> buf.dev == ROOTDEV && buf.valid && buf.holder != 0)
  }

  // ----- recency

  /** The list holds every buffer. */
  predicate Complete(order: seq<int>) {
    forall i :: 0 <= i < NBUF ==> i in order
  }

  lemma CompleteFront(order: seq<int>, k: nat)
    requires Complete(order) && k < |order|
    ensures Complete([order[k]] + Without(order, k))
  {
    var r := [order[k]] + Without(order, k);
    forall i | 0 <= i < NBUF
      ensures i in r
    {
      assert i in order;
      var j :| 0 <= j < |order| && order[j] == i;
      assert r[if j < k then j + 1 else if j == k then 0 else j] == i;
    }
  }

  /** The list runs from the most to the least recently released buffer. */
  predicate Recency(order: seq<int>, stamps: seq<nat>, clock: nat) {
    && |stamps| == NBUF && |order| == NBUF && Indices(order)
    && (forall i :: 0 <= i < NBUF ==> stamps[i] < clock)
    && (forall j, k :: 0 <= j < k < NBUF ==> stamps[order[j]] > stamps[order[k]])
  }

  lemma RecencyFront(order: seq<int>, stamps: seq<nat>, clock: nat, k: nat)
    requires Recency(order, stamps, clock) && k < |order|
    ensures Recency([order[k]] + Without(order, k), stamps[order[k] := clock], clock + 1)
  {
    var b, n := order[k], NBUF;
    var r, stamps' := [b] + Without(order, k), stamps[b := clock];
    forall i, j | 0 <= i < j < n
      ensures r[i] != r[j] && 0 <= r[j] < n && 0 <= r[i] < n && stamps'[r[i]] > stamps'[r[j]]
    {
      var i', j' := if i - 1 < k then i - 1 else i, if j - 1 < k then j - 1 else j;
      assert r[j] == order[j'] && j' != k;
      assert i > 0 ==> r[i] == order[i'] && i' != k && i' < j';
    }
  }

  predicate Pinned(b: Buf) {
    b.refcnt != 0 || b.dirty
  }

  // ----- the steps on values

  /** bget hit: one more claim. */
  lemma HitCounted(bufs: seq<Buf>, claims: map<Claim, nat>, c: Claim)
    requires Counted(bufs, claims) && c !in claims && c.pid > 0 && c.i < NBUF && bufs[c.i].dev == ROOTDEV
    ensures Counted(bufs[c.i := bufs[c.i].(refcnt := bufs[c.i].refcnt + 1)], claims[c := bufs[c.i].blockno])
  {
    ClaimAdded(claims, c, bufs[c.i].blockno);
  }

  /** bget miss: an unpinned buffer moves to block b. */
  lemma RecycleCounted(bufs: seq<Buf>, claims: map<Claim, nat>, c: Claim, buf: Buf)
    requires Counted(bufs, claims) && c.pid > 0 && c.i < NBUF && bufs[c.i].refcnt == 0
    requires buf.dev == ROOTDEV && buf.refcnt == 1 && buf.holder == bufs[c.i].holder
    ensures c !in claims && bufs[c.i].holder == 0
    ensures Counted(bufs[c.i := buf], claims[c := buf.blockno])
  {
    assert Claimants(claims, c.i) == {};
    forall d | d in claims
      ensures d.i != c.i
    {
      assert d !in Claimants(claims, c.i);
    }
    ClaimAdded(claims, c, buf.blockno);
  }

  lemma RecycleCoherent(bufs: seq<Buf>, disk: seq<Block>, mem: seq<Block>, touched: set<int>, v: nat, buf: Buf)
    requires Coherent(bufs, disk, mem, touched) && Unique(bufs) && v < |bufs|
    requires !bufs[v].dirty && bufs[v].holder == 0
    requires buf.dev == ROOTDEV && buf.blockno < |disk| && !Cached(bufs, buf.blockno)
    requires !buf.valid && !buf.dirty
    ensures Unique(bufs[v := buf]) && Coherent(bufs[v := buf], disk, mem, touched)
  {
    var bufs' := bufs[v := buf];
    assert v !in touched;
    forall i | 0 <= i < |bufs| && i != v
      ensures !Caches(bufs[i], buf.blockno)
    {}
    forall b | 0 <= b < |disk|
      ensures Cached(bufs, b) ==> Cached(bufs', b) || Caches(bufs[v], b)
    {
      if Cached(bufs, b) {
        var i :| 0 <= i < |bufs| && Caches(bufs[i], b);
        assert i != v ==> Caches(bufs'[i], b);
      }
    }
  }

  lemma StillCached(bufs: seq<Buf>, bufs': seq<Buf>)
    requires |bufs'| == |bufs|
    requires forall i :: 0 <= i < |bufs| ==> bufs'[i].dev == bufs[i].dev && bufs'[i].blockno == bufs[i].blockno
    ensures forall b :: Cached(bufs, b) ==> Cached(bufs', b)
  {
    forall b | Cached(bufs, b)
      ensures Cached(bufs', b)
    {
      var i :| 0 <= i < |bufs| && Caches(bufs[i], b);
      assert Caches(bufs'[i], b);
    }
  }

  /** A change to buffer i that keeps its block. */
  lemma SameBlock(bufs: seq<Buf>, disk: seq<Block>, mem: seq<Block>, touched: set<int>, i: nat, buf: Buf,
                  touched': set<int>)
    requires Coherent(bufs, disk, mem, touched) && Unique(bufs) && i < |bufs|
    requires buf.dev == bufs[i].dev && buf.blockno == bufs[i].blockno
    requires touched' - {i} == touched - {i} && Shows(buf, disk, mem, i in touched')
    ensures Unique(bufs[i := buf]) && Coherent(bufs[i := buf], disk, mem, touched')
  {
    var bufs' := bufs[i := buf];
    StillCached(bufs, bufs');
    forall j | 0 <= j < |bufs|
      ensures Shows(bufs'[j], disk, mem, j in touched')
    {
      assert j != i ==> (j in touched' <==> j in touched - {i});
    }
    forall j | j in touched'
      ensures 0 <= j < |bufs|
    {
      assert j == i || j in touched' - {i};
    }
  }

  /** log_write or bwrite of buffer i: its contents become those of the block. */
  lemma WriteCoherent(bufs: seq<Buf>, disk: seq<Block>, mem: seq<Block>, touched: set<int>, i: nat, buf: Buf,
                      disk': seq<Block>)
    requires Coherent(bufs, disk, mem, touched) && Unique(bufs) && i < |bufs|
    requires bufs[i].dev == ROOTDEV && bufs[i].valid
    requires buf == bufs[i].(dirty := buf.dirty)
    requires disk' == if buf.dirty then disk else disk[buf.blockno := buf.data]
    ensures Unique(bufs[i := buf])
    ensures Coherent(bufs[i := buf], disk', mem[buf.blockno := buf.data], touched - {i})
  {
    var bufs' := bufs[i := buf];
    assert Shows(bufs[i], disk, mem, i in touched);
    forall j | 0 <= j < |bufs'|
      ensures Shows(bufs'[j], disk', mem[buf.blockno := buf.data], j in touched - {i})
    {
      assert j != i && bufs[j].dev == ROOTDEV ==> bufs[j].blockno != buf.blockno;
    }
    StillCached(bufs, bufs');
    assert Caches(bufs'[i], buf.blockno);
  }

  // ----- the cache

  function Unassigned(): seq<Buf> {
    seq(NBUF, _ => Buf(0, 0, false, false, 0, 0, Block([])))
  }

  function Descending(n: nat): seq<int> {
    seq(n, i requires 0 <= i < n => n - 1 - i)
  }

  lemma EmptyRing()
    ensures Ring(seq(NBUF + 1, _ => HEAD), seq(NBUF + 1, _ => HEAD), [])
  {}

  lemma InitialList()
    ensures Complete(Descending(NBUF)) && Recency(Descending(NBUF), seq(NBUF, i => i), NBUF)
  {
    forall i | 0 <= i < NBUF
      ensures i in Descending(NBUF)
    {
      assert Descending(NBUF)[NBUF - 1 - i] == i;
    }
  }

  lemma InitialBufs(disk: seq<Block>)
    ensures Counted(Unassigned(), map[]) && Unique(Unassigned()) && Coherent(Unassigned(), disk, disk, {})
  {
    forall i | 0 <= i < NBUF
      ensures |Claimants(map[], i)| == 0
    {
      assert Claimants(map[], i) == {};
    }
  }

  datatype GetResult = Hit(i: nat) | Recycled(i: nat) | NoBuffers

  class Bcache {
    var bufs: seq<Buf>
    var next: seq<int>
    var prev: seq<int>
    var disk: seq<Block>
    ghost var order: seq<int>            // the list, most recently used first
    ghost var claims: map<Claim, nat>    // who asked for which block and has not let go
    ghost var mem: seq<Block>            // what every block should read as
    ghost var touched: set<int>          // buffers changed since their last log_write or bwrite
    ghost var stamps: seq<nat>           // when each buffer's count last fell to 0
    ghost var clock: nat

    ghost predicate Valid()
      reads this
    {
      && Ring(next, prev, order) && Complete(order) && Recency(order, stamps, clock)
      && Counted(bufs, claims) && Unique(bufs)
      && Coherent(bufs, disk, mem, touched)
    }

    /** binit: every buffer on the list and assigned to nothing. */
    constructor (disk: seq<Block>)
      ensures Valid() && this.disk == disk && mem == disk && claims == map[] && touched == {}
      ensures forall i :: 0 <= i < NBUF ==> bufs[i].dev == 0 && bufs[i].refcnt == 0
    {
      hide Ring, Counted, Coherent, Recency, Complete, Unique;
      this.disk, mem := disk, disk;
      bufs := Unassigned();
      claims, touched := map[], {};
      stamps, clock := seq(NBUF, i => i), NBUF;
      order := [];
      next := seq(NBUF + 1, _ => HEAD);
      prev := seq(NBUF + 1, _ => HEAD);
      new;
      EmptyRing();
      var b := 0;
      while b < NBUF
        invariant 0 <= b <= NBUF
        invariant Ring(next, prev, order) && order == Descending(b) && |next| == |prev| == NBUF + 1
        invariant this.disk == mem == disk && claims == map[] && touched == {}
        invariant bufs == Unassigned() && stamps == seq(NBUF, i => i) && clock == NBUF
      {
        PushFront(next, prev, order, b);
        next := next[b := next[HEAD]];
        prev := prev[b := HEAD];
        prev := prev[next[HEAD] := b];
        next := next[HEAD := b];
        order := [b] + order;
        b := b + 1;
      }
      InitialList();
      InitialBufs(disk);
    }

    /** The part of bget under bcache.lock: find block b, or recycle the least recently used
        buffer that nobody uses and that is not dirty. */
    method Bget(pid: nat, b: nat) returns (r: GetResult)
      requires Valid() && pid > 0 && b < |disk|
      requires forall c :: c in claims && c.pid == pid ==> claims[c] != b
      modifies `bufs, `claims
      ensures Valid()
      ensures r.Hit? <==> Cached(old(bufs), b)
      ensures r.NoBuffers? <==> !Cached(old(bufs), b) && forall i :: 0 <= i < NBUF ==> Pinned(old(bufs)[i])
      ensures r.NoBuffers? ==> bufs == old(bufs) && claims == old(claims)
      ensures r.Hit? ==>
        && r.i < NBUF && Caches(old(bufs)[r.i], b)
        && bufs == old(bufs)[r.i := old(bufs)[r.i].(refcnt := old(bufs)[r.i].refcnt + 1)]
      ensures r.Recycled? ==>
        && r.i < NBUF && !Pinned(old(bufs)[r.i])
        && (forall i :: 0 <= i < NBUF && !Pinned(old(bufs)[i]) ==> stamps[r.i] <= stamps[i])
        && bufs == old(bufs)[r.i := Buf(ROOTDEV, b, false, false, 1, 0, old(bufs)[r.i].data)]
      ensures !r.NoBuffers? ==> Claim(pid, r.i) !in old(claims) && claims == old(claims)[Claim(pid, r.i) := b]
    {
      hide Counted, Coherent, Recency, Unique;
      Sizes(bufs, claims);
      var i := Lookup(b);
      if i != HEAD {
        FreshClaim(bufs, claims, Claim(pid, i), b);
        ShowsAt(bufs, disk, mem, touched, i);
        HitCounted(bufs, claims, Claim(pid, i));
        SameBlock(bufs, disk, mem, touched, i, bufs[i].(refcnt := bufs[i].refcnt + 1), touched);
        bufs := bufs[i := bufs[i].(refcnt := bufs[i].refcnt + 1)];
        claims := claims[Claim(pid, i) := b];
        return Hit(i);
      }
      i := Victim();
      if i == HEAD {
        return NoBuffers;
      }
      var buf := Buf(ROOTDEV, b, false, false, 1, bufs[i].holder, bufs[i].data);
      RecycleCounted(bufs, claims, Claim(pid, i), buf);
      RecycleCoherent(bufs, disk, mem, touched, i, buf);
      bufs := bufs[i := buf];
      claims := claims[Claim(pid, i) := b];
      return Recycled(i);
    }

    /** The first loop of bget, head to tail. */
    method Lookup(b: nat) returns (i: int)
      requires Ring(next, prev, order) && Complete(order) && |bufs| == NBUF
      ensures 0 <= i <= HEAD
      ensures if i == HEAD then !Cached(bufs, b) else Caches(bufs[i], b)
    {
      i := next[HEAD];
      ghost var k := 0;
      assert Joined(next, prev, order, -1);
      while i != HEAD
        invariant 0 <= k <= |order| && i == At(order, k)
        invariant forall j :: 0 <= j < k ==> !Caches(bufs[order[j]], b)
        decreases |order| - k
      {
        if bufs[i].dev == ROOTDEV && bufs[i].blockno == b {
          return;
        }
        assert Joined(next, prev, order, k);
        i := next[i];
        k := k + 1;
      }
      forall j | 0 <= j < NBUF
        ensures !Caches(bufs[j], b)
      {
        assert j in order;
        var m :| 0 <= m < |order| && order[m] == j;
      }
    }

    /** The second loop of bget, tail to head. */
    method Victim() returns (i: int)
      requires Ring(next, prev, order) && Complete(order) && Recency(order, stamps, clock) && |bufs| == NBUF
      ensures 0 <= i <= HEAD
      ensures if i == HEAD then forall j :: 0 <= j < NBUF ==> Pinned(bufs[j])
        else !Pinned(bufs[i]) && forall j :: 0 <= j < NBUF && !Pinned(bufs[j]) ==> stamps[i] <= stamps[j]
    {
      i := prev[HEAD];
      ghost var k := |order| - 1;
      assert Joined(next, prev, order, |order| - 1);
      while i != HEAD
        invariant -1 <= k < |order| && i == At(order, k)
        invariant forall j :: k < j < |order| ==> Pinned(bufs[order[j]])
        decreases k
      {
        if bufs[i].refcnt == 0 && !bufs[i].dirty {
          forall j | 0 <= j < NBUF && !Pinned(bufs[j])
            ensures stamps[i] <= stamps[j]
          {
            assert j in order;
            var m :| 0 <= m < |order| && order[m] == j;
            assert m <= k;
          }
          return;
        }
        assert Joined(next, prev, order, k - 1);
        i := prev[i];
        k := k - 1;
      }
      forall j | 0 <= j < NBUF
        ensures Pinned(bufs[j])
      {
        assert j in order;
        var m :| 0 <= m < |order| && order[m] == j;
      }
    }

    /** bread once the sleep lock is free: take it, and read the disk if the data are not valid.
        The buffer shows what was last logged or written to the block. */
    method FinishBread(pid: nat, i: nat)
      requires Valid() && Claim(pid, i) in claims && i < |bufs| && bufs[i].holder == 0
      modifies `bufs
      ensures Valid() && i < |bufs| && claims[Claim(pid, i)] < |mem|
      ensures bufs == old(bufs)[i := old(bufs)[i].(holder := pid, valid := true, data := mem[claims[Claim(pid, i)]])]
    {
      hide Counted, Coherent, Unique, Recency, Ring;
      ClaimFacts(bufs, disk, mem, claims, touched, Claim(pid, i));
      ghost var was := bufs;
      LockCounted(bufs, claims, Claim(pid, i), bufs[i].(holder := pid, valid := true, data := mem[bufs[i].blockno]));
      SameBlock(bufs, disk, mem, touched, i, bufs[i].(holder := pid, valid := true, data := mem[bufs[i].blockno]),
                touched);
      bufs := bufs[i := bufs[i].(holder := pid)];
      if !bufs[i].valid {
        bufs := bufs[i := bufs[i].(data := disk[bufs[i].blockno], valid := true)];
      }
      assert bufs == was[i := was[i].(holder := pid, valid := true, data := mem[was[i].blockno])];
    }

    predicate Holding(pid: nat, i: nat)
      reads this
    {
      i < |bufs| && bufs[i].holder == pid && pid != 0
    }

    /** The holder changes the buffer's data. */
    method Modify(pid: nat, i: nat, data: Block)
      requires Valid() && Holding(pid, i) && bufs[i].valid
      modifies `bufs, `touched
      ensures Valid() && bufs == old(bufs)[i := old(bufs)[i].(data := data)] && touched == old(touched) + {i}
    {
      hide Counted, Coherent, Unique, Recency, Ring;
      HolderClaims(bufs, claims, i);
      ClaimFacts(bufs, disk, mem, claims, touched, Claim(pid, i));
      LockCounted(bufs, claims, Claim(pid, i), bufs[i].(data := data));
      SameBlock(bufs, disk, mem, touched, i, bufs[i].(data := data), touched + {i});
      bufs := bufs[i := bufs[i].(data := data)];
      touched := touched + {i};
    }

    /** log_write's part in the cache: pin the buffer; the block now reads as its data. */
    method LogWrite(pid: nat, i: nat)
      requires Valid() && Holding(pid, i) && bufs[i].valid
      modifies `bufs, `mem, `touched
      ensures Valid() && i < |bufs| && bufs[i].blockno < |old(mem)|
      ensures bufs == old(bufs)[i := old(bufs)[i].(dirty := true)]
      ensures mem == old(mem)[bufs[i].blockno := bufs[i].data] && touched == old(touched) - {i}
    {
      hide Counted, Coherent, Unique, Recency, Ring;
      HolderClaims(bufs, claims, i);
      ClaimFacts(bufs, disk, mem, claims, touched, Claim(pid, i));
      LockCounted(bufs, claims, Claim(pid, i), bufs[i].(dirty := true));
      WriteCoherent(bufs, disk, mem, touched, i, bufs[i].(dirty := true), disk);
      bufs := bufs[i := bufs[i].(dirty := true)];
      mem := mem[bufs[i].blockno := bufs[i].data];
      touched := touched - {i};
    }

    /** bwrite: the data go to the disk and the buffer is clean. */
    method Bwrite(pid: nat, i: nat) returns (ok: bool)
      requires Valid() && i < |bufs| && (Holding(pid, i) ==> bufs[i].valid)
      modifies `bufs, `disk, `mem, `touched
      ensures Valid() && ok == old(Holding(pid, i))
      ensures !ok ==> bufs == old(bufs) && disk == old(disk) && mem == old(mem) && touched == old(touched)
      ensures ok ==>
        && old(bufs)[i].blockno < |old(disk)| == |old(mem)|
        && bufs == old(bufs)[i := old(bufs)[i].(dirty := false)]
        && disk == old(disk)[old(bufs)[i].blockno := old(bufs)[i].data]
        && mem == old(mem)[old(bufs)[i].blockno := old(bufs)[i].data] && touched == old(touched) - {i}
    {
      hide Counted, Coherent, Unique, Recency, Ring;
      if pid == 0 || bufs[i].holder != pid {
        return false; // panic("bwrite")
      }
      HolderClaims(bufs, claims, i);
      ClaimFacts(bufs, disk, mem, claims, touched, Claim(pid, i));
      LockCounted(bufs, claims, Claim(pid, i), bufs[i].(dirty := false));
      WriteCoherent(bufs, disk, mem, touched, i, bufs[i].(dirty := false), disk[bufs[i].blockno := bufs[i].data]);
      ghost var was := bufs;
      bufs := bufs[i := bufs[i].(dirty := true)];
      bufs := bufs[i := bufs[i].(dirty := false)];
      disk := disk[bufs[i].blockno := bufs[i].data];
      bufs := bufs[i := bufs[i].(valid := true)];
      assert bufs == was[i := was[i].(dirty := false)];
      mem := mem[bufs[i].blockno := bufs[i].data];
      touched := touched - {i};
      return true;
    }

    /** The first half of brelse, releasesleep: the buffer is unlocked and still claimed. */
    method Unlock(pid: nat, i: nat) returns (ok: bool)
      requires Valid() && i < |bufs| && (Holding(pid, i) ==> i !in touched)
      modifies `bufs
      ensures Valid() && ok == old(Holding(pid, i))
      ensures bufs == if ok then old(bufs)[i := old(bufs)[i].(holder := 0)] else old(bufs)
    {
      hide Counted, Coherent, Unique, Recency, Ring;
      if pid == 0 || bufs[i].holder != pid {
        return false; // panic("brelse")
      }
      HolderClaims(bufs, claims, i);
      ClaimFacts(bufs, disk, mem, claims, touched, Claim(pid, i));
      UnlockCounted(bufs, claims, i);
      SameBlock(bufs, disk, mem, touched, i, bufs[i].(holder := 0), touched);
      bufs := bufs[i := bufs[i].(holder := 0)];
      return true;
    }

    /** The second half, under bcache.lock: drop the claim, and when it was the last one move the
        buffer to the front. */
    method Drop(pid: nat, i: nat)
      requires Valid() && Claim(pid, i) in claims && !Holding(pid, i)
      modifies `bufs, `next, `prev, `order, `claims, `stamps, `clock
      ensures Valid() && claims == old(claims) - {Claim(pid, i)} && i < |bufs| == |old(bufs)| && old(bufs)[i].refcnt > 0
      ensures bufs == old(bufs)[i := old(bufs)[i].(refcnt := old(bufs)[i].refcnt - 1)]
      ensures bufs[i].refcnt > 0 ==> order == old(order) && stamps == old(stamps)
      ensures bufs[i].refcnt == 0 ==>
        MovedToFront(old(order), order, i) && stamps == old(stamps)[i := old(clock)] && clock == old(clock) + 1
    {
      hide Counted, Coherent, Unique, Recency, Ring, Complete;
      ClaimFacts(bufs, disk, mem, claims, touched, Claim(pid, i));
      DropCounted(bufs, claims, Claim(pid, i));
      SameBlock(bufs, disk, mem, touched, i, bufs[i].(refcnt := bufs[i].refcnt - 1), touched);
      bufs := bufs[i := bufs[i].(refcnt := bufs[i].refcnt - 1)];
      claims := claims - {Claim(pid, i)};
      if bufs[i].refcnt == 0 {
        MoveToFront(i);
      }
    }

    /** The relinking in brelse. */
    method MoveToFront(i: nat)
      requires Ring(next, prev, order) && Complete(order) && Recency(order, stamps, clock) && i < NBUF
      modifies `next, `prev, `order, `stamps, `clock
      ensures Ring(next, prev, order) && Complete(order) && Recency(order, stamps, clock)
      ensures MovedToFront(old(order), order, i)
      ensures |old(stamps)| == NBUF && stamps == old(stamps)[i := old(clock)] && clock == old(clock) + 1
    {
      hide Ring, Complete, Recency;
      ghost var k := PlaceOf(order, i);
      RecencySize(order, stamps, clock);
      RecencyFront(order, stamps, clock, k);
      CompleteFront(order, k);
      Unlink(next, prev, order, k);
      NotSelf(next, prev, order, k);
      ghost var next1, prev1, order1 := next[prev[i] := next[i]], prev[next[i] := prev[i]], Without(order, k);
      PushFront(next1, prev1, order1, i);
      prev := prev[next[i] := prev[i]];
      next := next[prev[i] := next[i]];
      assert next == next1 && prev == prev1;
      next := next[i := next[HEAD]];
      prev := prev[i := HEAD];
      prev := prev[next[HEAD] := i];
      next := next[HEAD := i];
      order := [i] + order1;
      stamps, clock := stamps[i := clock], clock + 1;
    }
  }

  lemma PlaceOf(order: seq<int>, i: nat) returns (k: nat)
    requires Complete(order) && i < NBUF
    ensures k < |order| && order[k] == i
  {
    assert i in order;
    k :| 0 <= k < |order| && order[k] == i;
  }

  lemma RecencySize(order: seq<int>, stamps: seq<nat>, clock: nat)
    requires Recency(order, stamps, clock)
    ensures |stamps| == NBUF
  {}

  lemma NotSelf(next: seq<int>, prev: seq<int>, order: seq<int>, k: nat)
    requires Ring(next, prev, order) && k < |order|
    ensures |next| == |prev| == NBUF + 1 && next[order[k]] != order[k]
  {
    assert Joined(next, prev, order, k);
  }

  /** order' is order with i taken out and put first. */
  predicate MovedToFront(order: seq<int>, order': seq<int>, i: int) {
    exists k :: 0 <= k < |order| && order[k] == i && order' == [i] + Without(order, k)
  }

  lemma Sizes(bufs: seq<Buf>, claims: map<Claim, nat>)
    requires Counted(bufs, claims)
    ensures |bufs| == NBUF
  {}

  lemma FreshClaim(bufs: seq<Buf>, claims: map<Claim, nat>, c: Claim, b: nat)
    requires Counted(bufs, claims) && c.i < |bufs| && bufs[c.i].blockno == b
    requires forall d :: d in claims && d.pid == c.pid ==> claims[d] != b
    ensures c !in claims
  {}

  lemma ShowsAt(bufs: seq<Buf>, disk: seq<Block>, mem: seq<Block>, touched: set<int>, i: nat)
    requires Coherent(bufs, disk, mem, touched) && i < |bufs|
    ensures |disk| == |mem| && Shows(bufs[i], disk, mem, i in touched)
  {}

  lemma HolderClaims(bufs: seq<Buf>, claims: map<Claim, nat>, i: nat)
    requires Counted(bufs, claims) && i < |bufs| && bufs[i].holder != 0
    ensures Claim(bufs[i].holder, i) in claims && i < NBUF
  {}

  lemma ClaimFacts(bufs: seq<Buf>, disk: seq<Block>, mem: seq<Block>, claims: map<Claim, nat>, touched: set<int>,
                   c: Claim)
    requires Counted(bufs, claims) && Coherent(bufs, disk, mem, touched) && c in claims
    ensures c.i < |bufs| == NBUF && |disk| == |mem| && bufs[c.i].dev == ROOTDEV
    ensures bufs[c.i].blockno == claims[c] < |disk| && bufs[c.i].refcnt > 0 && c.pid > 0
    ensures Shows(bufs[c.i], disk, mem, c.i in touched)
  {
    assert c in Claimants(claims, c.i);
  }

  /** A change to a claimed buffer that keeps its block and count. */
  lemma LockCounted(bufs: seq<Buf>, claims: map<Claim, nat>, c: Claim, buf: Buf)
    requires Counted(bufs, claims) && c in claims && c.i < |bufs|
    requires buf.dev == bufs[c.i].dev && buf.blockno == bufs[c.i].blockno && buf.refcnt == bufs[c.i].refcnt
    requires buf.holder == c.pid
    ensures Counted(bufs[c.i := buf], claims)
  {}

  lemma UnlockCounted(bufs: seq<Buf>, claims: map<Claim, nat>, i: nat)
    requires Counted(bufs, claims) && i < |bufs|
    ensures Counted(bufs[i := bufs[i].(holder := 0)], claims)
  {}

  lemma DropCounted(bufs: seq<Buf>, claims: map<Claim, nat>, c: Claim)
    requires Counted(bufs, claims) && c in claims && c.i < |bufs| && bufs[c.i].holder != c.pid && bufs[c.i].refcnt > 0
    ensures Counted(bufs[c.i := bufs[c.i].(refcnt := bufs[c.i].refcnt - 1)], claims - {c})
  {
    ClaimRemoved(claims, c);
  }
}
