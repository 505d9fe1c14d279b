/** The pipe ring (pipe.c) with its 32-bit counters. `accepted` are all bytes ever written to the
    pipe and `delivered` all bytes ever read from it. */
module PipeRing {
  import opened Common

  const PIPESIZE := 512

  /** A counter as an unsigned 32-bit int. */
  function Wrap(x: nat): nat {
    x % UINT
  }

  /** A counter's place in the ring. */
  function Spot(x: nat): (p: nat)
    ensures p < PIPESIZE
  {
    x % PIPESIZE
  }

  datatype Pipe = Pipe(data: seq<Byte>, nread: nat, nwrite: nat, readopen: bool, writeopen: bool)

  predicate Full(x: Pipe) {
    x.nwrite == Wrap(x.nread + PIPESIZE)
  }

  predicate Empty(x: Pipe) {
    x.nread == x.nwrite
  }

  /** The counters are the lengths of the histories modulo 2^32, the bytes in between fill the
      ring, and they are at most PIPESIZE. */
  predicate Ring(data: seq<Byte>, nread: nat, nwrite: nat, accepted: seq<Byte>, delivered: seq<Byte>) {
    && |data| == PIPESIZE
    && nread == Wrap(|delivered|) && nwrite == Wrap(|accepted|)
    && delivered <= accepted
    && |accepted| - |delivered| <= PIPESIZE
    && (forall k :: |delivered| <= k < |accepted| ==> data[Spot(k)] == accepted[k])
  }

  predicate Fifo(x: Pipe, accepted: seq<Byte>, delivered: seq<Byte>) {
    Ring(x.data, x.nread, x.nwrite, accepted, delivered)
  }

  lemma WrapAdd(d: nat, g: nat)
    ensures Wrap(Wrap(d) + g) == Wrap(d + g)
  {
    var q := d / UINT;
    assert d == q * UINT + d % UINT;
    SameRemainder(d % UINT + g, q);
  }

  lemma SameRemainder(x: nat, q: nat)
    ensures (q * UINT + x) % UINT == x % UINT
  {}

  /** Numbers less than 2^32 apart with the same 32-bit value are equal. */
  lemma WrapEqual(x: nat, y: nat)
    requires x <= y < x + UINT && Wrap(x) == Wrap(y)
    ensures x == y
  {}

  lemma SamePlace(m: nat, r: nat)
    ensures (m * PIPESIZE + r) % PIPESIZE == r % PIPESIZE
  {}

  lemma WrapPosition(x: nat)
    ensures Spot(Wrap(x)) == Spot(x)
  {
    var q, r := x / UINT, x % UINT;
    assert x == (q * 0x80_0000) * PIPESIZE + r;
    SamePlace(q * 0x80_0000, r);
  }

  /** The tests on the counters are right even after they wrap around. */
  lemma Tests(x: Pipe, accepted: seq<Byte>, delivered: seq<Byte>)
    requires Fifo(x, accepted, delivered)
    ensures Full(x) <==> |accepted| - |delivered| == PIPESIZE
    ensures Empty(x) <==> |accepted| == |delivered|
    ensures Spot(x.nwrite) == Spot(|accepted|) && Spot(x.nread) == Spot(|delivered|)
  {
    hide Wrap, Spot;
    var a, d := |accepted|, |delivered|;
    WrapAdd(d, PIPESIZE);
    if x.nwrite == Wrap(x.nread + PIPESIZE) {
      WrapEqual(a, d + PIPESIZE);
    }
    if x.nread == x.nwrite {
      WrapEqual(d, a);
    }
    WrapPosition(a);
    WrapPosition(d);
  }

  function Put(x: Pipe, b: Byte): Pipe
    requires |x.data| == PIPESIZE
  {
    x.(data := x.data[Spot(x.nwrite) := b], nwrite := Wrap(x.nwrite + 1))
  }

  function Get(x: Pipe): Pipe {
    x.(nread := Wrap(x.nread + 1))
  }

  lemma PutFifo(x: Pipe, b: Byte, accepted: seq<Byte>, delivered: seq<Byte>)
    requires Fifo(x, accepted, delivered) && !Full(x)
    ensures Fifo(Put(x, b), accepted + [b], delivered) && !Empty(Put(x, b))
  {
    hide Wrap, Spot;
    Tests(x, accepted, delivered);
    WrapAdd(|accepted|, 1);
    var n := |accepted|;
    forall k | |delivered| <= k < n + 1
      ensures Put(x, b).data[Spot(k)] == (accepted + [b])[k]
    {
      if k < n {
        Apart(k, n);
      }
    }
    Tests(Put(x, b), accepted + [b], delivered);
  }

  lemma Apart(k: nat, n: nat)
    requires k < n < k + PIPESIZE
    ensures Spot(k) != Spot(n)
  {}

  lemma GetFifo(x: Pipe, accepted: seq<Byte>, delivered: seq<Byte>)
    requires Fifo(x, accepted, delivered) && !Empty(x)
    ensures |delivered| < |accepted| && x.data[Spot(x.nread)] == accepted[|delivered|]
    ensures Fifo(Get(x), accepted, delivered + [x.data[Spot(x.nread)]]) && !Full(Get(x))
  {
    hide Wrap, Spot;
    Tests(x, accepted, delivered);
    WrapAdd(|delivered|, 1);
    Tests(Get(x), accepted, delivered + [x.data[Spot(x.nread)]]);
  }

  datatype Status = Finished | MustSleep | Failed

  /** struct pipe. The methods are what pipewrite and piperead do between taking the lock (or
      being woken) and releasing it (or going to sleep). */
  class PipeBuffer {
    const data: array<Byte>
    var nread: nat
    var nwrite: nat
    var readopen: bool
    var writeopen: bool
    ghost var accepted: seq<Byte>
    ghost var delivered: seq<Byte>

    ghost predicate Valid()
      reads this, data
    {
      Ring(data[..], nread, nwrite, accepted, delivered)
    }

    /** pipealloc. */
    constructor ()
      ensures Valid() && accepted == [] && delivered == [] && readopen && writeopen && fresh(data)
    {
      data := new Byte[PIPESIZE](_ => 0);
      nread, nwrite, readopen, writeopen := 0, 0, true, true;
      accepted, delivered := [], [];
    }

    ghost function Value(): Pipe
      reads this, data
    {
      Pipe(data[..], nread, nwrite, readopen, writeopen)
    }

    /** Write addr[i..] until the pipe is full or all is written. */
    method WriteUntilFull(addr: seq<Byte>, i: nat, killed: bool) returns (j: nat, r: Status)
      requires Valid() && i <= |addr|
      modifies `nwrite, `accepted, data
      ensures Valid() && i <= j <= |addr| && accepted == old(accepted) + addr[i..j]
      ensures r.Finished? <==> j == |addr|
      ensures !r.Finished? ==> |accepted| - |delivered| == PIPESIZE
      ensures r.Failed? ==> !readopen || killed
      ensures r.MustSleep? ==> readopen && !killed
    {
      hide Wrap, Spot;
      j := i;
      while j < |addr|
        invariant Valid() && i <= j <= |addr| && accepted == old(accepted) + addr[i..j]
      {
        Tests(Value(), accepted, delivered);
        if nwrite == Wrap(nread + PIPESIZE) {
          r := if !readopen || killed then Failed else MustSleep;
          return;
        }
        PutFifo(Value(), addr[j], accepted, delivered);
        ghost var was := data[..];
        data[Spot(nwrite)] := addr[j];
        assert data[..] == was[Spot(nwrite) := addr[j]];
        nwrite := Wrap(nwrite + 1);
        accepted := accepted + [addr[j]];
        assert addr[i..j+1] == addr[i..j] + [addr[j]];
        j := j + 1;
      }
      r := Finished;
    }

    /** Read up to n bytes: sleep on an empty open pipe, else deliver what is there in order. */
    method ReadAvailable(n: nat, killed: bool) returns (out: seq<Byte>, r: Status)
      requires Valid()
      modifies `nread, `delivered
      ensures Valid() && delivered == old(delivered) + out
      ensures r.MustSleep? <==> old(delivered) == accepted && writeopen && !killed
      ensures r.Failed? <==> old(delivered) == accepted && writeopen && killed
      ensures !r.Finished? ==> out == []
      ensures r.Finished? ==> |out| == if n <= |accepted| - |old(delivered)| then n else |accepted| - |old(delivered)|
    {
      hide Wrap, Spot;
      out := [];
      Tests(Value(), accepted, delivered);
      if nread == nwrite && writeopen {
        r := if killed then Failed else MustSleep;
        return;
      }
      var i := 0;
      while i < n
        invariant Valid() && 0 <= i <= n && |out| == i && delivered == old(delivered) + out
      {
        Tests(Value(), accepted, delivered);
        if nread == nwrite {
          break;
        }
        GetFifo(Value(), accepted, delivered);
        var b := data[Spot(nread)];
        out := out + [b];
        nread := Wrap(nread + 1);
        delivered := delivered + [b];
        i := i + 1;
      }
      Tests(Value(), accepted, delivered);
      r := Finished;
    }
  }
}
