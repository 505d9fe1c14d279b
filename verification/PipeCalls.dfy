/** pipewrite and piperead (pipe.c) that find room or bytes, run from call to return. */
module PipeCalls {
  import opened Common
  import opened SleepWakeup
  import opened PipeRing
  import opened PipeProtocol

  type Waking = SleepWakeup.Event<Pipe, Chan>

  // ----- runs in parts

  lemma {:induction false} RunTwice(m: Machine, a: seq<PipeProtocol.Event>, b: seq<PipeProtocol.Event>)
    ensures PipeProtocol.Run(m, a + b) == PipeProtocol.Run(PipeProtocol.Run(m, a), b)
    decreases |b|
  {
    hide PipeProtocol.Step;
    if b == [] {
      assert a + b == a;
    } else {
      RunTwice(m, a, b[..|b|-1]);
      assert (a + b)[..|a + b|-1] == a + b[..|b|-1];
    }
  }

  lemma RunFew(m: Machine, e: PipeProtocol.Event, f: PipeProtocol.Event)
    ensures PipeProtocol.Run(m, [e]) == PipeProtocol.Step(m, e)
    ensures PipeProtocol.Run(m, [e, f]) == PipeProtocol.Step(PipeProtocol.Step(m, e), f)
  {
    hide PipeProtocol.Step;
    assert [e, f][..1] == [e] && [e][..0] == [];
  }

  function Kernels(ks: seq<Waking>): seq<PipeProtocol.Event> {
    seq(|ks|, i requires 0 <= i < |ks| => Kernel(ks[i]))
  }

  lemma {:induction false} KernelRun(m: Machine, ks: seq<Waking>)
    requires forall i :: 0 <= i < |ks| ==> ks[i].Wakeup? || ks[i].WakeupTable? || ks[i].WakeupScan? || ks[i].WakeupDone?
    ensures PipeProtocol.Run(m, Kernels(ks)) == m.(s := SleepWakeup.Run(PipeProtocol.Ready, m.s, ks))
    decreases |ks|
  {
    hide SleepWakeup.Step;
    if ks != [] {
      KernelRun(m, ks[..|ks|-1]);
      assert Kernels(ks)[..|ks|-1] == Kernels(ks[..|ks|-1]);
    }
  }

  // ----- a call in progress

  /** p is in a call, inside the lock, with due[..] owed at most; all else is as in m0. */
  predicate InCall(m0: Machine, m: Machine, p: nat, role: Role, owed: Chan) {
    && Queued(m) && p < |m0.roles| == |m0.s.procs|
    && m.roles == m0.roles[p := role] && m.s.procs == m0.s.procs[p := Inside] && m.s.lk == Some(p)
    && m.s.table == None && m.s.due <= {owed} && m.killed == m0.killed && m.spoiled == m0.spoiled
    && m.s.x.readopen == m0.s.x.readopen && m.s.x.writeopen == m0.s.x.writeopen
  }

  /** The bytes in the pipe. */
  function Held(m: Machine): int {
    |m.accepted| - |m.delivered|
  }

  predicate Putting(m0: Machine, m: Machine, p: nat, bytes: seq<Byte>, k: nat) {
    && k <= |bytes| && InCall(m0, m, p, Writer(bytes, k), ReadChan)
    && m.accepted == m0.accepted + bytes[..k] && m.delivered == m0.delivered
  }

  lemma PutStep(m0: Machine, m: Machine, p: nat, bytes: seq<Byte>, k: nat)
    requires Putting(m0, m, p, bytes, k) && k < |bytes| && Held(m0) + |bytes| <= PIPESIZE
    ensures Putting(m0, PipeProtocol.Step(m, PutByte(p)), p, bytes, k + 1)
  {
    hide Fifo, Full, Empty;
    Tests(m.s.x, m.accepted, m.delivered);
    FifoSize(m.s.x, m.accepted, m.delivered);
    PutAnnounced(m.s.x, bytes[k]);
    PutFifo(m.s.x, bytes[k], m.accepted, m.delivered);
    assert bytes[..k] + [bytes[k]] == bytes[..k + 1];
    assert m0.roles[p := Writer(bytes, k)][p := Writer(bytes, k + 1)] == m0.roles[p := Writer(bytes, k + 1)];
  }

  lemma FifoSize(x: Pipe, accepted: seq<Byte>, delivered: seq<Byte>)
    requires Fifo(x, accepted, delivered)
    ensures |x.data| == PIPESIZE && delivered <= accepted
  {}

  function Puts(p: nat, k: nat): seq<PipeProtocol.Event> {
    seq(k, _ => PutByte(p))
  }

  lemma {:induction false} PutRun(m0: Machine, m: Machine, p: nat, bytes: seq<Byte>, k: nat)
    requires Putting(m0, m, p, bytes, 0) && k <= |bytes| && Held(m0) + |bytes| <= PIPESIZE
    ensures Putting(m0, PipeProtocol.Run(m, Puts(p, k)), p, bytes, k)
  {
    hide PipeProtocol.Step, Putting;
    if k > 0 {
      PutRun(m0, m, p, bytes, k - 1);
      assert Puts(p, k)[..k - 1] == Puts(p, k - 1);
      PutStep(m0, PipeProtocol.Run(m, Puts(p, k - 1)), p, bytes, k - 1);
    }
  }

  predicate Getting(m0: Machine, m: Machine, p: nat, n: nat, k: nat) {
    && k <= n && k <= Held(m0) && m0.delivered <= m0.accepted
    && InCall(m0, m, p, Reader(n, m0.accepted[|m0.delivered|..|m0.delivered| + k]), WriteChan)
    && m.accepted == m0.accepted && m.delivered == m0.accepted[..|m0.delivered| + k]
  }

  lemma GetStep(m0: Machine, m: Machine, p: nat, n: nat, k: nat)
    requires Getting(m0, m, p, n, k) && k < n && k < Held(m0)
    ensures Getting(m0, PipeProtocol.Step(m, GetByte(p)), p, n, k + 1)
  {
    hide Fifo, Full, Empty;
    Tests(m.s.x, m.accepted, m.delivered);
    FifoSize(m.s.x, m.accepted, m.delivered);
    GetAnnounced(m.s.x);
    GetFifo(m.s.x, m.accepted, m.delivered);
    var d, b := |m0.delivered|, m0.accepted[|m0.delivered| + k];
    assert m0.accepted[..d + k] + [b] == m0.accepted[..d + k + 1];
    assert m0.accepted[d..d + k] + [b] == m0.accepted[d..d + k + 1];
    assert m0.roles[p := m.roles[p]][p := Reader(n, m0.accepted[d..d + k + 1])]
        == m0.roles[p := Reader(n, m0.accepted[d..d + k + 1])];
  }

  function Gets(p: nat, k: nat): seq<PipeProtocol.Event> {
    seq(k, _ => GetByte(p))
  }

  lemma {:induction false} GetRun(m0: Machine, m: Machine, p: nat, n: nat, k: nat)
    requires Getting(m0, m, p, n, 0) && k <= n && k <= Held(m0)
    ensures Getting(m0, PipeProtocol.Run(m, Gets(p, k)), p, n, k)
  {
    hide PipeProtocol.Step, Getting;
    if k > 0 {
      GetRun(m0, m, p, n, k - 1);
      assert Gets(p, k)[..k - 1] == Gets(p, k - 1);
      GetStep(m0, PipeProtocol.Run(m, Gets(p, k - 1)), p, n, k - 1);
    }
  }

  // ----- begin and end

  /** p is free to make a call, and both locks are free. */
  predicate MayCall(m: Machine, p: nat) {
    && p < |m.roles| && m.roles[p].Idle? && p < |m.s.procs| && m.s.procs[p].Outside?
    && m.s.lk == None && m.s.table == None
  }

  lemma CallReady(n: nat, es: seq<PipeProtocol.Event>, p: nat)
    requires MayCall(PipeProtocol.Run(PipeProtocol.Start(n), es), p)
    ensures
      var m := PipeProtocol.Run(PipeProtocol.Start(n), es);
      Quiet(m, p) && m.delivered <= m.accepted
  {
    PipeSafe(n, es);
  }

  predicate Quiet(m: Machine, p: nat) {
    && p < |m.roles| == |m.s.procs| && m.roles[p].Idle? && m.s.procs[p].Outside?
    && m.s.lk == None && m.s.table == None && m.s.due == {} && Queued(m)
  }

  lemma BeginWrite(m: Machine, p: nat, bytes: seq<Byte>)
    requires Quiet(m, p) && m.s.x.writeopen
    ensures Putting(m, PipeProtocol.Run(m, [StartWrite(p, bytes), Kernel(Acquire(p))]), p, bytes, 0)
  {
    hide Fifo;
    RunFew(m, StartWrite(p, bytes), Kernel(Acquire(p)));
  }

  lemma BeginRead(m: Machine, p: nat, n: nat)
    requires Quiet(m, p) && m.s.x.readopen && m.delivered <= m.accepted
    ensures Getting(m, PipeProtocol.Run(m, [StartRead(p, n), Kernel(Acquire(p))]), p, n, 0)
  {
    hide Fifo;
    RunFew(m, StartRead(p, n), Kernel(Acquire(p)));
    var d := |m.delivered|;
    assert m.accepted[..d + 0] == m.delivered && m.accepted[d..d + 0] == [];
  }

  /** Only the pipe and the sleepers on c have changed; those are awake. */
  predicate Returned(m0: Machine, m: Machine, c: Chan) {
    && Queued(m) && m.roles == m0.roles && m.s.procs == AllWoken(m0.s.procs, c)
    && m.s.lk == None && m.s.table == None && m.s.due == {}
    && m.killed == m0.killed && m.spoiled == m0.spoiled
    && m.s.x.readopen == m0.s.x.readopen && m.s.x.writeopen == m0.s.x.writeopen
  }

  /** The wakeup at the end of a call, and its return. */
  lemma WakeAndReturn(m0: Machine, m: Machine, p: nat, role: Role, c: Chan)
    requires Quiet(m0, p) && InCall(m0, m, p, role, c) && CanFinish(m, p)
    ensures
      var t := PipeProtocol.Run(m, Kernels(WakeupEvents(p, c, |m0.s.procs|)) + [Finish(p)]);
      Returned(m0, t, c) && t.accepted == m.accepted && t.delivered == m.delivered
  {
    hide Fifo, Full, Empty;
    var wakes := WakeupEvents<Pipe, Chan>(p, c, |m0.s.procs|);
    RunTwice(m, Kernels(wakes), [Finish(p)]);
    KernelRun(m, wakes);
    WakeupWakes(PipeProtocol.Ready, m.s, p, c);
    var m1 := m.(s := m.s.(procs := AllWoken(m.s.procs, c), due := m.s.due - {c}));
    hide PipeProtocol.Run, SleepWakeup.Run, PipeProtocol.Step, InCall, CanFinish, Quiet;
    RunFew(m1, Finish(p), Finish(p));
    FinishReturns(m0, m, p, role, c);
  }

  lemma FinishReturns(m0: Machine, m: Machine, p: nat, role: Role, c: Chan)
    requires Quiet(m0, p) && InCall(m0, m, p, role, c) && CanFinish(m, p)
    ensures
      var m1 := m.(s := m.s.(procs := AllWoken(m.s.procs, c), due := m.s.due - {c}));
      var t := PipeProtocol.Step(m1, Finish(p));
      Returned(m0, t, c) && t.accepted == m.accepted && t.delivered == m.delivered
  {
    hide Fifo, Full, Empty;
    var m1 := m.(s := m.s.(procs := AllWoken(m.s.procs, c), due := m.s.due - {c}));
    assert m1.s.due == {} && m1.s.procs[p].Inside?;
    assert With(m1.s, p, Outside).procs == AllWoken(m0.s.procs, c);
    assert m0.roles[p := role][p := Idle] == m0.roles;
  }

  // ----- whole calls

  function WriteEvents(p: nat, bytes: seq<Byte>, nproc: nat): seq<PipeProtocol.Event> {
    [StartWrite(p, bytes), Kernel(Acquire(p))] + Puts(p, |bytes|)
    + (Kernels(WakeupEvents(p, ReadChan, nproc)) + [Finish(p)])
  }

  /** A write that finds room for all its bytes returns with exactly those bytes added to the pipe,
      every sleeping reader awake and nothing else changed. */
  lemma WriteCall(n: nat, es: seq<PipeProtocol.Event>, p: nat, bytes: seq<Byte>)
    requires
      var m := PipeProtocol.Run(PipeProtocol.Start(n), es);
      MayCall(m, p) && m.s.x.writeopen && Held(m) + |bytes| <= PIPESIZE
    ensures
      var m := PipeProtocol.Run(PipeProtocol.Start(n), es);
      var t := PipeProtocol.Run(m, WriteEvents(p, bytes, |m.s.procs|));
      Returned(m, t, ReadChan) && t.accepted == m.accepted + bytes && t.delivered == m.delivered
  {
    var m := PipeProtocol.Run(PipeProtocol.Start(n), es);
    var begin, puts := [StartWrite(p, bytes), Kernel(Acquire(p))], Puts(p, |bytes|);
    var wakes := Kernels(WakeupEvents(p, ReadChan, |m.s.procs|)) + [Finish(p)];
    CallReady(n, es, p);
    BeginWrite(m, p, bytes);
    var m1 := PipeProtocol.Run(m, begin);
    PutRun(m, m1, p, bytes, |bytes|);
    var m2 := PipeProtocol.Run(m1, puts);
    hide PipeProtocol.Run, Quiet;
    RunTwice(m, begin + puts, wakes);
    RunTwice(m, begin, puts);
    WakeAndReturn(m, m2, p, Writer(bytes, |bytes|), ReadChan);
    assert bytes[..|bytes|] == bytes;
  }

  function ReadEvents(p: nat, n: nat, k: nat, nproc: nat): seq<PipeProtocol.Event> {
    [StartRead(p, n), Kernel(Acquire(p))] + Gets(p, k) + (Kernels(WakeupEvents(p, WriteChan, nproc)) + [Finish(p)])
  }

  /** A read of a pipe that holds bytes, or whose write end is closed, returns with the oldest bytes,
      as many as asked for and there are, every sleeping writer awake and nothing else changed. */
  lemma ReadCall(nproc: nat, es: seq<PipeProtocol.Event>, p: nat, n: nat)
    requires
      var m := PipeProtocol.Run(PipeProtocol.Start(nproc), es);
      MayCall(m, p) && m.s.x.readopen && (Held(m) > 0 || !m.s.x.writeopen)
    ensures
      var m := PipeProtocol.Run(PipeProtocol.Start(nproc), es);
      && m.delivered <= m.accepted
      && var k := Min(n, Held(m));
         var t := PipeProtocol.Run(m, ReadEvents(p, n, k, |m.s.procs|));
         Returned(m, t, WriteChan) && t.accepted == m.accepted && t.delivered == m.accepted[..|m.delivered| + k]
  {
    CallReady(nproc, es, p);
    ReadFrom(PipeProtocol.Run(PipeProtocol.Start(nproc), es), p, n);
  }

  lemma ReadFrom(m: Machine, p: nat, n: nat)
    requires Quiet(m, p) && m.s.x.readopen && m.delivered <= m.accepted && (Held(m) > 0 || !m.s.x.writeopen)
    ensures
      var k := Min(n, Held(m));
      var t := PipeProtocol.Run(m, ReadEvents(p, n, k, |m.s.procs|));
      Returned(m, t, WriteChan) && t.accepted == m.accepted && t.delivered == m.accepted[..|m.delivered| + k]
  {
    hide PipeProtocol.Run, Quiet, CanFinish, Returned, InCall;
    var k := Min(n, Held(m));
    var begin := [StartRead(p, n), Kernel(Acquire(p))] + Gets(p, k);
    ReadBody(m, p, n, k);
    var m2 := PipeProtocol.Run(m, begin);
    ReaderDone(m, m2, p, n);
    hide Getting;
    RunTwice(m, begin, Kernels(WakeupEvents(p, WriteChan, |m.s.procs|)) + [Finish(p)]);
    WakeAndReturn(m, m2, p, Reader(n, m.accepted[|m.delivered|..|m.delivered| + k]), WriteChan);
  }

  lemma ReadBody(m: Machine, p: nat, n: nat, k: nat)
    requires Quiet(m, p) && m.s.x.readopen && m.delivered <= m.accepted && k <= n && k <= Held(m)
    ensures Getting(m, PipeProtocol.Run(m, [StartRead(p, n), Kernel(Acquire(p))] + Gets(p, k)), p, n, k)
  {
    hide PipeProtocol.Run, Getting;
    RunTwice(m, [StartRead(p, n), Kernel(Acquire(p))], Gets(p, k));
    BeginRead(m, p, n);
    GetRun(m, PipeProtocol.Run(m, [StartRead(p, n), Kernel(Acquire(p))]), p, n, k);
  }

  lemma ReaderDone(m0: Machine, m: Machine, p: nat, n: nat)
    requires Held(m0) >= 0 && Getting(m0, m, p, n, Min(n, Held(m0))) && (Held(m0) > 0 || !m0.s.x.writeopen)
    ensures
      var k := Min(n, Held(m0));
      && CanFinish(m, p) && InCall(m0, m, p, Reader(n, m0.accepted[|m0.delivered|..|m0.delivered| + k]), WriteChan)
      && m.accepted == m0.accepted && m.delivered == m0.accepted[..|m0.delivered| + k]
  {
    hide Fifo, Full, Empty;
    Tests(m.s.x, m.accepted, m.delivered);
  }

  // ----- pipeclose

  /** pipeclose of the write end if writing, else of the read end. */
  function CloseEvents(p: nat, writing: bool, nproc: nat): seq<PipeProtocol.Event> {
    [Kernel(Acquire(p)), if writing then CloseWrite(p) else CloseRead(p)]
    + (Kernels(WakeupEvents(p, if writing then ReadChan else WriteChan, nproc)) + [Kernel(Release(p))])
  }

  lemma BeginClose(m: Machine, p: nat, writing: bool)
    requires Quiet(m, p)
    requires forall q :: 0 <= q < |m.roles| ==> if writing then !m.roles[q].Writer? else !m.roles[q].Reader?
    ensures PipeProtocol.Run(m, [Kernel(Acquire(p)), if writing then CloseWrite(p) else CloseRead(p)]) ==
      m.(s := With(m.s, p, Inside).(
           x := if writing then m.s.x.(writeopen := false) else m.s.x.(readopen := false),
           lk := Some(p), due := {if writing then ReadChan else WriteChan}))
  {
    hide Fifo, Full, Empty;
    RunFew(m, Kernel(Acquire(p)), if writing then CloseWrite(p) else CloseRead(p));
    CloseAnnounced(m.s.x);
  }

  /** Closing an end that nobody uses: it is closed, and everybody asleep at the other end is awake to
      find out. */
  lemma CloseCall(n: nat, es: seq<PipeProtocol.Event>, p: nat, writing: bool)
    requires
      var m := PipeProtocol.Run(PipeProtocol.Start(n), es);
      && MayCall(m, p)
      && (forall q :: 0 <= q < |m.roles| ==> if writing then !m.roles[q].Writer? else !m.roles[q].Reader?)
    ensures
      var m := PipeProtocol.Run(PipeProtocol.Start(n), es);
      PipeProtocol.Run(m, CloseEvents(p, writing, |m.s.procs|)) ==
        m.(s := m.s.(x := if writing then m.s.x.(writeopen := false) else m.s.x.(readopen := false),
                     procs := AllWoken(m.s.procs, if writing then ReadChan else WriteChan)))
  {
    var m := PipeProtocol.Run(PipeProtocol.Start(n), es);
    CallReady(n, es, p);
    BeginClose(m, p, writing);
    var c := if writing then ReadChan else WriteChan;
    var wakes := WakeupEvents<Pipe, Chan>(p, c, |m.s.procs|);
    var close := [Kernel(Acquire(p)), if writing then CloseWrite(p) else CloseRead(p)];
    var m1 := PipeProtocol.Run(m, close);
    hide PipeProtocol.Run, PipeProtocol.Step;
    RunTwice(m, close, Kernels(wakes) + [Kernel(Release(p))]);
    RunTwice(m1, Kernels(wakes), [Kernel(Release(p))]);
    KernelRun(m1, wakes);
    WakeupWakes(PipeProtocol.Ready, m1.s, p, c);
    var m2 := m1.(s := m1.s.(procs := AllWoken(m1.s.procs, c), due := m1.s.due - {c}));
    RunFew(m2, Kernel(Release(p)), Kernel(Release(p)));
    CloseReturns(m, m2, p, c);
  }

  lemma CloseReturns(m: Machine, m2: Machine, p: nat, c: Chan)
    requires Quiet(m, p) && m2 == m.(s := m2.s)
    requires m2.s == With(m.s, p, Inside).(x := m2.s.x, procs := AllWoken(With(m.s, p, Inside).procs, c), lk := Some(p))
    ensures PipeProtocol.Step(m2, Kernel(Release(p))) == m.(s := m.s.(x := m2.s.x, procs := AllWoken(m.s.procs, c)))
  {
    assert m2.s.procs[p].Inside?;
    assert With(m2.s, p, Outside).procs == AllWoken(m.s.procs, c);
  }
}
