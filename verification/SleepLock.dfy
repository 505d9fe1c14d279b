/** Sleep locks (sleeplock.c) on top of sleep and wakeup. A process runs acquiresleep, its
    critical section and releasesleep, in that order; the steps of all processes interleave. */
module SleepLock {
  import opened Common
  import opened SleepWakeup

  /** The fields of struct sleeplock that lk->lk protects. */
  datatype Word = Word(locked: bool, pid: nat)

  datatype Chan = TheLock

  datatype Role =
    | Idle
    | Acquiring   // in acquiresleep, lock not yet taken
    | Critical    // took the lock
    | Releasing   // in releasesleep, lock not yet cleared

  datatype Machine = Machine(s: State<Word, Chan>, roles: seq<Role>)

  datatype Event =
    | Enter(p: nat)                           // call acquiresleep
    | Take(p: nat)                            // while loop ends: locked = 1, pid = mine
    | Leave(p: nat)                           // call releasesleep
    | Clear(p: nat)                           // locked = 0, pid = 0
    | Kernel(e: SleepWakeup.Event<Word, Chan>) // acquire, release, sleep, wakeup, kill

  function Free(c: Chan, w: Word): bool {
    !w.locked
  }

  function Pid(p: nat): nat {
    p + 1
  }

  ghost function Step(m: Machine, e: Event): Machine {
    match e
    case Enter(p) =>
      if p < |m.roles| && m.roles[p] == Idle && p < |m.s.procs| && m.s.procs[p].Outside?
      then m.(roles := m.roles[p := Acquiring]) else m
    case Take(p) =>
      if p < |m.roles| && m.roles[p] == Acquiring && p < |m.s.procs| && m.s.procs[p].Inside? && !m.s.x.locked
      then Machine(SleepWakeup.Step(Free, m.s, Update(p, Word(true, Pid(p)), {})), m.roles[p := Critical]) else m
    case Leave(p) =>
      if p < |m.roles| && m.roles[p] == Critical && p < |m.s.procs| && m.s.procs[p].Outside?
      then m.(roles := m.roles[p := Releasing]) else m
    case Clear(p) =>
      if p < |m.roles| && m.roles[p] == Releasing && p < |m.s.procs| && m.s.procs[p].Inside?
      then Machine(SleepWakeup.Step(Free, m.s, Update(p, Word(false, 0), {TheLock})), m.roles[p := Idle]) else m
    case Kernel(e) =>
      if e.Update? || (e.Sleep? && e.p < |m.roles| && m.roles[e.p] != Acquiring) then m
      else m.(s := SleepWakeup.Step(Free, m.s, e))
  }

  ghost function Run(m: Machine, es: seq<Event>): Machine
    decreases |es|
  {
    if es == [] then m else Step(Run(m, es[..|es|-1]), es[|es|-1])
  }

  function Start(n: nat): Machine {
    Machine(Init(Word(false, 0), n), seq(n, _ => Idle))
  }

  /** holdingsleep, for process p. */
  predicate HoldingSleep(m: Machine, p: nat) {
    m.s.x.locked && m.s.x.pid == Pid(p)
  }

  predicate InSection(r: Role) {
    r == Critical || r == Releasing
  }

  /** The lock word names exactly the process that is in its critical section. */
  ghost predicate Owned(m: Machine) {
    && |m.roles| == |m.s.procs|
    && (forall p :: 0 <= p < |m.roles| ==> (InSection(m.roles[p]) <==> HoldingSleep(m, p)))
    && (m.s.x.locked ==> exists p :: 0 <= p < |m.roles| && InSection(m.roles[p]))
  }

  lemma StepOwned(m: Machine, e: Event)
    requires Owned(m) && Inv(Free, m.s)
    ensures Owned(Step(m, e)) && Inv(Free, Step(m, e).s)
  {
    var m' := Step(m, e);
    match e
    case Enter(p) =>
      if m' != m { KeepsWitness(m, m'); }
    case Leave(p) =>
      if m' != m { KeepsWitness(m, m'); }
    case Take(p) =>
      StepInv(Free, m.s, Update(p, Word(true, Pid(p)), {}));
      if m' != m {
        TakeAnnounced(m.s.x, Pid(p));
        assert InSection(m'.roles[p]);
        assert m'.s.x == Word(true, Pid(p));
      }
    case Clear(p) =>
      StepInv(Free, m.s, Update(p, Word(false, 0), {TheLock}));
      if m' != m {
        assert HoldingSleep(m, p);
        ClearAnnounced(m.s.x);
        assert m'.s.x == Word(false, 0);
      }
    case Kernel(k) =>
      StepInv(Free, m.s, k);
      KernelKeeps(m, k);
  }

  lemma ClearAnnounced(w: Word)
    ensures Announced(Free, w, Word(false, 0), {TheLock})
  {
    forall c: Chan
      ensures Free(c, Word(false, 0)) ==> c in {TheLock}
    {
      assert c == TheLock;
    }
  }

  lemma TakeAnnounced(w: Word, pid: nat)
    ensures Announced(Free, w, Word(true, pid), {})
  {
    forall c: Chan
      ensures !Free(c, Word(true, pid))
    {}
  }

  lemma KeepsWitness(m: Machine, m': Machine)
    requires Owned(m) && m'.s == m.s && |m'.roles| == |m.roles|
    requires forall p :: 0 <= p < |m.roles| ==> (InSection(m'.roles[p]) <==> InSection(m.roles[p]))
    ensures Owned(m')
  {
    if m.s.x.locked {
      var p :| 0 <= p < |m.roles| && InSection(m.roles[p]);
      assert InSection(m'.roles[p]);
    }
  }

  lemma KernelKeeps(m: Machine, k: SleepWakeup.Event<Word, Chan>)
    requires Owned(m)
    ensures Owned(Step(m, Kernel(k)))
  {
    if !k.Update? && k.p < |m.s.procs| {
      Shared(Free, m.s, k);
    }
  }

  /** In every interleaving: a process is in its critical section exactly when holdingsleep says
      so, at most one is, and when the spin lock is free and the sleep lock is not held nobody
      is asleep waiting for it. */
  lemma {:induction false} MutualExclusion(n: nat, es: seq<Event>)
    ensures
      var m := Run(Start(n), es);
      && Owned(m) && Inv(Free, m.s)
      && (forall p, q :: 0 <= p < |m.roles| && 0 <= q < |m.roles| ==>
            (InSection(m.roles[p]) && InSection(m.roles[q]) ==> p == q))
      && (m.s.lk == None && !m.s.x.locked ==> forall p :: 0 <= p < |m.s.procs| ==> !m.s.procs[p].Asleep?)
    decreases |es|
  {
    if es != [] {
      MutualExclusion(n, es[..|es|-1]);
      StepOwned(Run(Start(n), es[..|es|-1]), es[|es|-1]);
    }
    InvNoLost(Free, Run(Start(n), es).s);
  }

  // ----- acquiresleep and releasesleep run to their end

  /** Whoever clears the lock word inside the spin lock leaves it free, and is done with it. */
  lemma ClearFrees(m: Machine, p: nat)
    requires p < |m.roles| == |m.s.procs| && m.roles[p] == Releasing && m.s.procs[p].Inside?
    ensures Step(m, Clear(p)) ==
      Machine(m.s.(x := Word(false, 0), due := m.s.due + {TheLock}), m.roles[p := Idle])
  {
    ClearAnnounced(m.s.x);
  }

  lemma TakeTakes(m: Machine, p: nat)
    requires p < |m.roles| == |m.s.procs| && m.roles[p] == Acquiring && m.s.procs[p].Inside? && !m.s.x.locked
    ensures Step(m, Take(p)) == Machine(m.s.(x := Word(true, Pid(p))), m.roles[p := Critical])
  {
    TakeAnnounced(m.s.x, Pid(p));
  }

  function Kernels(ks: seq<SleepWakeup.Event<Word, Chan>>): seq<Event> {
    seq(|ks|, i requires 0 <= i < |ks| => Kernel(ks[i]))
  }

  lemma {:induction false} KernelRun(m: Machine, ks: seq<SleepWakeup.Event<Word, Chan>>)
    requires forall i :: 0 <= i < |ks| ==> !ks[i].Update? && !ks[i].Sleep?
    ensures Run(m, Kernels(ks)) == m.(s := SleepWakeup.Run(Free, m.s, ks))
    decreases |ks|
  {
    if ks != [] {
      KernelRun(m, ks[..|ks|-1]);
      assert Kernels(ks)[..|ks|-1] == Kernels(ks[..|ks|-1]);
    }
  }

  lemma {:induction false} RunTwice(m: Machine, a: seq<Event>, b: seq<Event>)
    ensures Run(m, a + b) == Run(Run(m, a), b)
    decreases |b|
  {
    hide Step;
    if b == [] {
      assert a + b == a;
    } else {
      RunTwice(m, a, b[..|b|-1]);
      assert (a + b)[..|a + b|-1] == a + b[..|b|-1];
    }
  }

  lemma RunPair(m: Machine, e: Event, f: Event)
    ensures Run(m, [e]) == Step(m, e) && Run(m, [e, f]) == Step(Step(m, e), f)
  {
    hide Step;
    assert [e, f][..1] == [e] && [e][..0] == [];
  }

  lemma NothingDue(n: nat, es: seq<Event>)
    ensures
      var m := Run(Start(n), es);
      |m.roles| == |m.s.procs| && (m.s.lk == None ==> m.s.due == {})
  {
    MutualExclusion(n, es);
  }

  /** acquiresleep on a free lock: the process holds the lock and the spin lock is free again. */
  lemma AcquireSleep(n: nat, es: seq<Event>, p: nat)
    requires
      var m := Run(Start(n), es);
      p < |m.roles| && m.roles[p] == Idle && p < |m.s.procs| && m.s.procs[p].Outside? && m.s.lk == None && !m.s.x.locked
    ensures
      var m := Run(Start(n), es);
      Run(m, [Enter(p), Kernel(Acquire(p))] + [Take(p), Kernel(Release(p))]) ==
        Machine(m.s.(x := Word(true, Pid(p))), m.roles[p := Critical])
  {
    var m := Run(Start(n), es);
    NothingDue(n, es);
    RunTwice(m, [Enter(p), Kernel(Acquire(p))], [Take(p), Kernel(Release(p))]);
    RunPair(m, Enter(p), Kernel(Acquire(p)));
    var m1 := m.(roles := m.roles[p := Acquiring]);
    assert Step(m, Enter(p)) == m1;
    var m2 := m1.(s := With(m.s, p, Inside).(lk := Some(p)));
    assert Step(m1, Kernel(Acquire(p))) == m2;
    RunPair(m2, Take(p), Kernel(Release(p)));
    TakeTakes(m2, p);
    assert m.roles[p := Acquiring][p := Critical] == m.roles[p := Critical];
    assert m.s.procs[p := Inside][p := Outside] == m.s.procs;
  }

  /** m with the lock word cleared by p, who is inside the spin lock and owes a wakeup. */
  function Cleared(m: Machine, p: nat): Machine
    requires p < |m.s.procs| && p < |m.roles|
  {
    Machine(With(m.s, p, Inside).(x := Word(false, 0), lk := Some(p), due := {TheLock}), m.roles[p := Idle])
  }

  lemma LeaveAndClear(m: Machine, p: nat)
    requires p < |m.roles| == |m.s.procs| && m.roles[p] == Critical && m.s.procs[p].Outside?
    requires m.s.lk == None && m.s.due == {}
    ensures Run(m, [Leave(p), Kernel(Acquire(p))] + [Clear(p)]) == Cleared(m, p)
  {
    RunTwice(m, [Leave(p), Kernel(Acquire(p))], [Clear(p)]);
    RunPair(m, Leave(p), Kernel(Acquire(p)));
    var m1 := m.(roles := m.roles[p := Releasing]);
    assert Step(m, Leave(p)) == m1;
    var m2 := m1.(s := With(m.s, p, Inside).(lk := Some(p)));
    assert Step(m1, Kernel(Acquire(p))) == m2;
    RunPair(m2, Clear(p), Clear(p));
    ClearFrees(m2, p);
    assert m.roles[p := Releasing][p := Idle] == m.roles[p := Idle];
  }

  lemma WakeAndRelease(m: Machine, p: nat)
    requires p < |m.roles| == |m.s.procs| && m.s.procs[p].Outside?
    requires m.s.lk == None && m.s.table == None && m.s.due == {}
    ensures Run(Cleared(m, p), Kernels(WakeupEvents(p, TheLock, |m.s.procs|)) + [Kernel(Release(p))]) ==
      Machine(m.s.(x := Word(false, 0), procs := AllWoken(m.s.procs, TheLock)), m.roles[p := Idle])
  {
    var m3 := Cleared(m, p);
    var wakes := WakeupEvents<Word, Chan>(p, TheLock, |m.s.procs|);
    RunTwice(m3, Kernels(wakes), [Kernel(Release(p))]);
    KernelRun(m3, wakes);
    WakeupWakes(Free, m3.s, p, TheLock);
    var m4 := m3.(s := m3.s.(procs := AllWoken(m3.s.procs, TheLock), due := m3.s.due - {TheLock}));
    hide Run, SleepWakeup.Run;
    RunPair(m4, Kernel(Release(p)), Kernel(Release(p)));
    assert m4.s.procs[p].Inside? && m4.s.due == {};
    assert With(m4.s, p, Outside).procs == AllWoken(m.s.procs, TheLock);
  }

  /** releasesleep by the holder, with both spin locks free: the lock is free, every process that was
      asleep waiting for it is awake, and nothing else has changed. */
  lemma ReleaseSleep(n: nat, es: seq<Event>, p: nat)
    requires
      var m := Run(Start(n), es);
      && p < |m.roles| && m.roles[p] == Critical && p < |m.s.procs| && m.s.procs[p].Outside?
      && m.s.lk == None && m.s.table == None
    ensures
      var m := Run(Start(n), es);
      Run(m, [Leave(p), Kernel(Acquire(p))] + [Clear(p)]
             + (Kernels(WakeupEvents(p, TheLock, |m.s.procs|)) + [Kernel(Release(p))])) ==
        Machine(m.s.(x := Word(false, 0), procs := AllWoken(m.s.procs, TheLock)), m.roles[p := Idle])
  {
    var m := Run(Start(n), es);
    NothingDue(n, es);
    hide Run, Step;
    RunTwice(m, [Leave(p), Kernel(Acquire(p))] + [Clear(p)],
             Kernels(WakeupEvents(p, TheLock, |m.s.procs|)) + [Kernel(Release(p))]);
    LeaveAndClear(m, p);
    WakeAndRelease(m, p);
  }
}
